/** Little-endian 32-bit fields in a code buffer (assembler.hpp: byte_at, long_at, long_at_put). */
module CodeBytes {
  predicate IsJint(x: int) { -0x8000_0000 <= x < 0x8000_0000 }

  /** An unsigned 32-bit pattern as a jint. */
  function Jint(u: int): (x: int) { if u < 0x8000_0000 then u else u - 0x1_0000_0000 }

  /** The pattern of a jint. */
  function Pattern(x: int): (u: nat)
    requires IsJint(x)
  {
    if x < 0 then x + 0x1_0000_0000 else x
  }

  /** The cast to a jint. */
  function Truncated(x: int): (r: int)
    ensures IsJint(r) && (r - x) % 0x1_0000_0000 == 0
    ensures r == x <==> IsJint(x)
  {
    Jint(x % 0x1_0000_0000)
  }

  predicate IsBytes(code: seq<nat>) { forall i | 0 <= i < |code| :: code[i] < 0x100 }

  /** The 32-bit pattern at p, least significant byte first. */
  function Load32(code: seq<nat>, p: nat): (u: nat)
    requires p + 4 <= |code|
  {
    code[p] + 0x100 * code[p + 1] + 0x1_0000 * code[p + 2] + 0x100_0000 * code[p + 3]
  }

  /** long_at: the jint at p. */
  function Long(code: seq<nat>, p: nat): (x: int)
    requires p + 4 <= |code|
  {
    Jint(Load32(code, p))
  }

  /** The n low bytes of u, least significant first. */
  function Digits(u: nat, n: nat): (b: seq<nat>)
    ensures |b| == n && forall i | 0 <= i < n :: b[i] < 0x100
    decreases u, n
  {
    if n == 0 then [] else [u % 0x100] + Digits(u / 0x100, n - 1)
  }

  lemma DigitsSum(u: nat)
    requires u < 0x1_0000_0000
    ensures u == u % 0x100 + 0x100 * (u / 0x100 % 0x100) + 0x1_0000 * (u / 0x1_0000 % 0x100) + 0x100_0000 * (u / 0x100_0000 % 0x100)
  {
    var u1 := u / 0x100;
    var u2 := u1 / 0x100;
    var u3 := u2 / 0x100;
    SlowDivision(u);
    LastDigit(u);
    LastDigit(u1);
    LastDigit(u2);
    LastDigit(u3);
    assert u3 / 0x100 == 0;
  }

  lemma LastDigit(u: nat)
    ensures u == u % 0x100 + 0x100 * (u / 0x100)
  {
  }

  lemma SlowDivision(u: nat)
    ensures u / 0x100 / 0x100 == u / 0x1_0000 && u / 0x1_0000 / 0x100 == u / 0x100_0000
  {
  }

  lemma FourDigits(u: nat)
    ensures Digits(u, 4) == [u % 0x100, u / 0x100 % 0x100, u / 0x1_0000 % 0x100, u / 0x100_0000 % 0x100]
  {
    var u1, u2, u3 := u / 0x100, u / 0x1_0000, u / 0x100_0000;
    SlowDivision(u);
    NextDigit(u, 4);
    NextDigit(u1, 3);
    NextDigit(u2, 2);
    NextDigit(u3, 1);
  }

  lemma NextDigit(u: nat, n: nat)
    requires n > 0
    ensures Digits(u, n) == [u % 0x100] + Digits(u / 0x100, n - 1)
  {
  }

  /** The four bytes of a jint. */
  function Bytes(x: int): (b: seq<nat>)
    requires IsJint(x)
    ensures |b| == 4
    ensures forall i | 0 <= i < 4 :: b[i] < 0x100
    ensures Long(b, 0) == x
  {
    var u := Pattern(x);
    DigitsSum(u);
    FourDigits(u);
    Digits(u, 4)
  }

  /** now is was with the 32-bit field at p set to x. */
  predicate LongPut(was: seq<nat>, now: seq<nat>, p: nat, x: int) {
    && p + 4 <= |was| == |now|
    && Long(now, p) == x
    && (forall i | p <= i < p + 4 :: now[i] < 0x100)
    && forall i | 0 <= i < |was| && !(p <= i < p + 4) :: now[i] == was[i]
  }
}
