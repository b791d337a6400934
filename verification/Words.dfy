/** Machine words as natural numbers: powers of two, 64-bit subtraction and bitwise AND,
    and the one fact about masks that the recursive-lock test of the interpreter rests on. */
module Words {

  function Pow2(n: nat): (p: nat)
    ensures p >= 1
  {
    if n == 0 then 1 else 2 * Pow2(n - 1)
  }

  const WORD: nat := 0x1_0000_0000_0000_0000

  type Word = w: nat | w < WORD witness 0

  /** The signed reading of a register. */
  function Signed(x: nat): (r: int) {
    if x < WORD / 2 then x else x - WORD
  }

  /** x - y in a 64-bit register. */
  function Sub64(x: nat, y: nat): (r: Word)
  {
    (x as int - y) % WORD
  }

  /** The bitwise AND of two natural numbers, one bit at a time. */
  function And(x: nat, y: nat): (r: nat)
    ensures r <= x
  {
    if x == 0 || y == 0 then 0
    else (if x % 2 == 1 && y % 2 == 1 then 1 else 0) + 2 * And(x / 2, y / 2)
  }

  /** The bitwise OR of a word with the constant 1. */
  function OrOne(x: Word): (r: Word)
    ensures r % 2 == 1 && (x % 2 == 1 ==> r == x)
  {
    if x % 2 == 0 then x + 1 else x
  }

  lemma {:induction false} Pow2Splits(a: nat, b: nat)
    ensures Pow2(a + b) == Pow2(a) * Pow2(b)
  {
    if a != 0 {
      Pow2Splits(a - 1, b);
      assert Pow2(a + b) == 2 * Pow2((a - 1) + b);
    }
  }

  lemma {:induction false} Pow2Monotone(a: nat, b: nat)
    requires a <= b
    ensures Pow2(a) <= Pow2(b)
  {
    if a != b {
      Pow2Monotone(a, b - 1);
    }
  }

  /** AND with a mask whose set bits are exactly bits k..n-1 is zero just when x is below 2^k. */
  lemma {:induction false} AndHighMask(x: nat, k: nat, n: nat)
    requires k <= n && x < Pow2(n)
    ensures Pow2(k) <= Pow2(n)
    ensures And(x, Pow2(n) - Pow2(k)) == 0 <==> x < Pow2(k)
    decreases n
  {
    Pow2Monotone(k, n);
    if n == 0 {
    } else if k == 0 {
      AndAllOnes(x, n);
    } else {
      var m := Pow2(n) - Pow2(k);
      assert m == 2 * (Pow2(n - 1) - Pow2(k - 1));
      AndHighMask(x / 2, k - 1, n - 1);
      assert m % 2 == 0 && m / 2 == Pow2(n - 1) - Pow2(k - 1);
    }
  }

  lemma {:induction false} AndAllOnes(x: nat, n: nat)
    requires x < Pow2(n)
    ensures And(x, Pow2(n) - 1) == x
  {
    if n != 0 && x != 0 {
      AndAllOnes(x / 2, n - 1);
      assert (Pow2(n) - 1) % 2 == 1 && (Pow2(n) - 1) / 2 == Pow2(n - 1) - 1;
    }
  }

  /** AND with 8m + 7 splits into the low three bits and the rest. */
  lemma AndLowThree(x: nat, m: nat)
    ensures And(x, 8 * m + 7) == x % 8 + 8 * And(x / 8, m)
  {
    AndOddIs(x, 8 * m + 7, 4 * m + 3);
    AndOddIs(x / 2, 4 * m + 3, 2 * m + 1);
    AndOddIs(x / 2 / 2, 2 * m + 1, m);
    LowThreeBits(x, And(x, 8 * m + 7), And(x / 2, 4 * m + 3), And(x / 2 / 2, 2 * m + 1), And(x / 2 / 2 / 2, m));
  }

  lemma LowThreeBits(x: nat, a: nat, b: nat, c: nat, d: nat)
    requires a == x % 2 + 2 * b && b == x / 2 % 2 + 2 * c && c == x / 2 / 2 % 2 + 2 * d
    ensures a == x % 8 + 8 * d && x / 2 / 2 / 2 == x / 8
  {
    var x1 := x / 2;
    var x2 := x1 / 2;
    EighthIs(x, x2 / 2, 4 * (x2 % 2) + 2 * (x1 % 2) + x % 2);
  }

  lemma EighthIs(x: nat, q: nat, r: nat)
    requires x == 8 * q + r && r < 8
    ensures x / 8 == q && x % 8 == r
  {
  }

  lemma AndOddIs(x: nat, k: nat, m: nat)
    requires k == 2 * m + 1
    ensures And(x, k) == x % 2 + 2 * And(x / 2, m)
  {
    AndOdd(x, m);
  }

  lemma AndOdd(x: nat, m: nat)
    ensures And(x, 2 * m + 1) == x % 2 + 2 * And(x / 2, m)
  {
    assert (2 * m + 1) % 2 == 1 && (2 * m + 1) / 2 == m;
  }

  /** AND with bits 0..2 and k+3..n+2 set is zero just for the multiples of 8 below 2^(k+3). */
  lemma AndPageMask(d: nat, k: nat, n: nat, m: nat)
    requires k <= n && d < 8 * Pow2(n) && Pow2(k) <= Pow2(n) && m == 8 * Pow2(n) - 8 * Pow2(k) + 7
    ensures And(d, m) == 0 <==> d % 8 == 0 && d < 8 * Pow2(k)
  {
    HighMaskOfEighths(d, k, n);
    PageMask(d, Pow2(k), Pow2(n), m);
  }

  lemma HighMaskOfEighths(d: nat, k: nat, n: nat)
    requires k <= n && d < 8 * Pow2(n) && Pow2(k) <= Pow2(n)
    ensures And(d / 8, Pow2(n) - Pow2(k)) == 0 <==> d < 8 * Pow2(k)
  {
    AndHighMask(d / 8, k, n);
  }

  lemma SubPageSize(p: nat)
    requires 8 <= p <= WORD
    ensures Sub64(7, p) == WORD - p + 7
  {
  }

  /** A subtraction that stays below the room left above the subtrahend did not wrap. */
  lemma SubInWindow(x: Word, y: Word, p: nat)
    requires p % 8 == 0 && y % 8 == 0 && y + p <= WORD
    ensures Sub64(x, y) % 8 == 0 && Sub64(x, y) < p <==> x % 8 == 0 && y <= x < y + p
  {
    if x < y {
      assert Sub64(x, y) == x - y + WORD;
    } else {
      assert Sub64(x, y) == x - y;
      SubMod8(x, y);
    }
  }

  lemma SubMod8(x: nat, y: nat)
    requires y <= x && y % 8 == 0
    ensures (x - y) % 8 == x % 8
  {
  }

  lemma EightTimes(k: nat)
    requires 3 <= k
    ensures Pow2(k) == 8 * Pow2(k - 3)
  {
    assert Pow2(k) == 2 * Pow2(k - 1) && Pow2(k - 1) == 2 * Pow2(k - 2) && Pow2(k - 2) == 2 * Pow2(k - 3);
  }

  lemma PageMask(d: nat, low: nat, high: nat, m: nat)
    requires low <= high && m == 8 * high - 8 * low + 7
    ensures And(d, m) == 0 <==> d % 8 == 0 && And(d / 8, high - low) == 0
  {
    AndLowThree(d, high - low);
  }

  lemma WordIsPow2()
    ensures WORD == Pow2(64)
  {
    EightTimes(3);
    EightTimes(6);
    Pow2Splits(6, 2);
    assert Pow2(8) == 0x100;
    Pow2Splits(8, 8);
    assert Pow2(16) == 0x1_0000;
    Pow2Splits(16, 16);
    assert Pow2(32) == 0x1_0000_0000;
    Pow2Splits(32, 32);
  }
}
