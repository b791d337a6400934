/** 64-bit arithmetic on pairs of 32-bit registers (cpu/i486/vm/assembler_i486.cpp: lneg, lmul, lshl,
    lshr, lcmp2int) against two's complement, as section 6.5 of the Java Virtual Machine
    Specification defines lneg, lmul, lshl, lshr, lushr and lcmp. */
module LongArithmetic {
  import opened Words
  import CodeBytes

  /** A 32-bit register. */
  predicate Is32(r: nat) { r < 0x1_0000_0000 }

  /** The long in a pair of registers, unsigned. */
  function Long(hi: nat, lo: nat): (x: nat) { hi * 0x1_0000_0000 + lo }

  function Mod32(x: int): (r: nat)
    ensures Is32(r)
  {
    x % 0x1_0000_0000
  }

  function Mod64(x: int): (r: nat)
    ensures r < 0x1_0000_0000_0000_0000
  {
    x % 0x1_0000_0000_0000_0000
  }

  /** r is x modulo 2^64 if it is in range and off by a multiple. */
  lemma Mod64Is(x: int, r: nat, k: int)
    requires r < 0x1_0000_0000_0000_0000 && x == r + k * 0x1_0000_0000_0000_0000
    ensures Mod64(x) == r
  {
  }

  lemma LongInRange(hi: nat, lo: nat)
    requires Is32(hi) && Is32(lo)
    ensures Long(hi, lo) < 0x1_0000_0000_0000_0000
  {
  }

  // ----- The instructions

  /** negl: the result and the carry flag. */
  function Negl(r: nat): (res: (nat, bool)) { (Mod32(-(r as int)), r != 0) }

  /** adcl r, imm. */
  function Adcl(r: nat, imm: nat, carry: bool): (res: nat) { Mod32(r + imm + if carry then 1 else 0) }

  function Addl(r: nat, s: nat): (res: nat) { Mod32(r + s) }

  /** mull: edx and eax. */
  function Mull(eax: nat, src: nat): (res: (nat, nat)) { (eax * src / 0x1_0000_0000, Mod32(eax * src)) }

  /** orl, one bit at a time. */
  function Orl(x: nat, y: nat): (r: nat) {
    if x == 0 then y else if y == 0 then x
    else (if x % 2 == 1 || y % 2 == 1 then 1 else 0) + 2 * Orl(x / 2, y / 2)
  }

  lemma {:induction false} OrlIsZero(x: nat, y: nat)
    ensures Orl(x, y) == 0 <==> x == 0 && y == 0
  {
    if x != 0 && y != 0 { OrlIsZero(x / 2, y / 2); }
  }

  /** The shifts, bit by bit, by a count that the processor has taken modulo 32. */
  function Shll(r: nat, c: nat): (res: nat)
    decreases c
  {
    if c == 0 then r else Shll(Mod32(2 * r), c - 1)
  }

  /** shldl: bits come in from the top of lo. */
  function Shldl(hi: nat, lo: nat, c: nat): (res: nat)
    decreases c
  {
    if c == 0 then hi else Shldl(Mod32(2 * hi + lo / 0x8000_0000), Mod32(2 * lo), c - 1)
  }

  /** shrl, and with sign sarl, which keeps the top bit. */
  function Shrl(r: nat, c: nat, sign: bool): (res: nat)
    decreases c
  {
    if c == 0 then r else Shrl(HalfWord(r, sign), c - 1, sign)
  }

  function HalfWord(r: nat, sign: bool): (res: nat) {
    r / 2 + if sign && r >= 0x8000_0000 then 0x8000_0000 else 0
  }

  /** shrdl: bits come in from the bottom of hi. */
  function Shrdl(lo: nat, hi: nat, c: nat): (res: nat)
    decreases c
  {
    if c == 0 then lo else Shrdl(lo / 2 + hi % 2 * 0x8000_0000, hi / 2, c - 1)
  }

  // ----- lneg

  method Lneg(hi0: nat, lo0: nat) returns (hi: nat, lo: nat)
    requires Is32(hi0) && Is32(lo0)
    ensures Is32(hi) && Is32(lo)
    ensures Long(hi, lo) == Mod64(-(Long(hi0, lo0) as int))
  {
    var carry;
    var res := Negl(lo0);
    lo, carry := res.0, res.1;
    hi := Adcl(hi0, 0, carry);
    hi := Negl(hi).0;
    assert lo == if lo0 == 0 then 0 else 0x1_0000_0000 - lo0;
    assert hi == if lo0 == 0 then if hi0 == 0 then 0 else 0x1_0000_0000 - hi0 else 0xFFFF_FFFF - hi0;
    Mod64Is(-(Long(hi0, lo0) as int), Long(hi, lo), if hi0 == 0 && lo0 == 0 then 0 else -1);
  }

  // ----- lmul

  method Lmul(xHi: nat, xLo: nat, yHi: nat, yLo: nat) returns (edx: nat, eax: nat)
    requires Is32(xHi) && Is32(xLo) && Is32(yHi) && Is32(yLo)
    ensures Is32(edx) && Is32(eax)
    ensures Long(edx, eax) == Mod64(Long(xHi, xLo) * Long(yHi, yLo))
  {
    var ebx := xHi;
    var ecx := yHi;
    eax := ebx;
    ebx := Orl(ebx, ecx);
    OrlIsZero(xHi, yHi);
    if ebx != 0 {
      var p := Mull(eax, yLo);
      edx, eax := p.0, p.1;
      ebx := eax;
      eax := xLo;
      p := Mull(eax, ecx);
      edx, eax := p.0, p.1;
      ebx := Addl(ebx, eax);
    }
    assert ebx == Mod32(xHi * yLo + xLo * yHi) by {
      if xHi == 0 && yHi == 0 {
        assert xHi * yLo == 0 && xLo * yHi == 0;
      } else {
        AddMods(xHi * yLo, xLo * yHi);
      }
    }
    eax := xLo;
    var q := Mull(eax, yLo);
    edx, eax := q.0, q.1;
    edx := Addl(edx, ebx);
    ProductOfHalves(xHi, xLo, yHi, yLo, edx, eax);
  }

  lemma AddMods(a: nat, b: nat)
    ensures Addl(Mod32(a), Mod32(b)) == Mod32(a + b)
  {
    SplitMod(a);
    SplitMod(b);
    AddParts(Mod32(a), Mod32(b), a + b, a / 0x1_0000_0000 + b / 0x1_0000_0000);
  }

  lemma SplitMod(x: nat)
    ensures x == x / 0x1_0000_0000 * 0x1_0000_0000 + Mod32(x)
  {
  }

  lemma AddParts(a: nat, b: nat, x: nat, k: nat)
    requires Is32(a) && Is32(b) && x == k * 0x1_0000_0000 + a + b
    ensures Addl(a, b) == Mod32(x)
  {
    if Is32(a + b) {
      Mod32Is(a + b, a + b, 0);
      Mod32Is(x, a + b, k);
    } else {
      Mod32Is(a + b, a + b - 0x1_0000_0000, 1);
      Mod32Is(x, a + b - 0x1_0000_0000, k + 1);
    }
  }

  lemma Mod32Is(x: int, r: nat, k: int)
    requires Is32(r) && x == r + k * 0x1_0000_0000
    ensures Mod32(x) == r
  {
  }

  lemma ProductOfHalves(xHi: nat, xLo: nat, yHi: nat, yLo: nat, edx: nat, eax: nat)
    requires Is32(eax) && eax == Mod32(xLo * yLo)
    requires edx == Addl(xLo * yLo / 0x1_0000_0000, Mod32(xHi * yLo + xLo * yHi))
    ensures Long(edx, eax) == Mod64(Long(xHi, xLo) * Long(yHi, yLo))
  {
    var low, cross, high := xLo * yLo, xHi * yLo + xLo * yHi, xHi * yHi;
    Expand(xHi, xLo, yHi, yLo);
    SumOfHalves(low, cross, high, edx, eax);
  }

  lemma Expand(a: nat, b: nat, c: nat, d: nat)
    ensures Long(a, b) * Long(c, d) ==
            a * c * 0x1_0000_0000_0000_0000 + (a * d + b * c) * 0x1_0000_0000 + b * d
  {
    var p := 0x1_0000_0000;
    assert Long(a, b) * Long(c, d) == a * p * Long(c, d) + b * Long(c, d);
    assert a * p * Long(c, d) == a * c * 0x1_0000_0000_0000_0000 + a * d * p;
    assert b * Long(c, d) == b * c * p + b * d;
  }

  lemma SumOfHalves(low: nat, cross: nat, high: nat, edx: nat, eax: nat)
    requires eax == Mod32(low) && edx == Addl(low / 0x1_0000_0000, Mod32(cross))
    ensures Long(edx, eax) == Mod64(high * 0x1_0000_0000_0000_0000 + cross * 0x1_0000_0000 + low)
  {
    var q, r := low / 0x1_0000_0000, Mod32(cross);
    SplitMod(low);
    SplitMod(cross);
    SplitMod(q + r);
    SumOfParts(high, cross, q, eax, (q + r) / 0x1_0000_0000 + cross / 0x1_0000_0000, edx);
  }

  lemma SumOfParts(high: nat, cross: nat, q: nat, eax: nat, k: nat, edx: nat)
    requires Is32(eax) && Is32(edx) && q + cross == k * 0x1_0000_0000 + edx
    ensures Long(edx, eax) ==
            Mod64(high * 0x1_0000_0000_0000_0000 + cross * 0x1_0000_0000 + (q * 0x1_0000_0000 + eax))
  {
    LongInRange(edx, eax);
    Mod64Is(high * 0x1_0000_0000_0000_0000 + cross * 0x1_0000_0000 + (q * 0x1_0000_0000 + eax), Long(edx, eax), high + k);
  }

  // ----- lshl

  /** andl(s, 0x3f); and from n = 32 on, one register moves over before the instructions shift by
      the count modulo 32. */
  method Lshl(hi0: nat, lo0: nat, ecx: nat) returns (hi: nat, lo: nat)
    requires Is32(hi0) && Is32(lo0)
    ensures Is32(hi) && Is32(lo)
    ensures Long(hi, lo) == ShiftedLeft(Long(hi0, lo0), ecx % 64)
  {
    hi, lo := hi0, lo0;
    var s := ecx % 64;
    if !(s < 32) {
      hi := lo;
      lo := 0;
    }
    var c := s % 32;                               // the count that the processor uses
    if s < 32 { ShiftLeft(hi0, lo0, s); } else { ShiftLeftFar(hi0, lo0, c, s); }
    hi := Shldl(hi, lo, c);
    lo := Shll(lo, c);
  }

  lemma ShiftLeftFar(hi: nat, lo: nat, c: nat, s: nat)
    requires Is32(lo) && s == c + 32
    ensures Is32(Shldl(lo, 0, c)) && Is32(Shll(0, c))
    ensures Long(Shldl(lo, 0, c), Shll(0, c)) == ShiftedLeft(Long(hi, lo), s)
  {
    ShiftLeft(lo, 0, c);
    ShiftLeftByWord(hi, lo, c);
  }

  /** x * 2^c in 64 bits. */
  function ShiftedLeft(x: nat, c: nat): (r: nat) { Mod64(x * Pow2(c)) }

  lemma Pow2Of32()
    ensures Pow2(32) == 0x1_0000_0000
  {
    Pow2Splits(8, 8);
    Pow2Splits(16, 16);
    assert Pow2(8) == 0x100;
  }

  lemma Pow2Of31()
    ensures Pow2(31) == 0x8000_0000
  {
    Pow2Of32();
    assert Pow2(32) == 2 * Pow2(31);
  }

  /** A pair shifted bit by bit is multiplied by a power of two. */
  lemma {:induction false} ShiftLeft(hi: nat, lo: nat, c: nat)
    requires Is32(hi) && Is32(lo)
    ensures Is32(Shldl(hi, lo, c)) && Is32(Shll(lo, c))
    ensures Long(Shldl(hi, lo, c), Shll(lo, c)) == ShiftedLeft(Long(hi, lo), c)
    decreases c
  {
    if c == 0 {
      ShiftByNone(Long(hi, lo));
      LongInRange(hi, lo);
    } else {
      var hi1, lo1 := Mod32(2 * hi + lo / 0x8000_0000), Mod32(2 * lo);
      ShiftLeft(hi1, lo1, c - 1);
      ShiftLeftOnce(hi, lo);
      TimesPow2(Long(hi, lo), c);
    }
  }

  lemma ShiftByNone(x: nat)
    requires x < 0x1_0000_0000_0000_0000
    ensures Mod64(x * Pow2(0)) == x
  {
    assert x * Pow2(0) == x;
  }

  lemma ShiftLeftOnce(hi: nat, lo: nat)
    requires Is32(hi) && Is32(lo)
    ensures Long(Mod32(2 * hi + lo / 0x8000_0000), Mod32(2 * lo)) == Mod64(2 * Long(hi, lo))
  {
    var carry, top := lo / 0x8000_0000, hi / 0x8000_0000;
    SpillOver(hi, carry, top);
    SpillOver(lo, 0, carry);
    LongInRange(Mod32(2 * hi + carry), Mod32(2 * lo));
    Mod64Is(2 * Long(hi, lo), Long(Mod32(2 * hi + carry), Mod32(2 * lo)), top);
  }

  /** The top bit spills over. */
  lemma SpillOver(r: nat, carry: nat, top: nat)
    requires Is32(r) && carry <= 1 && top == r / 0x8000_0000
    ensures 2 * r + carry == top * 0x1_0000_0000 + Mod32(2 * r + carry)
  {
    assert r == top * 0x8000_0000 + r % 0x8000_0000;
    Mod32Is(2 * r + carry, 2 * (r % 0x8000_0000) + carry, top);
  }

  lemma TimesPow2(x: nat, c: nat)
    requires c > 0
    ensures Mod64(Mod64(2 * x) * Pow2(c - 1)) == Mod64(x * Pow2(c))
  {
    Mod64Times(2 * x, Pow2(c - 1));
    assert 2 * x * Pow2(c - 1) == x * Pow2(c);
  }

  lemma Mod64Times(x: nat, p: nat)
    ensures Mod64(Mod64(x) * p) == Mod64(x * p)
  {
    var k := x / 0x1_0000_0000_0000_0000;
    assert x * p == (k * p) * 0x1_0000_0000_0000_0000 + Mod64(x) * p;
    Mod64Plus(Mod64(x) * p, k * p);
  }

  lemma Mod64Plus(x: int, k: int)
    ensures Mod64(k * 0x1_0000_0000_0000_0000 + x) == Mod64(x)
  {
  }

  /** The low word has moved up by 32 bits before. */
  lemma ShiftLeftByWord(hi: nat, lo: nat, c: nat)
    ensures ShiftedLeft(Long(lo, 0), c) == ShiftedLeft(Long(hi, lo), c + 32)
  {
    var p := Pow2(c);
    Pow2Splits(c, 32);
    Pow2Of32();
    assert Long(hi, lo) * (p * 0x1_0000_0000) == hi * p * 0x1_0000_0000_0000_0000 + Long(lo, 0) * p;
    Mod64Plus(Long(lo, 0) * p, hi * p);
  }

  // ----- lshr

  /** The shift to the right, with or without sign extension. */
  method Lshr(hi0: nat, lo0: nat, ecx: nat, signExtension: bool) returns (hi: nat, lo: nat)
    requires Is32(hi0) && Is32(lo0)
    ensures Is32(hi) && Is32(lo)
    ensures var x := Long(hi0, lo0);
            Long(hi, lo) == Mod64(Floor(if signExtension then Signed(x) else x, ecx % 64))
  {
    hi, lo := hi0, lo0;
    var s := ecx % 64;
    if !(s < 32) {
      lo := hi;
      hi := SignFill(hi, signExtension);
    }
    var c := s % 32;                               // the count that the processor uses
    WholeIsLong(hi0, lo0);
    if s < 32 { ShiftRight(hi0, lo0, s, signExtension); } else { ShiftRightFar(hi0, lo0, c, s, signExtension); }
    lo := Shrdl(lo, hi, c);
    hi := Shrl(hi, c, signExtension);
  }

  /** sarl(hi, 31), or xorl(hi, hi). */
  function SignFill(hi: nat, sign: bool): (top: nat) {
    var n := 31;
    if sign then Shrl(hi, n, true) else 0
  }

  lemma SignFillExtends(hi: nat, sign: bool)
    requires Is32(hi)
    ensures Is32(SignFill(hi, sign)) && Whole(SignFill(hi, sign), hi, sign) == High(hi, sign)
  {
    SignWord(hi, 31);
  }

  lemma ShiftRightFar(hi: nat, lo: nat, c: nat, s: nat, sign: bool)
    requires Is32(hi) && Is32(lo) && c <= 32 && s == c + 32
    ensures var top := SignFill(hi, sign);
            && Is32(Shrl(top, c, sign)) && Is32(Shrdl(hi, top, c))
            && Long(Shrl(top, c, sign), Shrdl(hi, top, c)) == Mod64(Floor(Whole(hi, lo, sign), s))
  {
    var top := SignFill(hi, sign);
    SignFillExtends(hi, sign);
    ShiftRight(top, hi, c, sign);
    FloorOfWord(High(hi, sign), lo, c);
  }

  /** The number in a pair, signed or not. */
  function Whole(hi: nat, lo: nat, sign: bool): (x: int) { High(hi, sign) * 0x1_0000_0000 + lo }

  lemma WholeIsLong(hi: nat, lo: nat)
    requires Is32(hi) && Is32(lo)
    ensures Whole(hi, lo, false) == Long(hi, lo) && Whole(hi, lo, true) == Signed(Long(hi, lo))
  {
  }

  /** floor(x / 2^c). */
  function Floor(x: int, c: nat): (q: int) { x / Pow2(c) }

  /** The number that a register stands for as the upper half of a long. */
  function High(hi: nat, sign: bool): (h: int) { if sign then CodeBytes.Jint(hi) else hi }

  /** Halving c times is dividing by 2^c. */
  lemma FloorOfHalf(x: int, c: nat)
    ensures Floor(x / 2, c) == Floor(x, c + 1)
  {
    var p := Pow2(c);
    Division(x / 2, p);
    DivIs(x, 2 * p, x / 2 / p, 2 * (x / 2 % p) + x % 2);
  }

  lemma Division(x: int, p: nat)
    requires p > 0
    ensures x == x / p * p + x % p && 0 <= x % p < p
  {
  }

  lemma DivIs(x: int, p: nat, q: int, r: nat)
    requires r < p && x == q * p + r
    ensures x / p == q && x % p == r
  {
    var d := x / p - q;
    assert d * p == r - x % p;
    MulAtLeast(d, p);
    MulAtLeast(-d, p);
  }

  lemma MulAtLeast(d: int, p: nat)
    ensures d >= 1 ==> d * p >= p
  {
  }

  /** A pair shifted bit by bit is divided by a power of two. */
  lemma {:induction false} ShiftRight(hi: nat, lo: nat, c: nat, sign: bool)
    requires Is32(hi) && Is32(lo) && c <= 32
    ensures Is32(Shrl(hi, c, sign)) && Is32(Shrdl(lo, hi, c))
    ensures Long(Shrl(hi, c, sign), Shrdl(lo, hi, c)) == Mod64(Floor(Whole(hi, lo, sign), c))
    decreases c
  {
    if c == 0 {
      FloorOfNone(hi, lo, sign);
    } else {
      var hi1, lo1 := HalfWord(hi, sign), lo / 2 + hi % 2 * 0x8000_0000;
      ShiftRightOnce(hi, lo, sign);
      ShiftRight(hi1, lo1, c - 1, sign);
      Pow2Of31();
      SameBits(lo1, hi1, hi / 2, c - 1, 31, if sign && hi >= 0x8000_0000 then 1 else 0);
      FloorOfHalf(Whole(hi, lo, sign), c - 1);
    }
  }

  lemma FloorOfNone(hi: nat, lo: nat, sign: bool)
    requires Is32(hi) && Is32(lo)
    ensures Long(hi, lo) == Mod64(Floor(Whole(hi, lo, sign), 0))
  {
    var x := Whole(hi, lo, sign);
    assert Floor(x, 0) == x;
    LongInRange(hi, lo);
    Mod64Is(x, Long(hi, lo), if High(hi, sign) < 0 then -1 else 0);
  }

  lemma ShiftRightOnce(hi: nat, lo: nat, sign: bool)
    requires Is32(hi) && Is32(lo)
    ensures var hi1, lo1 := HalfWord(hi, sign), lo / 2 + hi % 2 * 0x8000_0000;
            Is32(hi1) && Is32(lo1) && Whole(hi1, lo1, sign) == Whole(hi, lo, sign) / 2
  {
  }

  /** shrdl takes c bits from the other register, and so never sees bits from k on. */
  lemma {:induction false} SameBits(lo: nat, a: nat, b: nat, c: nat, k: nat, m: nat)
    requires a == b + m * Pow2(k) && c <= k
    ensures Shrdl(lo, a, c) == Shrdl(lo, b, c)
    decreases c
  {
    if c > 0 {
      assert m * Pow2(k) == 2 * (m * Pow2(k - 1));
      SameBits(lo / 2 + b % 2 * 0x8000_0000, a / 2, b / 2, c - 1, k - 1, m);
    }
  }

  /** sarl alone. */
  lemma {:induction false} SarlIsFloor(hi: nat, c: nat)
    requires Is32(hi)
    ensures Is32(Shrl(hi, c, true)) && CodeBytes.Jint(Shrl(hi, c, true)) == Floor(CodeBytes.Jint(hi), c)
    decreases c
  {
    if c == 0 {
      assert Floor(CodeBytes.Jint(hi), 0) == CodeBytes.Jint(hi);
    } else {
      SarlIsFloor(HalfWord(hi, true), c - 1);
      FloorOfHalf(CodeBytes.Jint(hi), c - 1);
    }
  }

  /** The sign in all bits. */
  lemma SignWord(hi: nat, n: nat)
    requires Is32(hi) && n == 31
    ensures Shrl(hi, n, true) == if hi >= 0x8000_0000 then 0xFFFF_FFFF else 0
  {
    SarlIsFloor(hi, n);
    Pow2Of31();
    assert Floor(CodeBytes.Jint(hi), n) == if hi >= 0x8000_0000 then -1 else 0;
  }

  /** The high word has moved down by 32 bits before. */
  lemma FloorOfWord(h: int, lo: nat, c: nat)
    requires Is32(lo)
    ensures Floor(h, c) == Floor(h * 0x1_0000_0000 + lo, c + 32)
  {
    var p := Pow2(c);
    Pow2Splits(c, 32);
    Pow2Of32();
    Division(h, p);
    var r := h % p * 0x1_0000_0000 + lo;
    assert h * 0x1_0000_0000 + lo == h / p * (p * 0x1_0000_0000) + r;
    DivIs(h * 0x1_0000_0000 + lo, p * 0x1_0000_0000, h / p, r);
  }

  // ----- lcmp2int

  /** The value that is left in xHi. */
  method Lcmp2int(xHi: nat, xLo: nat, yHi: nat, yLo: nat) returns (r: int)
    requires Is32(xHi) && Is32(xLo) && Is32(yHi) && Is32(yLo)
    ensures var x, y := Signed(Long(xHi, xLo)), Signed(Long(yHi, yLo));
            r == if x < y then -1 else if x == y then 0 else 1
  {
    if CodeBytes.Jint(xHi) < CodeBytes.Jint(yHi) {                     // jcc less
      r := -1;
    } else if CodeBytes.Jint(xHi) > CodeBytes.Jint(yHi) {              // jcc greater
      r := 1;
    } else if xLo < yLo {                                  // jcc below
      r := -1;
    } else if xLo == yLo {
      r := 0;
    } else {
      r := 1;
    }
  }
}
