/** The two searches of a lookupswitch (templateTable_amd64.cpp, fast_linearswitch and
    fast_binaryswitch): one swaps the bytes of the key, the other those of the table. */
module Switches {
  import opened CodeBytes

  // ----- Words in memory

  /** What a class file means: a big-endian jint. */
  function Operand(mem: seq<nat>, a: nat): (x: int)
    requires a + 4 <= |mem|
  {
    Jint(0x100_0000 * mem[a] + 0x1_0000 * mem[a + 1] + 0x100 * mem[a + 2] + mem[a + 3])
  }

  function Bswapl(w: nat): (r: nat) {
    w / 0x100_0000 % 0x100 + 0x100 * (w / 0x1_0000 % 0x100) + 0x1_0000 * (w / 0x100 % 0x100) + 0x100_0000 * (w % 0x100)
  }

  lemma BytesOf(a: nat, b: nat, c: nat, d: nat, w: nat)
    requires a < 0x100 && b < 0x100 && c < 0x100 && d < 0x100
    requires w == a + 0x100 * b + 0x1_0000 * c + 0x100_0000 * d
    ensures w % 0x100 == a && w / 0x100 % 0x100 == b && w / 0x1_0000 % 0x100 == c && w / 0x100_0000 % 0x100 == d
    ensures w < 0x1_0000_0000
  {
    assert w / 0x100 == b + 0x100 * c + 0x1_0000 * d;
    assert w / 0x1_0000 == c + 0x100 * d;
    assert w / 0x100_0000 == d;
  }

  /** Swapping what was loaded gives the operand. */
  lemma LoadAndSwap(mem: seq<nat>, a: nat)
    requires IsBytes(mem) && a + 4 <= |mem|
    ensures Bswapl(Load32(mem, a)) < 0x1_0000_0000 && Jint(Bswapl(Load32(mem, a))) == Operand(mem, a)
  {
    BytesOf(mem[a], mem[a + 1], mem[a + 2], mem[a + 3], Load32(mem, a));
  }

  /** Bytes swapped twice are back in place. */
  lemma SwapTwice(w: nat)
    requires w < 0x1_0000_0000
    ensures Bswapl(Bswapl(w)) == w
  {
    var a, b, c, d := w % 0x100, w / 0x100 % 0x100, w / 0x1_0000 % 0x100, w / 0x100_0000 % 0x100;
    DigitsSum(w);
    BytesOf(d, c, b, a, Bswapl(w));
  }

  /** Comparing a swapped key with a raw word is comparing the key with the operand. */
  lemma SwappedKey(mem: seq<nat>, a: nat, key: int)
    requires IsBytes(mem) && a + 4 <= |mem| && -0x8000_0000 <= key < 0x8000_0000
    ensures Bswapl(Pattern(key)) == Load32(mem, a) <==> key == Operand(mem, a)
  {
    BytesOf(mem[a], mem[a + 1], mem[a + 2], mem[a + 3], Load32(mem, a));
    SwapTwice(Pattern(key));
    SwapTwice(Load32(mem, a));
    LoadAndSwap(mem, a);
    assert Pattern(key) == Bswapl(Load32(mem, a)) <==> key == Operand(mem, a);
  }

  // ----- The table of a lookupswitch

  /** The operands are aligned behind the opcode at bcp: default, npairs, match and offset pairs. */
  function Table(bcp: nat): (t: nat) { (bcp + 4) / 4 * 4 }

  function Match(mem: seq<nat>, bcp: nat, i: nat): (m: int)
    requires Table(bcp) + 8 * i + 12 <= |mem|
  {
    Operand(mem, Table(bcp) + 8 + 8 * i)
  }

  function Offset(mem: seq<nat>, bcp: nat, i: nat): (o: int)
    requires Table(bcp) + 8 * i + 16 <= |mem|
  {
    Operand(mem, Table(bcp) + 12 + 8 * i)
  }

  /** A table of n pairs lies in memory. */
  predicate IsTable(mem: seq<nat>, bcp: nat, n: nat) {
    && IsBytes(mem) && Table(bcp) + 8 + 8 * n <= |mem|
    && Operand(mem, Table(bcp) + 4) == n
  }

  predicate Sorted(mem: seq<nat>, bcp: nat, n: nat)
    requires IsTable(mem, bcp, n)
  {
    forall i, j | 0 <= i < j < n :: Match(mem, bcp, i) < Match(mem, bcp, j)
  }

  /** The last of the first k pairs whose match is the key, or -1. */
  function LastMatch(mem: seq<nat>, bcp: nat, k: nat, key: int): (i: int)
    requires Table(bcp) + 8 + 8 * k <= |mem|
    ensures -1 <= i < k
    ensures i >= 0 ==> Match(mem, bcp, i) == key
    ensures forall j | i < j < k :: Match(mem, bcp, j) != key
  {
    if k == 0 then -1 else if Match(mem, bcp, k - 1) == key then k - 1 else LastMatch(mem, bcp, k - 1, key)
  }

  /** Where execution goes on: at the pair's offset from the opcode, or the default's. */
  function Target(mem: seq<nat>, bcp: nat, n: nat, key: int): (t: int)
    requires IsTable(mem, bcp, n)
  {
    var i := LastMatch(mem, bcp, n, key);
    bcp + if i < 0 then Operand(mem, Table(bcp)) else Offset(mem, bcp, i)
  }

  // ----- The two searches

  method FastLinearSwitch(mem: seq<nat>, bcp: nat, ghost n: nat, key: int) returns (target: int)
    requires IsTable(mem, bcp, n) && -0x8000_0000 <= key < 0x8000_0000
    ensures target == Target(mem, bcp, n, key)
  {
    var rax := Bswapl(Pattern(key));
    var rbx := (bcp + 4) / 4 * 4;
    var count := LoadSwapped(mem, rbx + 4);
    var offset;
    while true
      invariant 0 <= count <= n
      invariant LastMatch(mem, bcp, n, key) == LastMatch(mem, bcp, count, key)
      decreases count
    {
      count := count - 1;
      if count < 0 {
        offset := LoadSwapped(mem, rbx);
        break;
      }
      SwappedKey(mem, rbx + 8 + 8 * count, key);
      if rax == Load32(mem, rbx + 8 * count + 8) {
        offset := LoadSwapped(mem, rbx + 8 * count + 12);
        break;
      }
    }
    target := bcp + offset;
  }

  /** movl and bswapl. */
  method LoadSwapped(mem: seq<nat>, a: nat) returns (x: int)
    requires IsBytes(mem) && a + 4 <= |mem|
    ensures x == Operand(mem, a)
  {
    var w := Load32(mem, a);
    x := Jint(Bswapl(w));
    LoadAndSwap(mem, a);
  }

  /** leal and sarl of two 32-bit values, which do not overflow in a table that fits in memory. */
  function Middle(i: nat, j: nat): (h: int)
    ensures i + 1 < j <= 0x4000_0000 ==> i < h < j
  {
    Truncated(i + j) / 2
  }

  method FastBinarySwitch(mem: seq<nat>, bcp: nat, ghost n: nat, key: int) returns (target: int)
    requires IsTable(mem, bcp, n) && Sorted(mem, bcp, n)
    requires 0 < n <= 0x4000_0000 && -0x8000_0000 <= key < 0x8000_0000
    ensures target == Target(mem, bcp, n, key)
  {
    var table := (bcp + 12) / 4 * 4;
    assert table == Table(bcp) + 8;
    ghost var matches := seq(n, k requires 0 <= k < n => Match(mem, bcp, k));
    var length := LoadSwapped(mem, table - 4);
    var i := BinarySearch(mem, bcp, length, key, matches);
    Found(mem, bcp, n, key, i, matches);
    var temp := LoadMatch(mem, bcp, n, i);
    var offset;
    if key == temp {
      offset := LoadSwapped(mem, table + 8 * i + 4);
    } else {
      offset := LoadSwapped(mem, table - 8);
    }
    target := bcp + offset;
  }

  /** The loop, with the invariant that its comment gives. */
  method BinarySearch(mem: seq<nat>, bcp: nat, n: nat, key: int, ghost a: seq<int>) returns (i: int)
    requires IsTable(mem, bcp, n) && 0 < n <= 0x4000_0000
    requires |a| == n && (forall k | 0 <= k < n :: a[k] == Match(mem, bcp, k))
    requires forall k, l | 0 <= k < l < n :: a[k] < a[l]
    ensures 0 <= i < n
    ensures (a[i] <= key && (i + 1 == n || key < a[i + 1])) || forall k | 0 <= k < n :: key < a[k]
  {
    i := 0;
    var j := n;
    while i + 1 < j
      invariant 0 <= i < j <= n
      invariant (a[i] <= key && (j == n || key < a[j])) || forall k | 0 <= k < n :: key < a[k]
      decreases j - i
    {
      var h := Middle(i, j);
      var temp := LoadMatch(mem, bcp, n, h);
      if key < temp { j := h; } else { i := h; }
    }
  }

  method LoadMatch(mem: seq<nat>, bcp: nat, ghost n: nat, h: nat) returns (x: int)
    requires IsTable(mem, bcp, n) && h < n
    ensures x == Match(mem, bcp, h)
  {
    x := LoadSwapped(mem, (bcp + 12) / 4 * 4 + 8 * h);
  }

  /** In a sorted table the search has come to the only place where the key can be. */
  lemma Found(mem: seq<nat>, bcp: nat, n: nat, key: int, i: nat, a: seq<int>)
    requires IsTable(mem, bcp, n) && Sorted(mem, bcp, n) && i < n
    requires |a| == n && forall k | 0 <= k < n :: a[k] == Match(mem, bcp, k)
    requires (a[i] <= key && (i + 1 == n || key < a[i + 1])) || forall k | 0 <= k < n :: key < a[k]
    ensures LastMatch(mem, bcp, n, key) == if a[i] == key then i else -1
    ensures Target(mem, bcp, n, key) ==
            bcp + if a[i] == key then Operand(mem, Table(bcp) + 12 + 8 * i) else Operand(mem, Table(bcp))
  {
  }
}
