/** Patching of calls and jumps that other threads may be executing (nativeInst_amd64.cpp and
    nativeInst_amd64.hpp: NativeCall, NativeJump, NativeGeneralJump; relocInfo_amd64.cpp).

    Other threads fetch an instruction at one instant, so what they can see are the contents that
    the memory goes through. On a uniprocessor a store is one change. On a multiprocessor a store
    inside one aligned 8-byte line is; a store across the end of a line is two changes, and either
    half may come first. */
module Patching {
  import opened CodeBytes

  type Mem = seq<nat>

  function Put(m: Mem, off: nat, b: seq<nat>): (r: Mem)
    requires off + |b| <= |m|
    ensures |r| == |m| && r[off..off + |b|] == b
    ensures forall i | 0 <= i < |m| && !(off <= i < off + |b|) :: r[i] == m[i]
  {
    m[..off] + b + m[off + |b|..]
  }

  /** The n bytes at this address lie in one line of NativeCall::cache_line_size bytes, which is 8 as a
      conservative estimate. */
  predicate InLine(address: nat, n: nat)
    requires n > 0
  {
    address / 8 == (address + n - 1) / 8
  }

  /** A store of n bytes at this address is one change. */
  predicate Atomic(mp: bool, address: nat, n: nat)
    requires n > 0
  {
    !mp || InLine(address, n)
  }

  /** Everything that the memory looks like in the course of one write. */
  function Visible(mp: bool, m: Mem, at: nat, off: nat, b: seq<nat>): (s: seq<Mem>)
    requires 0 < |b| <= 8 && off + |b| <= |m|
    ensures s != [] && s[|s| - 1] == Put(m, off, b) && forall i | 0 <= i < |s| :: |s[i]| == |m|
  {
    if Atomic(mp, at + off, |b|) then [Put(m, off, b)]
    else
      var k := 8 - (at + off) % 8;
      [Put(m, off, b[..k]), Put(m, off + k, b[k..]), Put(m, off, b)]
  }

  /** A thread that fetches here jumps to itself until the patch is complete. */
  predicate Spins(m: Mem, p: nat) { p + 2 <= |m| && m[p] == 0xEB && m[p + 1] == 0xFE }

  /** The five bytes of a call or jump. */
  predicate Holds(m: Mem, p: nat, insn: seq<nat>) { p + 5 <= |m| && m[p..p + 5] == insn }

  /** All that a free-running thread may meet at p while old is being replaced by new. */
  predicate SafeView(m: Mem, p: nat, was: Mem, insn: seq<nat>)
    requires |m| == |was| && p + 5 <= |was|
  {
    Holds(m, p, was[p..p + 5]) || Spins(m, p) || Holds(m, p, insn)
  }

  predicate SameOutside(m: Mem, was: Mem, p: nat) {
    |m| == |was| && forall i | 0 <= i < |m| && !(p <= i < p + 5) :: m[i] == was[i]
  }

  class Code {
    var mem: Mem
    const at: nat                          // the address of mem[0]
    const isMP: bool                       // os::is_MP()
    ghost var seen: seq<Mem>               // what other threads have been able to see

    ghost predicate Valid()
      reads this
    {
      seen != [] && seen[|seen| - 1] == mem && forall i | 0 <= i < |seen| :: |seen[i]| == |mem|
    }

    /** A store. */
    method Store(off: nat, b: seq<nat>)
      requires Valid() && 0 < |b| <= 8 && off + |b| <= |mem|
      modifies this
      ensures Valid() && mem == Put(old(mem), off, b)
      ensures seen == old(seen) + Visible(isMP, old(mem), at, off, b)
    {
      seen := seen + Visible(isMP, mem, at, off, b);
      mem := Put(mem, off, b);
    }

    /** The three stores of NativeCall::replace_mt_safe, NativeGeneralJump::replace_mt_safe and
        NativeJump::patch_verified_entry. */
    method Replace(p: nat, buffer: seq<nat>)
      requires Valid() && |buffer| == 5 && p + 5 <= |mem|
      modifies this
      ensures Valid() && mem == Put(old(mem), p, buffer)
      ensures seen == old(seen) + Stages(isMP, old(mem), at, p, buffer)
    {
      Store(p, [0xEB, 0xFE, 0xEB, 0xFE]);
      Store(p + 4, [buffer[4]]);
      Store(p, buffer[..4]);
      assert mem == Put(old(mem), p, buffer);
    }
  }

  // ----- Destinations

  /** NativeCall::destination, and NativeJump::jump_destination before its special case. */
  function Destination(m: Mem, at: nat, p: nat): (x: int)
    requires p + 5 <= |m|
  {
    at + p + 5 + Long(m, p + 1)
  }

  /** NativeJump::jump_destination: -1 for a jump to itself. */
  function JumpDestination(m: Mem, at: nat, p: nat): (x: int)
    requires p + 5 <= |m|
  {
    if Destination(m, at, p) == at + p then -1 else Destination(m, at, p)
  }

  /** NativeGeneralJump::jump_destination. */
  function GeneralDestination(m: Mem, at: nat, p: nat): (x: int)
    requires p + 6 <= |m|
  {
    var op := m[p];
    var offset := if op == 0x0F then 2 else 1;
    if op == 0xE9 || op == 0x0F then at + p + offset + 4 + Long(m, p + offset)
    else at + p + 2 + (m[p + 1] as int) - (if m[p + 1] < 0x80 then 0 else 0x100)
  }

  /** The five bytes of a call (E8) or a jump (E9) from here to x. */
  function Insn(op: nat, at: nat, p: nat, x: int): (b: seq<nat>)
    requires IsJint(x - (at + p + 5))
    ensures |b| == 5
  {
    [op] + Bytes(x - (at + p + 5))
  }

  /** What holds an encoded call or jump goes to its destination. */
  lemma InsnGoesTo(m: Mem, op: nat, at: nat, p: nat, x: int)
    requires IsJint(x - (at + p + 5)) && Holds(m, p, Insn(op, at, p, x))
    ensures m[p] == op && Destination(m, at, p) == x
  {
    var b := Insn(op, at, p, x);
    var d := Bytes(x - (at + p + 5));
    forall i | 0 <= i < 5 ensures m[p + i] == b[i] { assert m[p..p + 5][i] == m[p + i]; }
    assert m[p + 0] == op;
    assert m[p + 1] == d[0] && m[p + 2] == d[1] && m[p + 3] == d[2] && m[p + 4] == d[3];
  }

  /** NativeCall::replace_mt_safe: of the free-running threads, each sees the old instruction, then
      spins, then sees the new one. */
  method ReplaceMtSafe(c: Code, p: nat, buffer: seq<nat>)
    requires c.Valid() && |buffer| == 5 && p + 5 <= |c.mem|
    requires c.isMP ==> (c.at + p) % 8 == 0
    modifies c
    ensures c.Valid() && c.mem == Put(old(c.mem), p, buffer)
    ensures |c.seen| == |old(c.seen)| + 3 && c.seen[..|old(c.seen)|] == old(c.seen)
    ensures var n := |old(c.seen)|;
            && Spins(c.seen[n], p) && Spins(c.seen[n + 1], p) && Holds(c.seen[n + 2], p, buffer)
            && forall i | n <= i < |c.seen| :: SameOutside(c.seen[i], old(c.mem), p)
  {
    c.Replace(p, buffer);
    StagesAreSafe(c.isMP, old(c.mem), c.at, p, buffer);
  }

  /** check_verified_entry_alignment; its second guarantee follows from the first. */
  predicate EntryAligned(address: nat) { address % 8 == 0 && address / 64 == (address + 4) / 64 }

  lemma EntryAlignment(address: nat)
    ensures EntryAligned(address) <==> address % 8 == 0
    ensures EntryAligned(address) ==> InLine(address, 5)
  {
    if address % 8 == 0 {
      var q := address / 8;
      assert address == 8 * q && address / 64 == q / 8 && (address + 4) / 64 == q / 8;
    }
  }

  /** NativeJump::patch_verified_entry: the same for a jump to dest over any code. */
  method PatchVerifiedEntry(c: Code, p: nat, dest: int)
    requires c.Valid() && p + 5 <= |c.mem|
    requires IsJint(dest - (c.at + p + 5)) && EntryAligned(c.at + p)
    modifies c
    ensures c.Valid() && SameOutside(c.mem, old(c.mem), p)
    ensures c.mem[p] == 0xE9 && Destination(c.mem, c.at, p) == dest
    ensures |c.seen| == |old(c.seen)| + 3 && c.seen[..|old(c.seen)|] == old(c.seen)
    ensures var n := |old(c.seen)|;
            && Spins(c.seen[n], p) && Spins(c.seen[n + 1], p) && c.seen[n + 2] == c.mem
            && forall i | n <= i < |c.seen| :: SameOutside(c.seen[i], old(c.mem), p)
  {
    var buffer := Insn(0xE9, c.at, p, dest);
    c.Replace(p, buffer);
    StagesAreSafe(c.isMP, old(c.mem), c.at, p, buffer);
    InsnGoesTo(c.mem, 0xE9, c.at, p, dest);
  }

  /** One of displacement and prefix of every call lies in one line of this size, just if a line has at
      least four bytes: then the last branch of set_destination_mt_safe is never reached. */
  lemma NeverShouldNotReachHere(line: nat)
    requires line > 0
    ensures line >= 4 <==>
            forall address: nat :: (address + 1) / line == (address + 4) / line || address / line == (address + 1) / line
  {
    if line >= 4 {
      forall address: nat
        ensures (address + 1) / line == (address + 4) / line || address / line == (address + 1) / line
      {
        LastOfLine(address, line);
      }
    } else {
      var address := line - 1;
      assert (address + 1) / line == 1 && address / line == 0;
      assert line == 1 || line == 2 || line == 3;
      assert (address + 1) / line != (address + 4) / line;
    }
  }

  lemma LastOfLine(address: nat, line: nat)
    requires line >= 4
    ensures (address + 1) / line == (address + 4) / line || address / line == (address + 1) / line
  {
    var q, r := address / line, address % line;
    assert address == q * line + r;
    if r + 1 < line {
      QuotientIs(address + 1, line, q, r + 1);
    } else {
      assert (q + 1) * line == q * line + line;
      QuotientIs(address + 1, line, q + 1, 0);
      QuotientIs(address + 4, line, q + 1, 3);
    }
  }

  lemma QuotientIs(x: nat, line: nat, q: nat, r: nat)
    requires 0 <= r < line && x == q * line + r
    ensures x / line == q
  {
    var k := x / line;
    MultiplesAreFar(q - k, line);
    assert (q - k) * line == x % line - r;
  }

  lemma MultiplesAreFar(d: int, line: nat)
    ensures d >= 1 ==> d * line >= line
    ensures d <= -1 ==> d * line + line <= 0
  {
  }

  /** NativeCall::set_destination_mt_safe: a free-running thread calls the old destination, then perhaps
      spins, then calls the new one. */
  method SetDestinationMtSafe(c: Code, p: nat, dest: int)
    requires c.Valid() && p + 5 <= |c.mem| && c.mem[p] == 0xE8
    requires IsJint(dest - (c.at + p + 5))
    requires c.isMP ==> InLine(c.at + p + 1, 4)
    modifies c
    ensures c.Valid() && SameOutside(c.mem, old(c.mem), p)
    ensures c.mem[p] == 0xE8 && Destination(c.mem, c.at, p) == dest
    ensures |old(c.seen)| < |c.seen| && c.seen[..|old(c.seen)|] == old(c.seen)
    ensures forall i | |old(c.seen)| <= i < |c.seen| - 1 :: Spins(c.seen[i], p)
    ensures forall i | |old(c.seen)| <= i < |c.seen| :: SameOutside(c.seen[i], old(c.mem), p)
    ensures c.isMP ==> |c.seen| == |old(c.seen)| + 1
  {
    var d := Bytes(dest - (c.at + p + 5));
    ghost var insn := Insn(0xE8, c.at, p, dest);
    if InLine(c.at + p + 1, 4) {
      c.Store(p + 1, d);
      FieldStored(old(c.mem), c.mem, p, d);
    } else if InLine(c.at + p, 2) {
      SpinAndPatch(c, p, [c.mem[p]] + d);
    } else {
      assert false;                        // ShouldNotReachHere
    }
    assert Holds(c.mem, p, insn);
    InsnGoesTo(c.mem, 0xE8, c.at, p, dest);
  }

  /** Opcode and displacement after the displacement is stored. */
  lemma FieldStored(was: Mem, m: Mem, p: nat, d: seq<nat>)
    requires p + 5 <= |was| && |d| == 4 && m == Put(was, p + 1, d)
    ensures Holds(m, p, [was[p]] + d) && SameOutside(m, was, p) && m[p] == was[p]
  {
    forall i | 0 <= i < 4 ensures m[p + 1 + i] == d[i] { assert m[p + 1..p + 1 + |d|][i] == m[p + 1 + i]; }
    assert m[p..p + 5] == [was[p]] + d;
  }

  /** The tricky case: the first two bytes spin while the other three are written. */
  method SpinAndPatch(c: Code, p: nat, patch: seq<nat>)
    requires c.Valid() && p + 5 <= |c.mem| && |patch| == 5 && InLine(c.at + p, 2)
    modifies c
    ensures c.Valid() && SameOutside(c.mem, old(c.mem), p) && Holds(c.mem, p, patch)
    ensures |old(c.seen)| < |c.seen| && c.seen[..|old(c.seen)|] == old(c.seen)
    ensures forall i | |old(c.seen)| <= i < |c.seen| - 1 :: Spins(c.seen[i], p)
    ensures forall i | |old(c.seen)| <= i < |c.seen| :: SameOutside(c.seen[i], old(c.mem), p)
  {
    c.Store(p, [0xEB, 0xFE]);
    ghost var n := |c.seen|;
    assert c.mem[p..p + 2][0] == c.mem[p] && c.mem[p..p + 2][1] == c.mem[p + 1];
    var i := 2;
    while i < 5
      invariant 2 <= i <= 5 && c.Valid() && |c.seen| >= n && c.seen[..n - 1] == old(c.seen)
      invariant Spins(c.mem, p) && SameOutside(c.mem, old(c.mem), p)
      invariant forall k | 2 <= k < i :: c.mem[p + k] == patch[k]
      invariant forall k | n - 1 <= k < |c.seen| :: Spins(c.seen[k], p) && SameOutside(c.seen[k], old(c.mem), p)
    {
      StoreOne(c, p + i, patch[i]);
      i := i + 1;
    }
    c.Store(p, patch[..2]);
    assert c.mem[p..p + 2] == patch[..2];
    assert c.mem[p] == c.mem[p..p + 2][0] && c.mem[p + 1] == c.mem[p..p + 2][1];
    assert c.mem[p..p + 5] == patch;
  }

  /** A store of one byte is never torn. */
  method StoreOne(c: Code, off: nat, b: nat)
    requires c.Valid() && off < |c.mem|
    modifies c
    ensures c.Valid() && c.mem == old(c.mem)[off := b] && c.seen == old(c.seen) + [c.mem]
  {
    c.Store(off, [b]);
    assert c.mem[off] == c.mem[off..off + 1][0];
    assert c.mem == old(c.mem)[off := b];
  }

  // ----- Relocation of calls and jumps

  /** set_int_at, outside of any race. */
  function WithLong(m: Mem, p: nat, x: int): (r: Mem)
    requires p + 4 <= |m| && IsJint(x)
    ensures |r| == |m| && Long(r, p) == x && forall i | 0 <= i < |m| && !(p <= i < p + 4) :: r[i] == m[i]
  {
    var b := Bytes(x);
    var r := Put(m, p, b);
    assert r[p..p + 4] == b;
    assert r[p] == r[p..p + 4][0] && r[p + 1] == r[p..p + 4][1] && r[p + 2] == r[p..p + 4][2] && r[p + 3] == r[p..p + 4][3];
    r
  }

  /** What set_jump_destination stores: -1 stands for a jump to itself. */
  function JumpOffset(at: nat, p: nat, x: int): (d: int) { if x == -1 then -5 else x - (at + p + 5) }

  /** A jump has the destination that was set, unless that was the jump itself, which reads as -1. */
  lemma JumpRoundTrip(m: Mem, at: nat, p: nat, x: int)
    requires p + 5 <= |m| && IsJint(JumpOffset(at, p, x))
    ensures JumpDestination(WithLong(m, p + 1, JumpOffset(at, p, x)), at, p) == x <==> x != at + p
  {
  }

  /** Relocation::pd_call_destination. */
  function CallDestination(m: Mem, at: nat, p: nat): (x: int)
    requires p + 6 <= |m|
  {
    if m[p] == 0xE8 then Destination(m, at, p)
    else if m[p] == 0xE9 then JumpDestination(m, at, p)
    else GeneralDestination(m, at, p)
  }

  /** A call, a long jump or a long conditional jump, the instructions with a call32 operand. */
  predicate IsCallSite(m: Mem, p: nat) {
    p + 6 <= |m| && (m[p] == 0xE8 || m[p] == 0xE9 || (m[p] == 0x0F && 0x80 <= m[p + 1] < 0x90))
  }

  /** Relocation::pd_set_call_destination: afterwards the destination is x, unless the instruction was a
      jump to itself, which it stays, or becomes one. */
  method SetCallDestination(c: Code, p: nat, x: int)
    requires IsCallSite(c.mem, p)
    requires IsJint(x - (c.at + p + 5)) && IsJint(x - (c.at + p + 6))
    modifies c`mem
    ensures |c.mem| == |old(c.mem)| && c.mem[p] == old(c.mem)[p]
    ensures CallDestination(c.mem, c.at, p) ==
            if old(c.mem)[p] == 0xE9 && (CallDestination(old(c.mem), c.at, p) == -1 || x == c.at + p) then -1 else x
    ensures forall i | 0 <= i < |c.mem| && !(p < i < p + 6) :: c.mem[i] == old(c.mem)[i]
  {
    if c.mem[p] == 0xE8 {
      c.mem := WithLong(c.mem, p + 1, x - (c.at + p + 5));
    } else if c.mem[p] == 0xE9 {
      var y := if JumpDestination(c.mem, c.at, p) == -1 then -1 else x;
      c.mem := WithLong(c.mem, p + 1, JumpOffset(c.at, p, y));
    } else {
      var oldDest := GeneralDestination(c.mem, c.at, p);
      c.mem := WithLong(c.mem, p + 2, Long(c.mem, p + 2) + (x - oldDest));
    }
  }

  /** What the three stores let other threads see. */
  function Stages(mp: bool, m: Mem, at: nat, p: nat, buffer: seq<nat>): (s: seq<Mem>)
    requires |buffer| == 5 && p + 5 <= |m|
  {
    var spin := [0xEB, 0xFE, 0xEB, 0xFE];
    var m1 := Put(m, p, spin);
    var m2 := Put(m1, p + 4, [buffer[4]]);
    Visible(mp, m, at, p, spin) + Visible(mp, m1, at, p + 4, [buffer[4]]) + Visible(mp, m2, at, p, buffer[..4])
  }

  /** When a store of the first four bytes is one change, a thread sees the old instruction, then spins, then
      sees the new instruction. */
  lemma StagesAreSafe(mp: bool, m: Mem, at: nat, p: nat, buffer: seq<nat>)
    requires |buffer| == 5 && p + 5 <= |m| && Atomic(mp, at + p, 4)
    ensures var s := Stages(mp, m, at, p, buffer);
            && |s| == 3 && Spins(s[0], p) && Spins(s[1], p) && Holds(s[2], p, buffer)
            && forall i | 0 <= i < 3 :: SameOutside(s[i], m, p)
  {
    var spin := [0xEB, 0xFE, 0xEB, 0xFE];
    var m1 := Put(m, p, spin);
    var m2 := Put(m1, p + 4, [buffer[4]]);
    var m3 := Put(m2, p, buffer[..4]);
    assert m1[p..p + 4][0] == m1[p] && m1[p..p + 4][1] == m1[p + 1];
    assert Stages(mp, m, at, p, buffer) == [m1, m2, m3];
    assert m3[p..p + 5] == m3[p..p + 4] + [m3[p + 4]];
    assert m2[p + 4..p + 5][0] == m2[p + 4];
  }

  /** Over whatever instruction and with whatever buffer: a free-running thread is safe just if there is
      only one processor or the first four bytes lie in one line. NativeGeneralJump::replace_mt_safe does not check this. */
  lemma ReplaceIsSafeIffInLine(mp: bool, at: nat, p: nat)
    ensures Atomic(mp, at + p, 4) <==>
            forall m: Mem, buffer: seq<nat> | |buffer| == 5 && p + 5 <= |m| ::
              forall i | 0 <= i < |Stages(mp, m, at, p, buffer)| :: SafeView(Stages(mp, m, at, p, buffer)[i], p, m, buffer)
  {
    if Atomic(mp, at + p, 4) {
      forall m: Mem, buffer: seq<nat> | |buffer| == 5 && p + 5 <= |m|
        ensures forall i | 0 <= i < |Stages(mp, m, at, p, buffer)| :: SafeView(Stages(mp, m, at, p, buffer)[i], p, m, buffer)
      {
        StagesAreSafe(mp, m, at, p, buffer);
      }
    } else {
      var m := seq(p + 5, _ => 0xE9);
      TornView(mp, at, p, m);
    }
  }

  /** Across the end of a line, a thread may fetch a mixture. */
  lemma TornView(mp: bool, at: nat, p: nat, m: Mem)
    requires !Atomic(mp, at + p, 4) && p + 5 <= |m| && forall i | p <= i < p + 5 :: m[i] == 0xE9
    ensures exists i :: 0 <= i < |Stages(mp, m, at, p, [0xE9, 0, 0, 0, 0])| &&
                        !SafeView(Stages(mp, m, at, p, [0xE9, 0, 0, 0, 0])[i], p, m, [0xE9, 0, 0, 0, 0])
  {
    var s := Stages(mp, m, at, p, [0xE9, 0, 0, 0, 0]);
    var k := 8 - (at + p) % 8;
    TornIsUnsafe(p, m, k);
    assert s[1] == Visible(mp, m, at, p, [0xEB, 0xFE, 0xEB, 0xFE])[1];
  }

  /** The bytes behind the boundary are there, those before it are not. */
  lemma TornIsUnsafe(p: nat, m: Mem, k: nat)
    requires 0 < k < 4 && p + 5 <= |m| && forall i | p <= i < p + 5 :: m[i] == 0xE9
    ensures !SafeView(Put(m, p + k, [0xEB, 0xFE, 0xEB, 0xFE][k..]), p, m, [0xE9, 0, 0, 0, 0])
  {
    var tail := [0xEB, 0xFE, 0xEB, 0xFE][k..];
    var torn := Put(m, p + k, tail);
    assert torn[p] == 0xE9 && torn[p + 4] == 0xE9;
    assert torn[p + 3] == torn[p + k..p + k + |tail|][3 - k] == 0xFE;
    var view, old5 := torn[p..p + 5], m[p..p + 5];
    assert view[3] == 0xFE && old5[3] == 0xE9 && view[4] == 0xE9;
  }
}
