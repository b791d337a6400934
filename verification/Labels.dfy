/** Branches to labels (assembler_amd64.hpp, Displacement; assembler_amd64.cpp, Displacement::bind
    and call, jmp, jcc on labels; share/vm/asm/assembler.hpp and .cpp, Label, bind_to, bind).

    The 32-bit field of a branch to an unbound label holds a Displacement, which links it to the
    previous branch to the same label; binding the label walks that chain through the code. */
module Labels {
  import opened CodeBytes

  /** Code stays below 2 GB, so that every distance is a jint. */
  const MAX_CODE: nat := 0x8000_0000
  /** 1 << Displacement::next_size. */
  const MAX_NEXT: nat := 0x40_0000

  datatype Kind = Call | Jmp | Jcc(cc: nat)

  /** A branch that was emitted: the position of its 32-bit field, its kind and its label. */
  datatype Branch = ToLabel(fix: nat, kind: Kind, dest: nat)

  function OpLen(k: Kind): (n: nat) { if k.Jcc? then 2 else 1 }

  function Opcode(k: Kind): (bytes: seq<nat>)
    ensures |bytes| == OpLen(k)
  {
    match k
    case Call => [0xE8]
    case Jmp => [0xE9]
    case Jcc(cc) => [0x0F, 0x80 + cc]
  }

  // ----- Displacement

  function TypeField(k: Kind): (t: nat) { match k case Call => 0 case Jmp => 1 case Jcc(_) => 2 }

  function InfoField(k: Kind): (i: nat) { if k.Jcc? then k.cc else 0 }

  /** (next << next_pos) | (type << type_pos) | (info << info_pos), whose fields do not overlap; a
      jint, so a large next makes it negative. */
  function Data(next: nat, k: Kind): (d: int) {
    Jint(next * 0x400 + TypeField(k) * 0x100 + InfoField(k))
  }

  /** (_data >> next_pos) & next_mask, with an arithmetic shift. */
  function NextField(d: int): (n: nat) { d / 0x400 % 0x40_0000 }

  /** type() and info(). */
  function KindField(d: int): (k: Kind) {
    var t := d / 0x100 % 4;
    if t == 0 then Call else if t == 1 then Jmp else Jcc(d % 0x100)
  }

  /** The fields of a Displacement come back from its 32-bit word if the position fits the field. */
  lemma DisplacementRoundTrip(next: nat, k: Kind)
    requires next < MAX_NEXT && InfoField(k) < 0x100
    ensures IsJint(Data(next, k))
    ensures NextField(Data(next, k)) == next && KindField(Data(next, k)) == k
  {
    var t, i := TypeField(k), InfoField(k);
    var high := if Data(next, k) >= 0 then next as int else next - 0x40_0000;
    FieldsOf(Data(next, k), high, t, i);
    assert high % 0x40_0000 == next;
  }

  lemma FieldsOf(d: int, high: int, t: nat, i: nat)
    requires d == high * 0x400 + t * 0x100 + i && t < 4 && i < 0x100
    ensures d / 0x400 == high && d / 0x100 % 4 == t && d % 0x100 == i
  {
    assert d / 0x100 == high * 4 + t;
  }

  // ----- The code and its labels

  /** The raw _pos of a label that is on a chain, and of a bound one; 0 is that of an unused one. */
  predicate Unbound(raw: int) { raw > 0 }
  predicate Bound(raw: int) { raw < 0 }

  /** Label::pos(): the target of a bound label, the last displacement of an unbound one. */
  function Pos(raw: int): (p: int) {
    if raw < 0 then -raw - 1 else raw - 1
  }

  /** bind_to(pos): the raw value of a label bound to pos. */
  function BoundAt(pos: nat): (raw: int)
    ensures Bound(raw) && Pos(raw) == pos
  {
    -(pos as int) - 1
  }

  /** The last of the first n branches that go to label l, or -1. */
  function LastTo(bs: seq<Branch>, n: nat, l: nat): (i: int)
    requires n <= |bs|
    ensures -1 <= i < n
    ensures i >= 0 ==> bs[i].dest == l
    ensures forall j | i < j < n :: bs[j].dest != l
  {
    if n == 0 then -1 else if bs[n - 1].dest == l then n - 1 else LastTo(bs, n - 1, l)
  }

  /** The position that branch i links to: the previous branch to its label, or 0. */
  function Link(bs: seq<Branch>, i: nat): (p: nat)
    requires i < |bs|
  {
    var j := LastTo(bs, i, bs[i].dest);
    if j < 0 then 0 else bs[j].fix
  }

  function Start(b: Branch): (p: int) { b.fix - OpLen(b.kind) }

  /** The branch's opcode stands in front of its field, as Displacement::bind asserts. */
  predicate HasOpcode(code: seq<nat>, b: Branch) {
    b.fix + 4 <= |code| && OpcodeAt(code, b.fix, b.kind)
  }

  predicate OpcodeAt(code: seq<nat>, fix: nat, kind: Kind)
    requires fix <= |code|
  {
    && OpLen(kind) <= fix
    && match kind
       case Call => code[fix - 1] == 0xE8
       case Jmp => code[fix - 1] == 0xE9
       case Jcc(cc) => code[fix - 2] == 0x0F && code[fix - 1] == 0x80 + cc && cc < 16
  }

  /** Branches lie one after the other in the code. */
  predicate Ordered(bs: seq<Branch>) {
    forall i, j | 0 <= i < j < |bs| :: bs[i].fix + 4 <= Start(bs[j])
  }

  /** The field of branch i: the displacement that links it to the previous branch to the same
      label, or the distance from the end of the instruction to where the label is bound. */
  function Field(bs: seq<Branch>, i: nat, raw: int): (x: int)
    requires i < |bs|
  {
    if Bound(raw) then Pos(raw) - (bs[i].fix + 4) else Data(Link(bs, i), bs[i].kind)
  }

  /** The raw value of a label with n branches that are still to be bound. */
  function Head(bs: seq<Branch>, n: nat, l: nat): (raw: int)
    requires n <= |bs|
  {
    var last := LastTo(bs, n, l);
    if last < 0 then 0 else bs[last].fix + 1
  }

  predicate BranchOk(code: seq<nat>, labels: seq<int>, bs: seq<Branch>, i: nat)
    requires i < |bs|
  {
    && HasOpcode(code, bs[i]) && bs[i].dest < |labels|
    && (!Bound(labels[bs[i].dest]) ==> Link(bs, i) < MAX_NEXT)
    && Long(code, bs[i].fix) == Field(bs, i, labels[bs[i].dest])
  }

  predicate LabelOk(size: nat, raw: int, bs: seq<Branch>, l: nat) {
    if Bound(raw) then Pos(raw) <= size else raw == Head(bs, |bs|, l)
  }

  predicate StateOk(code: seq<nat>, labels: seq<int>, bs: seq<Branch>) {
    && |code| < MAX_CODE
    && Ordered(bs)
    && (forall i | 0 <= i < |bs| :: BranchOk(code, labels, bs, i))
    && (forall l | 0 <= l < |labels| :: LabelOk(|code|, labels[l], bs, l))
  }

  /** Decoding a near branch instruction: where it goes, if there is one at p. */
  function Decode(code: seq<nat>, p: nat): (target: int) {
    if p + 5 <= |code| && (code[p] == 0xE8 || code[p] == 0xE9) then
      p + 5 + Long(code, p + 1)
    else if p + 6 <= |code| && code[p] == 0x0F && 0x80 <= code[p + 1] < 0x90 then
      p + 6 + Long(code, p + 2)
    else -1
  }

  /** A branch to a bound label decodes to the label's position. */
  lemma BoundBranchDecodes(code: seq<nat>, labels: seq<int>, bs: seq<Branch>, i: nat)
    requires StateOk(code, labels, bs) && i < |bs| && bs[i].dest < |labels| && Bound(labels[bs[i].dest])
    ensures Start(bs[i]) >= 0 && Decode(code, Start(bs[i])) == Pos(labels[bs[i].dest])
  {
    var b := bs[i];
    assert BranchOk(code, labels, bs, i) && LabelOk(|code|, labels[b.dest], bs, b.dest);
  }

  /** A chain of displacements runs through strictly decreasing positions, so it ends; and every
      position on it belongs to a branch to the same label, so two labels never share one. */
  lemma ChainsDescend(code: seq<nat>, labels: seq<int>, bs: seq<Branch>, i: nat)
    requires StateOk(code, labels, bs) && i < |bs| && bs[i].dest < |labels| && !Bound(labels[bs[i].dest])
    ensures HasOpcode(code, bs[i])
    ensures KindField(Long(code, bs[i].fix)) == bs[i].kind
    ensures var n := NextField(Long(code, bs[i].fix));
            && n < bs[i].fix
            && (n > 0 ==> exists j :: 0 <= j < i && bs[j].fix == n && bs[j].dest == bs[i].dest)
  {
    assert BranchOk(code, labels, bs, i);
    DisplacementRoundTrip(Link(bs, i), bs[i].kind);
    var j := LastTo(bs, i, bs[i].dest);
    if j >= 0 { assert bs[j].fix + 4 <= Start(bs[i]); }
  }

  // ----- Emission

  predicate IsByte(x: int) { 0 <= x < 0x100 }

  class Assembler {
    var code: seq<nat>
    var labels: seq<int>                    // the raw _pos of every label
    ghost var branches: seq<Branch>

    ghost predicate Valid()
      reads this
    {
      StateOk(code, labels, branches)
    }

    constructor ()
      ensures Valid() && code == [] && labels == [] && branches == []
    {
      code, labels, branches := [], [], [];
    }

    /** A new, unused label. */
    method NewLabel() returns (l: nat)
      requires Valid()
      modifies this`labels
      ensures Valid() && l == |old(labels)| && labels == old(labels) + [0]
    {
      l := |labels|;
      labels := labels + [0];
      NoBranchesYet(code, old(labels), branches);
      forall i | 0 <= i < |branches| ensures BranchOk(code, labels, branches, i) {
        assert BranchOk(code, old(labels), branches, i);
      }
      forall k | 0 <= k < |labels| ensures LabelOk(|code|, labels[k], branches, k) {
        if k < l { assert LabelOk(|code|, old(labels)[k], branches, k); }
      }
    }

    /** Any other instruction: bytes that the label machinery never looks at. */
    method Emit(bytes: seq<nat>)
      requires Valid() && |code| + |bytes| < MAX_CODE
      modifies this`code
      ensures Valid() && code == old(code) + bytes
    {
      code := code + bytes;
      AppendKeeps(old(code), bytes, labels, branches);
    }

    /** emit_long. */
    method EmitLong(x: int)
      requires IsJint(x)
      modifies this`code
      ensures |code| == |old(code)| + 4 && forall p | 0 <= p < |old(code)| :: code[p] == old(code)[p]
      ensures Long(code, |old(code)|) == x
      ensures forall i | |old(code)| <= i < |code| :: code[i] < 0x100
    {
      var b := Bytes(x);
      code := code + b;
    }

    /** long_at_put. */
    method LongAtPut(p: nat, x: int)
      requires p + 4 <= |code| && IsJint(x)
      modifies this`code
      ensures LongPut(old(code), code, p, x)
    {
      var b := Bytes(x);
      code := code[p := b[0]][p + 1 := b[1]][p + 2 := b[2]][p + 3 := b[3]];
    }

    /** A branch to a bound label is complete at once. */
    method EmitBackward(kind: Kind, l: nat)
      requires Valid() && l < |labels| && (kind.Jcc? ==> kind.cc < 16) && |code| + 6 < MAX_CODE
      requires Bound(labels[l])
      modifies this`code
      ensures NewBranch(old(code), labels, ToLabel(|old(code)| + OpLen(kind), kind, l), code)
      ensures forall p | |old(code)| <= p < |code| :: code[p] < 0x100
    {
      var offs := Pos(labels[l]) - |code|;
      assert LabelOk(|code|, labels[l], branches, l);
      if !kind.Call? && IsByte(offs - 2) {
        assert false;                      // a bound label is never ahead, and isByte wants 0..255
      } else {
        code := code + Opcode(kind);
        EmitLong(offs - (OpLen(kind) + 4));
        BranchIsNew(old(code), labels, ToLabel(|old(code)| + OpLen(kind), kind, l), code);
      }
    }

    /** A branch to a label that is not bound yet holds a displacement. */
    method EmitForward(kind: Kind, l: nat)
      requires Valid() && l < |labels| && (kind.Jcc? ==> kind.cc < 16) && |code| + 6 < MAX_CODE
      requires !Bound(labels[l]) && (Unbound(labels[l]) ==> Pos(labels[l]) < MAX_NEXT)
      modifies this`code, this`labels
      ensures NewBranch(old(code), old(labels), ToLabel(|old(code)| + OpLen(kind), kind, l), code)
      ensures labels == Linked(old(labels), l, |old(code)| + OpLen(kind))
      ensures forall p | |old(code)| <= p < |code| :: code[p] < 0x100
    {
      var next: nat := if Unbound(labels[l]) then Pos(labels[l]) else 0;
      code := code + Opcode(kind);
      var d := Data(next, kind);
      DataIsJint(next, kind);
      labels := labels[l := |code| + 1];   // link_to(offset())
      EmitLong(d);
      BranchIsNew(old(code), old(labels), ToLabel(|old(code)| + OpLen(kind), kind, l), code);
    }

    /** call, jmp or jcc to a label. */
    method EmitBranch(kind: Kind, l: nat)
      requires Valid() && l < |labels| && (kind.Jcc? ==> kind.cc < 16) && |code| + 6 < MAX_CODE
      requires Unbound(labels[l]) ==> Pos(labels[l]) < MAX_NEXT
      modifies this
      ensures Valid() && AppendedBranch(old(code), code, kind)
      ensures forall p | |old(code)| <= p < |code| :: code[p] < 0x100
      ensures branches == old(branches) + [ToLabel(|old(code)| + OpLen(kind), kind, l)]
      ensures labels == Linked(old(labels), l, |old(code)| + OpLen(kind))
    {
      if Bound(labels[l]) { EmitBackward(kind, l); } else { EmitForward(kind, l); }
      branches := branches + [ToLabel(|old(code)| + OpLen(kind), kind, l)];
      BranchKeeps(old(code), old(labels), old(branches), ToLabel(|old(code)| + OpLen(kind), kind, l), code);
    }

    /** Displacement::bind: the branch at the head of the chain of label l goes to pos. */
    method BindHeadOf(l: nat, pos: nat, ghost n: nat)
      requires l < |labels| && Unbound(labels[l]) && Binding(code, labels, branches, l, n, pos)
      modifies this`code, this`labels
      ensures 0 <= LastTo(branches, n, l) < n
      ensures |code| == |old(code)| && |labels| == |old(labels)|
      ensures Binding(code, labels, branches, l, LastTo(branches, n, l), pos)
      ensures forall k | 0 <= k < |labels| && k != l :: labels[k] == old(labels)[k]
      ensures branches[LastTo(branches, n, l)].fix + 4 <= |code|
      ensures LongPut(old(code), code, branches[LastTo(branches, n, l)].fix, pos - (branches[LastTo(branches, n, l)].fix + 4))
    {
      BindHead(code, labels, branches, l, n, pos);
      var at: nat := Pos(labels[l]);
      var d := Long(code, at);
      assert OpcodeAt(code, at, KindField(d));
      LongAtPut(at, pos - (at + 4));
      labels := labels[l := Next(d)];
      BindStep(old(code), code, old(labels), labels, branches, l, n, pos);
    }

    /** bind: every branch on the label's chain gets its final displacement. */
    method Bind(l: nat)
      requires Valid() && l < |labels|
      requires Bound(labels[l]) ==> Pos(labels[l]) == |code|
      modifies this`code, this`labels
      ensures Valid() && |code| == |old(code)|
      ensures labels == old(labels)[l := BoundAt(|code|)]
      ensures OffFields(old(code), code, branches, l)
    {
      if Bound(labels[l]) { return; }
      var pos := |code|;
      ghost var n: nat := |branches|;
      BindingStarts(code, labels, branches, l);
      while Unbound(labels[l])
        invariant |labels| == |old(labels)| && |code| == pos
        invariant forall k | 0 <= k < |labels| && k != l :: labels[k] == old(labels)[k]
        invariant Binding(code, labels, branches, l, n, pos)
        invariant OffFields(old(code), code, branches, l)
        decreases n
      {
        ghost var was := code;
        BindHeadOf(l, pos, n);
        n := LastTo(branches, n, l);
        OffFieldsStep(old(code), was, code, branches, n, l, pos - (branches[n].fix + 4));
      }
      ghost var raws := labels;
      labels := labels[l := BoundAt(pos)];
      BindingDone(code, raws, branches, l, n, pos);
    }
  }

  /** Displacement::next: link_to(n) or unuse(). */
  function Next(d: int): (raw: int) {
    if NextField(d) > 0 then NextField(d) + 1 else 0
  }

  /** Two versions of the code differ only in the fields of branches to label l. */
  predicate OffFields(was: seq<nat>, now: seq<nat>, bs: seq<Branch>, l: nat) {
    && |now| == |was|
    && (forall i | 0 <= i < |now| :: was[i] < 0x100 ==> now[i] < 0x100)
    && forall p | 0 <= p < |now| && (forall i | 0 <= i < |bs| && bs[i].dest == l :: !(bs[i].fix <= p < bs[i].fix + 4)) ::
         now[p] == was[p]
  }

  lemma OffFieldsStep(first: seq<nat>, was: seq<nat>, now: seq<nat>, bs: seq<Branch>, j: nat, l: nat, x: int)
    requires OffFields(first, was, bs, l) && j < |bs| && bs[j].dest == l && LongPut(was, now, bs[j].fix, x)
    ensures OffFields(first, now, bs, l)
  {
  }

  /** The raw value that branch i is to see while label l, of whose branches the first n are still
      on the chain, is being bound to pos. */
  function Seen(labels: seq<int>, bs: seq<Branch>, l: nat, n: nat, pos: nat, i: nat): (raw: int)
    requires i < |bs| && bs[i].dest < |labels|
  {
    if bs[i].dest == l && i >= n then BoundAt(pos) else labels[bs[i].dest]
  }

  predicate BindingOk(code: seq<nat>, labels: seq<int>, bs: seq<Branch>, l: nat, n: nat, pos: nat, i: nat)
    requires i < |bs|
  {
    && HasOpcode(code, bs[i]) && bs[i].dest < |labels|
    && (!Bound(Seen(labels, bs, l, n, pos, i)) ==> Link(bs, i) < MAX_NEXT)
    && Long(code, bs[i].fix) == Field(bs, i, Seen(labels, bs, l, n, pos, i))
  }

  predicate Binding(code: seq<nat>, labels: seq<int>, bs: seq<Branch>, l: nat, n: nat, pos: nat)
    requires l < |labels|
  {
    && pos <= |code| < MAX_CODE && n <= |bs|
    && Ordered(bs)
    && (forall i | 0 <= i < |bs| :: BindingOk(code, labels, bs, l, n, pos, i))
    && (forall k | 0 <= k < |labels| && k != l :: LabelOk(|code|, labels[k], bs, k))
    && labels[l] == Head(bs, n, l)
  }

  /** Writing the field of branch j leaves every opcode and every other field alone. */
  lemma PutKeeps(code: seq<nat>, now: seq<nat>, bs: seq<Branch>, j: nat, x: int, i: nat)
    requires Ordered(bs) && j < |bs| && i < |bs|
    requires HasOpcode(code, bs[i]) && HasOpcode(code, bs[j])
    requires LongPut(code, now, bs[j].fix, x)
    ensures HasOpcode(now, bs[i])
    ensures i != j ==> Long(now, bs[i].fix) == Long(code, bs[i].fix)
  {
    assert i < j ==> bs[i].fix + 4 <= Start(bs[j]);
    assert j < i ==> bs[j].fix + 4 <= Start(bs[i]);
  }

  /** The branch at the head of the chain of a label that is being bound. */
  lemma BindHead(code: seq<nat>, labels: seq<int>, bs: seq<Branch>, l: nat, n: nat, pos: nat)
    requires l < |labels| && Binding(code, labels, bs, l, n, pos) && Unbound(labels[l])
    ensures 0 <= LastTo(bs, n, l) < n && Pos(labels[l]) == bs[LastTo(bs, n, l)].fix
    ensures HasOpcode(code, bs[LastTo(bs, n, l)])
    ensures var d := Long(code, Pos(labels[l]));
            && KindField(d) == bs[LastTo(bs, n, l)].kind
            && Next(d) == Head(bs, LastTo(bs, n, l), l)
  {
    var j := LastTo(bs, n, l);
    assert BindingOk(code, labels, bs, l, n, pos, j);
    DisplacementRoundTrip(Link(bs, j), bs[j].kind);
    var m := LastTo(bs, j, l);
    if m >= 0 { assert BindingOk(code, labels, bs, l, n, pos, m); }
  }

  /** One round of bind moves one branch from the chain to the label's position. */
  lemma BindStep(code: seq<nat>, now: seq<nat>, labels: seq<int>, raws: seq<int>, bs: seq<Branch>, l: nat, n: nat, pos: nat)
    requires l < |labels| && Binding(code, labels, bs, l, n, pos) && Unbound(labels[l])
    requires Pos(labels[l]) + 4 <= |code|
    requires LongPut(code, now, Pos(labels[l]), pos - (Pos(labels[l]) + 4))
    requires raws == labels[l := Next(Long(code, Pos(labels[l])))]
    ensures LastTo(bs, n, l) >= 0 && Binding(now, raws, bs, l, LastTo(bs, n, l), pos)
  {
    BindHead(code, labels, bs, l, n, pos);
    var j: nat := LastTo(bs, n, l);
    forall i | 0 <= i < |bs| ensures BindingOk(now, raws, bs, l, j, pos, i) {
      BindStepOne(code, now, labels, raws, bs, l, n, pos, i);
    }
  }

  lemma SeenStep(labels: seq<int>, bs: seq<Branch>, l: nat, n: nat, pos: nat, i: nat)
    requires i < |bs| && bs[i].dest < |labels| && l < |labels| && n <= |bs|
    requires LastTo(bs, n, l) >= 0 && labels[l] == Head(bs, n, l)
    ensures var j := LastTo(bs, n, l);
            var raw := Seen(labels[l := Head(bs, j, l)], bs, l, j, pos, i);
            && (i == j ==> raw == BoundAt(pos))
            && (i != j && bs[i].dest == l && i < n ==> !Bound(raw) && !Bound(labels[l]))
            && (i != j && (bs[i].dest != l || i >= n) ==> raw == Seen(labels, bs, l, n, pos, i))
  {
  }

  lemma BindStepOne(code: seq<nat>, now: seq<nat>, labels: seq<int>, raws: seq<int>, bs: seq<Branch>, l: nat, n: nat, pos: nat, i: nat)
    requires l < |labels| && Binding(code, labels, bs, l, n, pos) && i < |bs|
    requires LastTo(bs, n, l) >= 0
    requires var j := LastTo(bs, n, l);
             && LongPut(code, now, bs[j].fix, pos - (bs[j].fix + 4))
             && raws == labels[l := Head(bs, j, l)]
    ensures BindingOk(now, raws, bs, l, LastTo(bs, n, l), pos, i)
  {
    var j := LastTo(bs, n, l);
    assert BindingOk(code, labels, bs, l, n, pos, i) && BindingOk(code, labels, bs, l, n, pos, j);
    PutKeeps(code, now, bs, j, pos - (bs[j].fix + 4), i);
    SeenStep(labels, bs, l, n, pos, i);
  }

  lemma BindingStarts(code: seq<nat>, labels: seq<int>, bs: seq<Branch>, l: nat)
    requires StateOk(code, labels, bs) && l < |labels| && !Bound(labels[l])
    ensures Binding(code, labels, bs, l, |bs|, |code|)
  {
    forall i | 0 <= i < |bs| ensures BindingOk(code, labels, bs, l, |bs|, |code|, i) {
      assert BranchOk(code, labels, bs, i);
    }
    assert LabelOk(|code|, labels[l], bs, l);
  }

  lemma BindingDone(code: seq<nat>, labels: seq<int>, bs: seq<Branch>, l: nat, n: nat, pos: nat)
    requires l < |labels| && Binding(code, labels, bs, l, n, pos) && labels[l] == 0
    ensures StateOk(code, labels[l := BoundAt(pos)], bs)
  {
    var now := labels[l := BoundAt(pos)];
    forall i | 0 <= i < |bs| ensures BranchOk(code, now, bs, i) {
      assert BindingOk(code, labels, bs, l, n, pos, i);
    }
  }

  /** A chain starts inside the code. */
  lemma ChainIsInCode(code: seq<nat>, labels: seq<int>, bs: seq<Branch>, l: nat)
    requires StateOk(code, labels, bs) && l < |labels| && Unbound(labels[l])
    ensures Pos(labels[l]) < |code|
  {
    assert LabelOk(|code|, labels[l], bs, l);
    assert BranchOk(code, labels, bs, LastTo(bs, |bs|, l));
  }

  lemma NoBranchesYet(code: seq<nat>, labels: seq<int>, bs: seq<Branch>)
    requires StateOk(code, labels, bs)
    ensures LastTo(bs, |bs|, |labels|) == -1
  {
    forall i | 0 <= i < |bs| ensures bs[i].dest != |labels| { assert BranchOk(code, labels, bs, i); }
  }

  /** Bytes appended to the code leave every branch as it was. */
  lemma AppendKeeps(code: seq<nat>, bytes: seq<nat>, labels: seq<int>, bs: seq<Branch>)
    requires StateOk(code, labels, bs) && |code| + |bytes| < MAX_CODE
    ensures StateOk(code + bytes, labels, bs)
  {
    forall i | 0 <= i < |bs| ensures BranchOk(code + bytes, labels, bs, i) {
      assert BranchOk(code, labels, bs, i);
    }
    forall l | 0 <= l < |labels| ensures LabelOk(|code + bytes|, labels[l], bs, l) {
      assert LabelOk(|code|, labels[l], bs, l);
    }
  }

  /** Adding a branch leaves LastTo of the others as it was. */
  lemma {:induction false} LastToPrefix(bs: seq<Branch>, b: Branch, n: nat, l: nat)
    requires n <= |bs|
    ensures LastTo(bs + [b], n, l) == LastTo(bs, n, l)
  {
    if n != 0 { LastToPrefix(bs, b, n - 1, l); }
  }

  /** The field that call, jmp and jcc emit for a label with this raw value. */
  function NewField(raw: int, fix: nat, kind: Kind): (x: int) {
    if Bound(raw) then Pos(raw) - (fix + 4) else Data(if Unbound(raw) then Pos(raw) else 0, kind)
  }

  /** The raw values after a branch to label l whose field is at fix. */
  function Linked(labels: seq<int>, l: nat, fix: nat): (raws: seq<int>)
    requires l < |labels|
  {
    if Bound(labels[l]) then labels else labels[l := fix + 1]
  }

  lemma LinkedLabelOk(size: nat, labels: seq<int>, bs: seq<Branch>, b: Branch, k: nat)
    requires k < |labels| && b.dest < |labels| && LabelOk(size, labels[k], bs, k) && size <= b.fix
    ensures LabelOk(b.fix + 4, Linked(labels, b.dest, b.fix)[k], bs + [b], k)
  {
    LastToPrefix(bs, b, |bs|, k);
  }

  lemma OlderBranchKeeps(was: seq<nat>, labels: seq<int>, bs: seq<Branch>, b: Branch, code: seq<nat>, i: nat)
    requires StateOk(was, labels, bs) && b.dest < |labels| && i < |bs|
    requires |was| <= Start(b) <= |code|
    requires forall p | 0 <= p < |was| :: code[p] == was[p]
    ensures BranchOk(code, Linked(labels, b.dest, b.fix), bs + [b], i) && bs[i].fix + 4 <= Start(b)
  {
    assert BranchOk(was, labels, bs, i);
    LastToPrefix(bs, b, i, bs[i].dest);
    assert Link(bs + [b], i) == Link(bs, i);
    assert Long(code, bs[i].fix) == Long(was, bs[i].fix);
  }

  lemma NewBranchOk(size: nat, labels: seq<int>, bs: seq<Branch>, b: Branch, code: seq<nat>)
    requires b.dest < |labels| && HasOpcode(code, b) && LabelOk(size, labels[b.dest], bs, b.dest)
    requires Unbound(labels[b.dest]) ==> Pos(labels[b.dest]) < MAX_NEXT
    requires Long(code, b.fix) == NewField(labels[b.dest], b.fix, b.kind)
    ensures BranchOk(code, Linked(labels, b.dest, b.fix), bs + [b], |bs|)
  {
    LastToPrefix(bs, b, |bs|, b.dest);
  }

  /** code is was and one more branch instruction of this kind. */
  predicate AppendedBranch(was: seq<nat>, code: seq<nat>, kind: Kind) {
    && |code| == |was| + OpLen(kind) + 4 < MAX_CODE
    && (forall p | 0 <= p < |was| :: code[p] == was[p])
    && OpcodeAt(code, |was| + OpLen(kind), kind)
  }

  lemma DataIsJint(next: nat, k: Kind)
    requires next < MAX_NEXT && InfoField(k) < 0x100
    ensures IsJint(Data(next, k))
  {
    DisplacementRoundTrip(next, k);
  }

  /** Opcode and field, emitted one after the other. */
  lemma BranchIsNew(was: seq<nat>, labels: seq<int>, b: Branch, code: seq<nat>)
    requires b.dest < |labels| && (b.kind.Jcc? ==> b.kind.cc < 16)
    requires b.fix == |was| + OpLen(b.kind) && |code| == b.fix + 4 < MAX_CODE
    requires forall p | 0 <= p < b.fix :: code[p] == (was + Opcode(b.kind))[p]
    requires Unbound(labels[b.dest]) ==> Pos(labels[b.dest]) < MAX_NEXT
    requires Long(code, b.fix) == NewField(labels[b.dest], b.fix, b.kind)
    ensures NewBranch(was, labels, b, code)
  {
    forall p | 0 <= p < |was| ensures code[p] == was[p] { assert (was + Opcode(b.kind))[p] == was[p]; }
    forall p | 0 <= p < OpLen(b.kind) ensures code[|was| + p] == Opcode(b.kind)[p] {
      assert (was + Opcode(b.kind))[|was| + p] == Opcode(b.kind)[p];
    }
    assert code[b.fix - 1] == Opcode(b.kind)[OpLen(b.kind) - 1];
    if b.kind.Jcc? { assert code[b.fix - 2] == Opcode(b.kind)[0]; }
  }

  predicate NewBranch(was: seq<nat>, labels: seq<int>, b: Branch, code: seq<nat>) {
    && b.dest < |labels|
    && b.fix == |was| + OpLen(b.kind) && |code| == b.fix + 4 < MAX_CODE
    && (forall p | 0 <= p < |was| :: code[p] == was[p])
    && HasOpcode(code, b)
    && (Unbound(labels[b.dest]) ==> Pos(labels[b.dest]) < MAX_NEXT)
    && Long(code, b.fix) == NewField(labels[b.dest], b.fix, b.kind)
  }

  lemma EveryBranchKeeps(was: seq<nat>, labels: seq<int>, bs: seq<Branch>, b: Branch, code: seq<nat>, i: nat)
    requires StateOk(was, labels, bs) && NewBranch(was, labels, b, code) && i <= |bs|
    ensures BranchOk(code, Linked(labels, b.dest, b.fix), bs + [b], i)
    ensures i < |bs| ==> bs[i].fix + 4 <= Start(b)
  {
    if i < |bs| {
      OlderBranchKeeps(was, labels, bs, b, code, i);
    } else {
      assert LabelOk(|was|, labels[b.dest], bs, b.dest);
      NewBranchOk(|was|, labels, bs, b, code);
    }
  }

  lemma BranchKeeps(was: seq<nat>, labels: seq<int>, bs: seq<Branch>, b: Branch, code: seq<nat>)
    requires StateOk(was, labels, bs) && NewBranch(was, labels, b, code)
    ensures StateOk(code, Linked(labels, b.dest, b.fix), bs + [b])
  {
    var all := bs + [b];
    var raws := Linked(labels, b.dest, b.fix);
    forall i | 0 <= i < |all| ensures BranchOk(code, raws, all, i) && (i < |bs| ==> all[i].fix + 4 <= Start(b)) {
      EveryBranchKeeps(was, labels, bs, b, code, i);
    }
    forall k | 0 <= k < |labels| ensures LabelOk(|code|, raws[k], all, k) {
      assert LabelOk(|was|, labels[k], bs, k);
      LinkedLabelOk(|was|, labels, bs, b, k);
    }
  }
}
