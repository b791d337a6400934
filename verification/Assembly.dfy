/** The label machinery against a two-pass assembler: whatever is emitted, once every label is bound
    the code that was patched in one pass is the code an assembler that knew all positions
    beforehand would have written. */
module Assembly {
  import opened CodeBytes
  import opened Labels

  /** What a code generator asks of the assembler. */
  datatype Op =
    | Declare                       // a new label
    | Raw(bytes: seq<nat>)          // any instruction without a label
    | Go(kind: Kind, l: nat)        // a branch to label l
    | Here(l: nat)                  // bind label l

  /** A program: the operations so far and one more. */
  datatype Ops = Nil | Then(front: Ops, op: Op)

  function Size(op: Op): (n: nat) {
    match op
    case Raw(bytes) => |bytes|
    case Go(kind, _) => OpLen(kind) + 4
    case _ => 0
  }

  function Offset(ops: Ops): (n: nat) {
    if ops.Nil? then 0 else Offset(ops.front) + Size(ops.op)
  }

  function Declared(ops: Ops): (n: nat) {
    if ops.Nil? then 0 else Declared(ops.front) + if ops.op.Declare? then 1 else 0
  }

  /** First pass: the position of label l, or -1 if it is not bound. */
  function Place(ops: Ops, l: nat): (p: int)
    ensures -1 <= p <= Offset(ops)
  {
    if ops.Nil? then -1
    else if ops.op == Here(l) then Offset(ops.front)
    else Place(ops.front, l)
  }

  /** Second pass: the code, given the positions that all of the program binds its labels to. */
  function TwoPass(ops: Ops, all: Ops): (code: seq<nat>)
    requires Offset(ops) < MAX_CODE && Offset(all) < MAX_CODE
    ensures |code| == Offset(ops)
  {
    if ops.Nil? then [] else TwoPass(ops.front, all) + Piece(ops.op, Offset(ops.front), all)
  }

  function Piece(op: Op, at: nat, all: Ops): (bytes: seq<nat>)
    requires at + Size(op) < MAX_CODE && Offset(all) < MAX_CODE
    ensures |bytes| == Size(op)
  {
    match op
    case Raw(bytes) => bytes
    case Go(kind, l) => Opcode(kind) + Bytes(Place(all, l) - (at + Size(op)))
    case _ => []
  }

  /** What the assembler asserts of its callers: labels are declared before use, bound once, condition
      codes are four bits and bytes are bytes. */
  predicate WellFormed(ops: Ops) {
    ops.Nil? ||
    (WellFormed(ops.front) &&
     match ops.op
     case Declare => true
     case Raw(bytes) => forall i | 0 <= i < |bytes| :: bytes[i] < 0x100
     case Go(kind, l) => l < Declared(ops.front) && (kind.Jcc? ==> kind.cc < 16)
     case Here(l) => l < Declared(ops.front) && Place(ops.front, l) == -1)
  }

  function Branches(ops: Ops): (bs: seq<Branch>) {
    if ops.Nil? then [] else Branches(ops.front) + BranchOf(ops.op, Offset(ops.front))
  }

  function BranchOf(op: Op, at: nat): (bs: seq<Branch>) {
    match op
    case Go(kind, l) => [ToLabel(at + OpLen(kind), kind, l)]
    case _ => []
  }

  predicate InField(bs: seq<Branch>, p: nat) {
    exists i :: 0 <= i < |bs| && bs[i].fix <= p < bs[i].fix + 4
  }

  /** Outside the fields of branches the code is what the second pass writes. */
  predicate SameText(code: seq<nat>, ops: Ops, all: Ops)
    requires Offset(all) < MAX_CODE
  {
    && |code| == Offset(ops) < MAX_CODE
    && forall p | 0 <= p < |code| && !InField(Branches(ops), p) :: code[p] == TwoPass(ops, all)[p]
  }

  /** The labels of the one-pass assembler are where the first pass puts them. */
  predicate SamePlaces(labels: seq<int>, ops: Ops) {
    && |labels| == Declared(ops)
    && forall l | 0 <= l < |labels| ::
         if Place(ops, l) >= 0 then labels[l] == BoundAt(Place(ops, l)) else !Bound(labels[l])
  }

  /** What the buffer holds after the operations ops of the program all. */
  predicate Emitted(code: seq<nat>, labels: seq<int>, branches: seq<Branch>, ops: Ops, all: Ops)
    requires Offset(all) < MAX_CODE
  {
    IsBytes(code) && branches == Branches(ops) && SamePlaces(labels, ops) && SameText(code, ops, all)
  }

  lemma {:induction false} UndeclaredIsUnplaced(ops: Ops, l: nat)
    requires WellFormed(ops) && l >= Declared(ops)
    ensures Place(ops, l) == -1
  {
    if ops.Then? { UndeclaredIsUnplaced(ops.front, l); }
  }

  /** Any client of the assembler: what it leaves in the buffer once every label is bound is the
      two-pass code. */
  method Assemble(ops: Ops) returns (a: Assembler)
    requires WellFormed(ops) && Offset(ops) < MAX_NEXT
    ensures fresh(a) && a.Valid() && Emitted(a.code, a.labels, a.branches, ops, ops)
    ensures (forall l | 0 <= l < Declared(ops) :: Place(ops, l) >= 0) ==> a.code == TwoPass(ops, ops)
  {
    a := Run(ops, ops);
    if forall l | 0 <= l < Declared(ops) :: Place(ops, l) >= 0 {
      PatchedIsTwoPass(a.code, a.labels, ops);
    }
  }

  /** The operations ops, one after the other, as the beginning of the program all. */
  method Run(ops: Ops, ghost all: Ops) returns (a: Assembler)
    requires WellFormed(ops) && Offset(ops) < MAX_NEXT && Offset(all) < MAX_CODE
    ensures fresh(a) && a.Valid() && Emitted(a.code, a.labels, a.branches, ops, all)
  {
    match ops {
      case Nil => a := new Assembler();
      case Then(front, op) =>
        a := Run(front, all);
        Step(a, front, op, all);
    }
  }

  /** One operation. */
  method Step(a: Assembler, done: Ops, op: Op, ghost all: Ops)
    requires a.Valid() && Offset(all) < MAX_CODE && Emitted(a.code, a.labels, a.branches, done, all)
    requires WellFormed(Then(done, op)) && Offset(Then(done, op)) < MAX_NEXT
    modifies a
    ensures a.Valid() && Emitted(a.code, a.labels, a.branches, Then(done, op), all)
  {
    match op {
      case Declare =>
        var _ := a.NewLabel();
        DeclareKeeps(a.code, old(a.labels), a.branches, done, all);
      case Raw(bytes) =>
        a.Emit(bytes);
        RawKeeps(old(a.code), a.labels, a.branches, bytes, done, all);
      case Go(kind, l) =>
        StepGo(a, done, kind, l, all);
      case Here(l) =>
        StepHere(a, done, l, all);
    }
  }

  method StepGo(a: Assembler, ghost done: Ops, kind: Kind, l: nat, ghost all: Ops)
    requires a.Valid() && Offset(all) < MAX_CODE && Emitted(a.code, a.labels, a.branches, done, all)
    requires WellFormed(Then(done, Go(kind, l))) && Offset(Then(done, Go(kind, l))) < MAX_NEXT
    modifies a
    ensures a.Valid() && Emitted(a.code, a.labels, a.branches, Then(done, Go(kind, l)), all)
  {
    ghost var was, raws, bs := a.code, a.labels, a.branches;
    GoFits(was, raws, bs, done, kind, l, all);
    a.EmitBranch(kind, l);
    GoKeeps(was, raws, bs, a.code, done, kind, l, all);
    assert Offset(done) == |was|;
  }

  lemma GoFits(was: seq<nat>, raws: seq<int>, bs: seq<Branch>, done: Ops, kind: Kind, l: nat, all: Ops)
    requires StateOk(was, raws, bs) && Offset(all) < MAX_CODE && Emitted(was, raws, bs, done, all)
    requires WellFormed(Then(done, Go(kind, l))) && Offset(Then(done, Go(kind, l))) < MAX_NEXT
    ensures l < |raws| && (kind.Jcc? ==> kind.cc < 16) && |was| + 6 < MAX_CODE
    ensures Unbound(raws[l]) ==> Pos(raws[l]) < MAX_NEXT
  {
    if Unbound(raws[l]) { ChainIsInCode(was, raws, bs, l); }
  }

  method StepHere(a: Assembler, ghost done: Ops, l: nat, ghost all: Ops)
    requires a.Valid() && Offset(all) < MAX_CODE && Emitted(a.code, a.labels, a.branches, done, all)
    requires WellFormed(Then(done, Here(l))) && Offset(Then(done, Here(l))) < MAX_NEXT
    modifies a
    ensures a.Valid() && Emitted(a.code, a.labels, a.branches, Then(done, Here(l)), all)
  {
    a.Bind(l);
    HereKeeps(old(a.code), old(a.labels), a.branches, a.code, done, l, all);
  }

  lemma DeclareKeeps(was: seq<nat>, raws: seq<int>, bs: seq<Branch>, done: Ops, all: Ops)
    requires Offset(all) < MAX_CODE && Emitted(was, raws, bs, done, all) && WellFormed(Then(done, Declare))
    ensures Emitted(was, raws + [0], bs, Then(done, Declare), all)
  {
    TextGrows(was, was, done, Declare, all);
    PlacesGrow(raws, raws + [0], done, Declare);
  }

  lemma RawKeeps(was: seq<nat>, raws: seq<int>, bs: seq<Branch>, bytes: seq<nat>, done: Ops, all: Ops)
    requires Offset(all) < MAX_CODE && Emitted(was, raws, bs, done, all)
    requires WellFormed(Then(done, Raw(bytes))) && |was| + |bytes| < MAX_CODE
    ensures Emitted(was + bytes, raws, bs, Then(done, Raw(bytes)), all)
  {
    TextGrows(was, was + bytes, done, Raw(bytes), all);
    PlacesGrow(raws, raws, done, Raw(bytes));
    BytesGrow(was, was + bytes);
  }

  lemma HereKeeps(was: seq<nat>, raws: seq<int>, bs: seq<Branch>, code: seq<nat>, done: Ops, l: nat, all: Ops)
    requires Offset(all) < MAX_CODE && Emitted(was, raws, bs, done, all)
    requires WellFormed(Then(done, Here(l))) && OffFields(was, code, bs, l)
    ensures Emitted(code, raws[l := BoundAt(|was|)], bs, Then(done, Here(l)), all)
  {
    forall p | 0 <= p < |was| && !InField(bs, p) ensures code[p] == was[p] {
      assert forall i | 0 <= i < |bs| && bs[i].dest == l :: !(bs[i].fix <= p < bs[i].fix + 4);
    }
    TextGrows(was, code, done, Here(l), all);
    PlacesGrow(raws, raws[l := BoundAt(|was|)], done, Here(l));
  }

  lemma GoKeeps(was: seq<nat>, raws: seq<int>, bs: seq<Branch>, code: seq<nat>, done: Ops, kind: Kind, l: nat, all: Ops)
    requires Offset(all) < MAX_CODE && Emitted(was, raws, bs, done, all)
    requires WellFormed(Then(done, Go(kind, l)))
    requires AppendedBranch(was, code, kind) && l < |raws|
    requires forall p | |was| <= p < |code| :: code[p] < 0x100
    ensures Emitted(code, Linked(raws, l, |was| + OpLen(kind)), bs + [ToLabel(|was| + OpLen(kind), kind, l)], Then(done, Go(kind, l)), all)
  {
    GoGrowsText(was, code, done, kind, l, all);
    GoGrowsBranches(done, kind, l);
    PlacesGrow(raws, Linked(raws, l, |was| + OpLen(kind)), done, Go(kind, l));
    BytesGrow(was, code);
  }

  lemma BytesGrow(was: seq<nat>, code: seq<nat>)
    requires |was| <= |code| && forall p | 0 <= p < |was| :: code[p] == was[p]
    requires IsBytes(was) && forall p | |was| <= p < |code| :: code[p] < 0x100
    ensures IsBytes(code)
  {
  }

  lemma GoGrowsText(was: seq<nat>, code: seq<nat>, done: Ops, kind: Kind, l: nat, all: Ops)
    requires Offset(all) < MAX_CODE && SameText(was, done, all)
    requires AppendedBranch(was, code, kind)
    ensures SameText(code, Then(done, Go(kind, l)), all)
  {
    var at := |was|;
    OpcodeIsPiece(code, at, kind, l, all);
    TextGrows(was, code, done, Go(kind, l), all);
  }

  lemma GoGrowsBranches(done: Ops, kind: Kind, l: nat)
    ensures Branches(Then(done, Go(kind, l))) == Branches(done) + [ToLabel(Offset(done) + OpLen(kind), kind, l)]
  {
  }

  lemma PlacesGrow(was: seq<int>, labels: seq<int>, done: Ops, op: Op)
    requires WellFormed(Then(done, op)) && SamePlaces(was, done)
    requires match op
             case Declare => labels == was + [0]
             case Raw(_) => labels == was
             case Go(kind, l) => l < |was| && labels == Linked(was, l, Offset(done) + OpLen(kind))
             case Here(l) => l < |was| && labels == was[l := BoundAt(Offset(done))]
    ensures SamePlaces(labels, Then(done, op))
  {
    var ops := Then(done, op);
    UndeclaredIsUnplaced(done, Declared(done));
    forall l | 0 <= l < |labels|
      ensures if Place(ops, l) >= 0 then labels[l] == BoundAt(Place(ops, l)) else !Bound(labels[l])
    {
      assert op != Here(l) ==> Place(ops, l) == Place(done, l);
    }
  }

  lemma TextGrows(was: seq<nat>, code: seq<nat>, done: Ops, op: Op, all: Ops)
    requires Offset(all) < MAX_CODE && SameText(was, done, all)
    requires |code| == |was| + Size(op) < MAX_CODE
    requires forall p | 0 <= p < |was| && !InField(Branches(done), p) :: code[p] == was[p]
    requires forall p | |was| <= p < |code| && !InField(BranchOf(op, |was|), p) ::
               code[p] == Piece(op, |was|, all)[p - |was|]
    ensures SameText(code, Then(done, op), all)
  {
    var ops := Then(done, op);
    var b0, b1 := Branches(done), BranchOf(op, |was|);
    assert Branches(ops) == b0 + b1 && TwoPass(ops, all) == TwoPass(done, all) + Piece(op, |was|, all);
    AgreeOutside(was, code, TwoPass(done, all), Piece(op, |was|, all), b0, b1);
  }

  lemma AgreeOutside(was: seq<nat>, code: seq<nat>, two: seq<nat>, piece: seq<nat>, b0: seq<Branch>, b1: seq<Branch>)
    requires |two| == |was| && |code| == |was| + |piece|
    requires forall p | 0 <= p < |was| && !InField(b0, p) :: code[p] == was[p] == two[p]
    requires forall p | |was| <= p < |code| && !InField(b1, p) :: code[p] == piece[p - |was|]
    ensures forall p | 0 <= p < |code| && !InField(b0 + b1, p) :: code[p] == (two + piece)[p]
  {
    forall p | 0 <= p < |code| && !InField(b0 + b1, p) ensures code[p] == (two + piece)[p] {
      InFieldOfEither(b0, b1, p);
    }
  }

  lemma InFieldOfEither(b0: seq<Branch>, b1: seq<Branch>, p: nat)
    requires !InField(b0 + b1, p)
    ensures !InField(b0, p) && !InField(b1, p)
  {
    forall i | 0 <= i < |b0| ensures !(b0[i].fix <= p < b0[i].fix + 4) { assert (b0 + b1)[i] == b0[i]; }
    forall i | 0 <= i < |b1| ensures !(b1[i].fix <= p < b1[i].fix + 4) { assert (b0 + b1)[|b0| + i] == b1[i]; }
  }

  /** The opcode of an emitted branch is the one that the second pass writes. */
  lemma OpcodeIsPiece(code: seq<nat>, at: nat, kind: Kind, l: nat, all: Ops)
    requires |code| == at + OpLen(kind) + 4 < MAX_CODE && Offset(all) < MAX_CODE
    requires OpcodeAt(code, at + OpLen(kind), kind)
    ensures forall p | at <= p < |code| && !InField(BranchOf(Go(kind, l), at), p) ::
              code[p] == Piece(Go(kind, l), at, all)[p - at]
  {
    var bs := BranchOf(Go(kind, l), at);
    forall p | at + OpLen(kind) <= p < |code| ensures InField(bs, p) {
      assert bs[0].fix <= p < bs[0].fix + 4;
    }
  }

  predicate FieldIs(code: seq<nat>, fix: nat, x: int) {
    fix + 4 <= |code| && Long(code, fix) == x
  }

  /** How far branch b is to jump. */
  function Distance(all: Ops, b: Branch): (x: int) { Place(all, b.dest) - (b.fix + 4) }

  /** What the second pass writes into the fields. */
  lemma {:induction false} FieldInTwoPass(ops: Ops, all: Ops, i: nat)
    requires i < |Branches(ops)| && Offset(ops) < MAX_CODE && Offset(all) < MAX_CODE
    ensures FieldIs(TwoPass(ops, all), Branches(ops)[i].fix, Distance(all, Branches(ops)[i]))
  {
    var rest, at, op := Branches(ops.front), Offset(ops.front), ops.op;
    var two := TwoPass(ops.front, all);
    if i < |rest| {
      FieldInTwoPass(ops.front, all, i);
      FieldStays(two, Piece(op, at, all), rest[i].fix, Distance(all, rest[i]));
    } else {
      var b := BranchOf(op, at)[0];
      assert Branches(ops)[i] == b;
      LastField(two, op.kind, Distance(all, b));
    }
  }

  lemma FieldStays(code: seq<nat>, more: seq<nat>, fix: nat, x: int)
    requires FieldIs(code, fix, x)
    ensures FieldIs(code + more, fix, x)
  {
  }

  lemma LastField(code: seq<nat>, kind: Kind, x: int)
    requires IsJint(x)
    ensures FieldIs(code + (Opcode(kind) + Bytes(x)), |code| + OpLen(kind), x)
  {
    var b := Bytes(x);
    var all := code + (Opcode(kind) + b);
    var fix := |code| + OpLen(kind);
    assert all[fix] == b[0] && all[fix + 1] == b[1] && all[fix + 2] == b[2] && all[fix + 3] == b[3];
  }

  /** The second pass writes bytes. */
  lemma {:induction false} TwoPassIsBytes(ops: Ops, all: Ops)
    requires WellFormed(ops) && Offset(ops) < MAX_CODE && Offset(all) < MAX_CODE
    ensures IsBytes(TwoPass(ops, all))
  {
    if ops.Then? { TwoPassIsBytes(ops.front, all); }
  }

  /** Two fields with the same value hold the same bytes. */
  lemma SameBytes(code: seq<nat>, two: seq<nat>, fix: nat, x: int, p: nat)
    requires FieldIs(code, fix, x) && FieldIs(two, fix, x) && fix <= p < fix + 4
    requires IsBytes(code) && IsBytes(two)
    ensures code[p] == two[p]
  {
    SplitByte(code[fix], code[fix + 1] + 0x100 * code[fix + 2] + 0x1_0000 * code[fix + 3],
              two[fix], two[fix + 1] + 0x100 * two[fix + 2] + 0x1_0000 * two[fix + 3]);
    SplitByte(code[fix + 1], code[fix + 2] + 0x100 * code[fix + 3], two[fix + 1], two[fix + 2] + 0x100 * two[fix + 3]);
    SplitByte(code[fix + 2], code[fix + 3], two[fix + 2], two[fix + 3]);
  }

  lemma SplitByte(a: nat, high: nat, b: nat, top: nat)
    requires a < 0x100 && b < 0x100 && a + 0x100 * high == b + 0x100 * top
    ensures a == b && high == top
  {
  }

  lemma FieldOfBound(bs: seq<Branch>, i: nat, pos: nat)
    requires i < |bs|
    ensures Field(bs, i, BoundAt(pos)) == pos - (bs[i].fix + 4)
  {
  }

  /** One pass with backpatching writes what two passes write. */
  lemma PatchedIsTwoPass(code: seq<nat>, labels: seq<int>, ops: Ops)
    requires StateOk(code, labels, Branches(ops)) && IsBytes(code) && WellFormed(ops) && Offset(ops) < MAX_CODE
    requires SamePlaces(labels, ops) && SameText(code, ops, ops)
    requires forall l | 0 <= l < Declared(ops) :: Place(ops, l) >= 0
    ensures code == TwoPass(ops, ops)
  {
    var bs := Branches(ops);
    TwoPassIsBytes(ops, ops);
    forall p | 0 <= p < |code| ensures code[p] == TwoPass(ops, ops)[p] {
      if i :| 0 <= i < |bs| && bs[i].fix <= p < bs[i].fix + 4 {
        FieldInTwoPass(ops, ops, i);
        FieldIsPatched(code, labels, ops, i);
        SameBytes(code, TwoPass(ops, ops), bs[i].fix, Distance(ops, bs[i]), p);
      } else {
        assert !InField(bs, p);
      }
    }
  }

  lemma FieldIsPatched(code: seq<nat>, labels: seq<int>, ops: Ops, i: nat)
    requires StateOk(code, labels, Branches(ops)) && SamePlaces(labels, ops) && i < |Branches(ops)|
    requires forall l | 0 <= l < Declared(ops) :: Place(ops, l) >= 0
    ensures FieldIs(code, Branches(ops)[i].fix, Distance(ops, Branches(ops)[i]))
  {
    var b := Branches(ops)[i];
    assert BranchOk(code, labels, Branches(ops), i);
    assert labels[b.dest] == BoundAt(Place(ops, b.dest));
    FieldOfBound(Branches(ops), i, Place(ops, b.dest));
  }
}
