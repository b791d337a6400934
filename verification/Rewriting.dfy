/** Bytecodes that rewrite themselves while threads execute them (templateTable_amd64.cpp: iload,
    aload_0, getfield, and the pair bytecodes they install), as a state machine in which reading the
    next bytecode, the effect, and the patch are separate steps of any number of threads.

    `Original` is the machine that runs the stream as it was loaded and rewrites nothing. */
module Rewriting {
  import opened Options

  const ILOAD: nat := 21
  const ALOAD_0: nat := 42
  const CALOAD: nat := 52
  const GETFIELD: nat := 180
  // number_of_java_codes and what follows it in bytecodes.hpp
  const FAST_AGETFIELD: nat := 203
  const FAST_ALOAD_0: nat := 219
  const FAST_IACCESS_0: nat := 220
  const FAST_AACCESS_0: nat := 221
  const FAST_FACCESS_0: nat := 222
  const FAST_ILOAD: nat := 223
  const FAST_ILOAD2: nat := 224
  const FAST_ICALOAD: nat := 225

  /** The field types, in the order of the quick bytecodes. */
  datatype Kind = A | B | C | D | F | I | L | S

  function Quick(k: Kind): (op: nat)
    ensures FAST_AGETFIELD <= op < FAST_AGETFIELD + 8
  {
    FAST_AGETFIELD + match k case A => 0 case B => 1 case C => 2 case D => 3 case F => 4 case I => 5 case L => 6 case S => 7
  }

  function KindOf(op: nat): (k: Kind)
    requires FAST_AGETFIELD <= op < FAST_AGETFIELD + 8
    ensures Quick(k) == op
  {
    match op - FAST_AGETFIELD
    case 0 => A case 1 => B case 2 => C case 3 => D case 4 => F case 5 => I case 6 => L case _ => S
  }

  /** A resolved constant pool cache entry: the field's type and offset. */
  datatype Entry = Entry(kind: Kind, offset: int)

  datatype Heap = Heap(fields: map<(int, int), int>, arrays: map<int, seq<int>>)

  /** depth counts the frames below this one. */
  datatype Frame = Frame(depth: int, locals: map<nat, int>, stack: seq<int>)

  datatype Exception = NullPointer | OutOfBounds

  /** An entry of the exception table, with the exceptions that its class constraint lets through. */
  datatype Range = Range(beg: nat, end: nat, handler: nat, catches: set<Exception>)

  /** fast_exception_handler_bci_for: the first entry that covers the index and catches the exception. */
  function FindHandler(table: seq<Range>, p: nat, e: Exception): (b: Option<nat>) {
    if table == [] then None
    else if table[0].beg <= p < table[0].end && e in table[0].catches then Some(table[0].handler)
    else FindHandler(table[1..], p, e)
  }

  /** Where a thread continues, and with what. */
  datatype Next = Next(bcp: nat, heap: Heap, frame: Frame)

  /** A method's code as loaded.  `other` is the meaning of every bytecode that this model does not
      spell out, for any choice made outside the thread.  `raise` creates an exception object, and
      `unwind` is where an exception that no entry of `table` catches continues, with fewer frames.
      `starts` are the indices where instructions start. */
  datatype Program = Program(
    orig: seq<nat>, starts: set<nat>, entry: (nat, nat) -> Entry,
    other: (nat, nat, Heap, Frame, int) -> Next, table: seq<Range>,
    raise: (Exception, Heap) -> (Heap, int), unwind: (Exception, Heap, Frame) -> Next)
  {
    predicate At(p: nat, op: nat) {
      p < |orig| && p in starts && orig[p] == op
    }

    /** Operands follow their bytecode, execution never runs off the end, and the stream does not
        contain the bytecodes that only rewriting installs. */
    ghost predicate Ok() {
      && (forall p | p in starts :: p < |orig| && !(FAST_AGETFIELD <= orig[p] <= FAST_AGETFIELD + 7)
                                    && !(FAST_ALOAD_0 <= orig[p] <= FAST_ICALOAD))
      && (forall p: nat | At(p, ILOAD) :: p + 2 in starts && p + 1 !in starts)
      && (forall p: nat | At(p, ALOAD_0) :: p + 1 in starts)
      && (forall p: nat | At(p, CALOAD) :: p + 1 in starts)
      && (forall p: nat | At(p, GETFIELD) :: p + 3 in starts && p + 1 !in starts && p + 2 !in starts)
      && (forall op, p, h, f, choice :: other(op, p, h, f, choice).bcp in starts)
      && (forall i | 0 <= i < |table| :: table[i].handler in starts)
      && (forall e, h, f :: unwind(e, h, f).bcp in starts && unwind(e, h, f).frame.depth < f.depth)
    }

    function EntryAt(p: nat): (e: Entry)
      requires p + 1 < |orig|
    {
      entry(orig[p], orig[p + 1])
    }
  }

  // ----- Effects

  function Push(f: Frame, v: int): Frame { f.(stack := [v] + f.stack) }

  function Top(f: Frame): int { if f.stack == [] then 0 else f.stack[0] }

  function Pop(f: Frame): Frame { if f.stack == [] then f else f.(stack := f.stack[1..]) }

  function Local(f: Frame, i: nat): int { if i in f.locals then f.locals[i] else 0 }

  function Throw(g: Program, at: nat, e: Exception, h: Heap, f: Frame): Next {
    match FindHandler(g.table, at, e)
    case Some(b) =>
      var raised := g.raise(e, h);
      Next(b, raised.0, f.(stack := [raised.1]))
    case None => g.unwind(e, h, f)
  }

  function SignExtend(v: int, bits: nat): int
    requires bits == 0x100 || bits == 0x1_0000 || bits == 0x1_0000_0000
  {
    var low := v % bits;
    if low < bits / 2 then low else low - bits
  }

  /** How a field of each type is loaded into the register. */
  function Load(k: Kind, raw: int): int {
    match k
    case B => SignExtend(raw, 0x100)
    case C => raw % 0x1_0000
    case S => SignExtend(raw, 0x1_0000)
    case I => SignExtend(raw, 0x1_0000_0000)
    case _ => raw
  }

  function DoGetfield(g: Program, k: Kind, offset: int, at: nat, next: nat, h: Heap, f: Frame): Next {
    var obj := Top(f);
    if obj == 0 then Throw(g, at, NullPointer, h, f)
    else
      var raw := if (obj, offset) in h.fields then h.fields[(obj, offset)] else 0;
      Next(next, h, Push(Pop(f), Load(k, raw)))
  }

  predicate CaloadThrows(h: Heap, f: Frame) {
    var arr := Top(Pop(f));
    arr == 0 || (arr in h.arrays && !(0 <= Top(f) < |h.arrays[arr]|))
  }

  function DoCaload(g: Program, at: nat, next: nat, h: Heap, f: Frame): Next {
    var index, arr := Top(f), Top(Pop(f));
    if arr == 0 then Throw(g, at, NullPointer, h, f)
    else if arr !in h.arrays then Next(next, h, Push(Pop(Pop(f)), 0))
    else if !(0 <= index < |h.arrays[arr]|) then Throw(g, at, OutOfBounds, h, f)
    else Next(next, h, Push(Pop(Pop(f)), Load(C, h.arrays[arr][index])))
  }

  // ----- The original machine

  /** One instruction of the stream as loaded. */
  function Original(g: Program, p: nat, h: Heap, f: Frame, choice: int): Next {
    if p >= |g.orig| || p !in g.starts then Next(p, h, f)
    else if g.orig[p] == ILOAD && p + 1 < |g.orig| then Next(p + 2, h, Push(f, Local(f, g.orig[p + 1])))
    else if g.orig[p] == ALOAD_0 then Next(p + 1, h, Push(f, Local(f, 0)))
    else if g.orig[p] == CALOAD then DoCaload(g, p, p + 1, h, f)
    else if g.orig[p] == GETFIELD && p + 2 < |g.orig| then
      DoGetfield(g, g.EntryAt(p + 1).kind, g.EntryAt(p + 1).offset, p, p + 3, h, f)
    else g.other(g.orig[p], p, h, f, choice)
  }

  datatype AThread = AThread(bcp: nat, frame: Frame)
  datatype AState = AState(heap: Heap, threads: seq<AThread>)

  /** One thread executes one instruction of the original stream. */
  datatype Pick = Pick(t: nat, choice: int)

  function AStep(g: Program, a: AState, pick: Pick): AState {
    if pick.t >= |a.threads| then a
    else
      var th := a.threads[pick.t];
      var n := Original(g, th.bcp, a.heap, th.frame, pick.choice);
      AState(n.heap, a.threads[pick.t := AThread(n.bcp, n.frame)])
  }

  function ARun(g: Program, a: AState, picks: seq<Pick>): AState {
    if picks == [] then a
    else AStep(g, ARun(g, a, picks[..|picks| - 1]), picks[|picks| - 1])
  }

  // ----- The rewriting machine

  /** Where a thread stands inside a template.  In `Finish` the effect has happened; the patch and
      the move to `next` are still to come. */
  datatype Micro = Ready | ILoadLook | ILoadPatch(op: nat) | Exec(op: nat) | ALoadLook | Finish(op: nat, next: nat)

  datatype Thread = Thread(bcp: nat, frame: Frame, micro: Micro)

  datatype State = State(code: seq<nat>, heap: Heap, threads: seq<Thread>)

  /** iload: which bytecode to install, given the one that follows. */
  function ILoadRewrite(next: nat): Option<nat> {
    if next == ILOAD then None                       // wait for the last two of a run of iloads
    else if next == FAST_ILOAD then Some(FAST_ILOAD2)
    else if next == CALOAD then Some(FAST_ICALOAD)
    else Some(FAST_ILOAD)
  }

  /** aload_0: which bytecode to install, given the one that follows. */
  function ALoadRewrite(next: nat): Option<nat> {
    if next == GETFIELD then None                    // wait until it is resolved
    else if next == Quick(I) then Some(FAST_IACCESS_0)
    else if next == Quick(A) then Some(FAST_AACCESS_0)
    else if next == Quick(F) then Some(FAST_FACCESS_0)
    else Some(FAST_ALOAD_0)
  }

  /** A thread's next micro-step; `rewrite` stands for the flags RewriteBytecodes and
      RewriteFrequentPairs. */
  datatype Step = Step(t: nat, rewrite: bool, choice: int)

  function SetThread(s: State, t: nat, th: Thread): State
    requires t < |s.threads|
  {
    s.(threads := s.threads[t := th])
  }

  function Patch(s: State, p: nat, op: nat): State {
    if p < |s.code| then s.(code := s.code[p := op]) else s
  }

  function Byte(s: State, p: nat): nat { if p < |s.code| then s.code[p] else 0 }

  /** The effect of one installed bytecode; a pair bytecode does two loads. */
  function Effect(g: Program, s: State, op: nat, p: nat, f: Frame, choice: int): Next {
    var h := s.heap;
    if op == ILOAD || op == FAST_ILOAD then Next(p + 2, h, Push(f, Local(f, Byte(s, p + 1))))
    else if op == ALOAD_0 || op == FAST_ALOAD_0 then Next(p + 1, h, Push(f, Local(f, 0)))
    else if op == CALOAD then DoCaload(g, p, p + 1, h, f)
    else if op == GETFIELD then
      var e := g.entry(Byte(s, p + 1), Byte(s, p + 2));
      DoGetfield(g, e.kind, e.offset, p, p + 3, h, f)
    else if FAST_AGETFIELD <= op <= FAST_AGETFIELD + 7 then
      DoGetfield(g, KindOf(op), g.entry(Byte(s, p + 1), Byte(s, p + 2)).offset, p, p + 3, h, f)
    else if op == FAST_ILOAD2 then
      var f1 := Push(f, Local(f, Byte(s, p + 1)));
      Next(p + 4, h, Push(f1, Local(f1, Byte(s, p + 3))))
    else if op == FAST_ICALOAD then
      DoCaload(g, p, p + 3, h, Push(f, Local(f, Byte(s, p + 1))))
    else if FAST_IACCESS_0 <= op <= FAST_FACCESS_0 then
      var k := if op == FAST_IACCESS_0 then I else if op == FAST_AACCESS_0 then A else F;
      // r13 is advanced around the null check, so the exception is the getfield's
      DoGetfield(g, k, g.entry(Byte(s, p + 2), Byte(s, p + 3)).offset, p + 1, p + 4, h, Push(f, Local(f, 0)))
    else g.other(op, p, h, f, choice)
  }

  function Apply(g: Program, s: State, step: Step): State
    requires step.t < |s.threads|
  {
    var t, th := step.t, s.threads[step.t];
    var p := th.bcp;
    match th.micro
    case Ready =>
      var op := Byte(s, p);
      SetThread(s, t, th.(micro := if step.rewrite && op == ILOAD then ILoadLook
                                   else if step.rewrite && op == ALOAD_0 then ALoadLook
                                   else Exec(op)))
    case ILoadLook =>
      var r := ILoadRewrite(Byte(s, p + 2));
      SetThread(s, t, th.(micro := if r.None? then Exec(ILOAD) else ILoadPatch(r.value)))
    case ILoadPatch(op) => SetThread(Patch(s, p, op), t, th.(micro := Exec(ILOAD)))
    case ALoadLook =>
      var r := ALoadRewrite(Byte(s, p + 1));
      var f := Push(th.frame, Local(th.frame, 0));
      SetThread(s, t, if r.None? then Thread(p + 1, f, Ready) else Thread(p, f, Finish(r.value, p + 1)))
    case Exec(op) =>
      var n := Effect(g, s, op, p, th.frame, step.choice);
      var s1 := s.(heap := n.heap);
      if op == GETFIELD && step.rewrite && Top(th.frame) != 0 then
        SetThread(s1, t, Thread(p, n.frame, Finish(Quick(g.entry(Byte(s, p + 1), Byte(s, p + 2)).kind), n.bcp)))
      else SetThread(s1, t, Thread(n.bcp, n.frame, Ready))
    case Finish(op, next) => SetThread(Patch(s, p, op), t, Thread(next, th.frame, Ready))
  }

  /** What the rewriting machine looks like to the original one. */
  function Abs(s: State): AState {
    AState(s.heap, seq(|s.threads|, i requires 0 <= i < |s.threads| => AbsThread(s.threads[i])))
  }

  function AbsThread(th: Thread): AThread {
    AThread(if th.micro.Finish? then th.micro.next else th.bcp, th.frame)
  }

  predicate Init(g: Program, s: State) {
    && s.code == g.orig
    && forall t | 0 <= t < |s.threads| :: s.threads[t].bcp in g.starts && s.threads[t].micro == Ready
  }

  // ----- The invariant

  /** The last bytecode that rewriting installs at p, a function of the original stream alone. */
  function Final(g: Program, p: nat): (op: nat)
    decreases |g.orig| - p
  {
    if p >= |g.orig| then 0
    else if g.At(p, ILOAD) then
      if g.At(p + 2, ILOAD) then (if Final(g, p + 2) == FAST_ILOAD then FAST_ILOAD2 else FAST_ILOAD)
      else if g.At(p + 2, CALOAD) then FAST_ICALOAD
      else FAST_ILOAD
    else if g.At(p, ALOAD_0) then
      if g.At(p + 1, GETFIELD) && p + 3 < |g.orig| then
        match g.EntryAt(p + 2).kind
        case I => FAST_IACCESS_0
        case A => FAST_AACCESS_0
        case F => FAST_FACCESS_0
        case _ => FAST_ALOAD_0
      else FAST_ALOAD_0
    else if g.At(p, GETFIELD) && p + 2 < |g.orig| then Quick(g.EntryAt(p + 1).kind)
    else g.orig[p]
  }

  /** The bytecode op at p may rely on what follows it. */
  predicate PairReady(code: seq<nat>, p: nat, op: nat) {
    && (op == FAST_ILOAD2 ==> p + 2 < |code| && code[p + 2] == FAST_ILOAD)
    && (op == FAST_ICALOAD ==> p + 2 < |code| && code[p + 2] == CALOAD)
    && (op == FAST_IACCESS_0 ==> p + 1 < |code| && code[p + 1] == Quick(I))
    && (op == FAST_AACCESS_0 ==> p + 1 < |code| && code[p + 1] == Quick(A))
    && (op == FAST_FACCESS_0 ==> p + 1 < |code| && code[p + 1] == Quick(F))
  }

  predicate CodeOk(g: Program, code: seq<nat>) {
    && |code| == |g.orig|
    && forall p | 0 <= p < |code| ::
         if p in g.starts then (code[p] == g.orig[p] || code[p] == Final(g, p)) && PairReady(code, p, code[p])
         else code[p] == g.orig[p]
  }

  predicate ThreadOk(g: Program, code: seq<nat>, th: Thread) {
    && th.bcp in g.starts && th.bcp < |g.orig|
    && match th.micro
       case Ready => true
       case ILoadLook => g.orig[th.bcp] == ILOAD
       case ILoadPatch(op) => g.orig[th.bcp] == ILOAD && op == Final(g, th.bcp) && PairReady(code, th.bcp, op)
       case Exec(op) => op == g.orig[th.bcp] || op == Final(g, th.bcp)
       case ALoadLook => g.orig[th.bcp] == ALOAD_0
       case Finish(op, next) => op == Final(g, th.bcp) && PairReady(code, th.bcp, op) && next in g.starts
  }

  predicate Inv(g: Program, s: State) {
    && CodeOk(g, s.code)
    && forall t | 0 <= t < |s.threads| :: ThreadOk(g, s.code, s.threads[t])
  }
}
