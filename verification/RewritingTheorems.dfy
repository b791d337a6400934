/** The simulation: whatever threads execute and rewrite, the heap and every thread's frame evolve as
    in some run of the original stream. */
module RewritingTheorems {
  import opened Options
  import opened Rewriting
  import opened RewritingProofs

  predicate IsPair(op: nat) { op == FAST_ILOAD2 || op == FAST_ICALOAD || FAST_IACCESS_0 <= op <= FAST_FACCESS_0 }

  /** A pair bytecode was installed over an iload or an aload_0. */
  lemma PairsAreInstalled(g: Program, p: nat, op: nat)
    requires g.Ok() && p in g.starts && (op == g.orig[p] || op == Final(g, p)) && IsPair(op)
    ensures op == Final(g, p) && (g.orig[p] == ILOAD || g.orig[p] == ALOAD_0)
  {
    FinalShape(g, p);
  }

  /** A bytecode that is not a pair does what the loaded one does. */
  lemma SingleEffect(g: Program, s: State, op: nat, p: nat, f: Frame, choice: int)
    requires g.Ok() && CodeOk(g, s.code) && p in g.starts && (op == g.orig[p] || op == Final(g, p)) && !IsPair(op)
    ensures Effect(g, s, op, p, f, choice) == Original(g, p, s.heap, f, choice)
  {
    FinalShape(g, p);
    OperandsAsLoaded(g, s.code, p);
    if g.orig[p] == GETFIELD {
      QuickEffect(g, s, op, p, f, choice);
    }
  }

  lemma QuickEffect(g: Program, s: State, op: nat, p: nat, f: Frame, choice: int)
    requires g.Ok() && p in g.starts && p + 2 < |g.orig| && g.orig[p] == GETFIELD
    requires op == GETFIELD || op == Quick(g.EntryAt(p + 1).kind)
    requires p + 2 < |s.code| && s.code[p + 1] == g.orig[p + 1] && s.code[p + 2] == g.orig[p + 2]
    ensures Effect(g, s, op, p, f, choice) == Original(g, p, s.heap, f, choice)
  {
  }

  /** fast_iload2 and the fast_Xaccess_0 bytecodes do what the two loaded ones do in a row. */
  lemma PairEffect(g: Program, s: State, op: nat, p: nat, f: Frame, choice: int)
    requires g.Ok() && CodeOk(g, s.code) && p in g.starts && op == Final(g, p)
    requires IsPair(op) && op != FAST_ICALOAD && (g.orig[p] == ILOAD || g.orig[p] == ALOAD_0)
    ensures var n := Original(g, p, s.heap, f, choice);
            Effect(g, s, op, p, f, choice) == Original(g, n.bcp, n.heap, n.frame, choice)
  {
    assert g.At(p, g.orig[p]);
    if g.orig[p] == ILOAD {
      assert p + 2 in g.starts && p + 1 !in g.starts;
      assert g.At(p + 2, ILOAD);
      assert p + 3 !in g.starts && p + 4 in g.starts;
    } else {
      assert p + 1 in g.starts;
      assert g.At(p + 1, GETFIELD);
      assert p + 2 !in g.starts && p + 3 !in g.starts && p + 4 in g.starts;
      FinalShape(g, p + 1);
    }
  }

  /** fast_icaload, which leaves r13 at the iload, does what the two loaded bytecodes do exactly when
      the caload does not throw, or when the exception table has the same handler for both indices. */
  lemma ICaloadEffect(g: Program, s: State, p: nat, f: Frame, choice: int)
    requires g.Ok() && CodeOk(g, s.code) && p in g.starts && g.orig[p] == ILOAD && FAST_ICALOAD == Final(g, p)
    ensures var n := Original(g, p, s.heap, f, choice);
            && n.bcp == p + 2 && n.heap == s.heap
            && (Effect(g, s, FAST_ICALOAD, p, f, choice) == Original(g, n.bcp, n.heap, n.frame, choice) <==>
                (CaloadThrows(s.heap, n.frame) ==> SameHandler(g, p, Thrown(n.frame))))
  {
    assert g.At(p, ILOAD);
    assert p + 2 in g.starts && p + 1 !in g.starts;
    assert g.At(p + 2, CALOAD);
  }

  /** The exception of a caload that throws. */
  function Thrown(f: Frame): (e: Exception) { if Top(Pop(f)) == 0 then NullPointer else OutOfBounds }

  /** The exception table treats the caload at p + 2 like the iload at p. */
  predicate SameHandler(g: Program, p: nat, e: Exception) {
    FindHandler(g.table, p, e) == FindHandler(g.table, p + 2, e)
  }

  /** It does so for every iload in front of a caload: a property of the method as it was loaded. */
  predicate HandlersAlike(g: Program) {
    forall p: nat, e | p in g.starts && g.At(p, ILOAD) && g.At(p + 2, CALOAD) :: SameHandler(g, p, e)
  }

  /** One installed bytecode does what two loaded ones do. */
  predicate IsTwo(g: Program, s: State, op: nat, p: nat, f: Frame, choice: int) {
    var n := Original(g, p, s.heap, f, choice);
    Effect(g, s, op, p, f, choice) == Original(g, n.bcp, n.heap, n.frame, choice)
  }

  /** Every fast_icaload does what the loaded bytecodes do, in every state, if and only if the exception
      table treats the two bytecodes of every pair alike. */
  lemma FusedIffAlike(g: Program)
    requires g.Ok()
    ensures HandlersAlike(g) <==>
            forall s: State, p: nat, f: Frame, choice: int
              | CodeOk(g, s.code) && p in g.starts && g.At(p, ILOAD) && g.At(p + 2, CALOAD) :: IsTwo(g, s, FAST_ICALOAD, p, f, choice)
  {
    if HandlersAlike(g) {
      forall s: State, p: nat, f: Frame, choice: int
        | CodeOk(g, s.code) && p in g.starts && g.At(p, ILOAD) && g.At(p + 2, CALOAD)
        ensures IsTwo(g, s, FAST_ICALOAD, p, f, choice)
      {
        ICaloadEffect(g, s, p, f, choice);
      }
    } else {
      var p: nat, e :| p in g.starts && g.At(p, ILOAD) && g.At(p + 2, CALOAD) && !SameHandler(g, p, e);
      ThrowingState(g, p, e);
    }
  }

  /** Any exception can happen at a caload, in the code as it was loaded. */
  lemma ThrowingState(g: Program, p: nat, e: Exception)
    requires g.Ok() && p in g.starts && g.At(p, ILOAD) && g.At(p + 2, CALOAD) && !SameHandler(g, p, e)
    ensures exists s: State, f: Frame, choice: int :: CodeOk(g, s.code) && !IsTwo(g, s, FAST_ICALOAD, p, f, choice)
  {
    var arr := if e.NullPointer? then 0 else 1;
    var s := State(g.orig, Heap(map[], map[1 := []]), []);
    var f := Frame(0, map[], [arr]);
    InitIsInv(g, s);
    ICaloadEffect(g, s, p, f, 0);
    assert !IsTwo(g, s, FAST_ICALOAD, p, f, 0);
  }

  /** The step does not execute a fast_icaload whose exception is attributed to the wrong bytecode. */
  predicate Attributed(g: Program, s: State, step: Step)
    requires step.t < |s.threads|
  {
    var th := s.threads[step.t];
    th.micro == Exec(FAST_ICALOAD) ==> AttributedAt(g, s, th.bcp, th.frame)
  }

  predicate AttributedAt(g: Program, s: State, p: nat, f: Frame) {
    var pushed := Push(f, Local(f, Byte(s, p + 1)));
    CaloadThrows(s.heap, pushed) ==> SameHandler(g, p, Thrown(pushed))
  }

  /** No step of a method with such an exception table does. */
  lemma AlikeAttributes(g: Program, s: State, step: Step)
    requires g.Ok() && Inv(g, s) && step.t < |s.threads| && HandlersAlike(g)
    ensures Attributed(g, s, step)
  {
    var th := s.threads[step.t];
    assert ThreadOk(g, s.code, th);
    if th.micro == Exec(FAST_ICALOAD) {
      FinalShape(g, th.bcp);
      assert g.At(th.bcp, ILOAD) && g.At(th.bcp + 2, CALOAD);
    }
  }

  lemma RunOne(g: Program, a: AState, p: Pick)
    ensures ARun(g, a, [p]) == AStep(g, a, p)
  {
    assert [p][..0] == [];
  }

  lemma RunTwo(g: Program, a: AState, p: Pick)
    ensures ARun(g, a, [p, p]) == AStep(g, AStep(g, a, p), p)
  {
    assert [p, p][..1] == [p];
    RunOne(g, a, p);
  }

  /** Each micro-step is no step, one step or two steps of the same thread in the original. */
  lemma StepSimulated(g: Program, s: State, step: Step) returns (picks: seq<Pick>)
    requires g.Ok() && Inv(g, s) && step.t < |s.threads| && Attributed(g, s, step)
    ensures ARun(g, Abs(s), picks) == Abs(Apply(g, s, step))
    ensures |picks| <= 2 && forall i | 0 <= i < |picks| :: picks[i].t == step.t
  {
    var pick := Pick(step.t, step.choice);
    match s.threads[step.t].micro
    case Exec(op) => picks := ExecSimulated(g, s, step);
    case ALoadLook => picks := [pick];
      RunOne(g, Abs(s), pick);
      ALoadLookSimulated(g, s, step);
    case _ => picks := [];
      SilentStep(g, s, step);
  }

  /** Looking and patching are not seen from the original machine. */
  lemma SilentStep(g: Program, s: State, step: Step)
    requires step.t < |s.threads|
    requires !s.threads[step.t].micro.Exec? && !s.threads[step.t].micro.ALoadLook?
    ensures Abs(Apply(g, s, step)) == Abs(s)
  {
  }

  /** aload_0 has its effect together with its look. */
  lemma ALoadLookSimulated(g: Program, s: State, step: Step)
    requires Inv(g, s) && step.t < |s.threads| && s.threads[step.t].micro.ALoadLook?
    ensures Abs(Apply(g, s, step)) == AStep(g, Abs(s), Pick(step.t, step.choice))
  {
    assert ThreadOk(g, s.code, s.threads[step.t]);
  }

  /** Executing an installed bytecode, seen from the original machine. */
  lemma ExecAbs(g: Program, s: State, step: Step)
    requires step.t < |s.threads| && s.threads[step.t].micro.Exec?
    ensures var th := s.threads[step.t];
            var e := Effect(g, s, th.micro.op, th.bcp, th.frame, step.choice);
            Abs(Apply(g, s, step)) == AState(e.heap, Abs(s).threads[step.t := AThread(e.bcp, e.frame)])
  {
  }

  lemma ExecSimulated(g: Program, s: State, step: Step) returns (picks: seq<Pick>)
    requires g.Ok() && Inv(g, s) && step.t < |s.threads| && Attributed(g, s, step)
    requires s.threads[step.t].micro.Exec?
    ensures ARun(g, Abs(s), picks) == Abs(Apply(g, s, step))
    ensures |picks| <= 2 && forall i | 0 <= i < |picks| :: picks[i].t == step.t
  {
    var pick := Pick(step.t, step.choice);
    assert ThreadOk(g, s.code, s.threads[step.t]);
    if !IsPair(s.threads[step.t].micro.op) {
      SingleSimulated(g, s, step);
      RunOne(g, Abs(s), pick);
      picks := [pick];
    } else {
      PairSimulated(g, s, step);
      RunTwo(g, Abs(s), pick);
      picks := [pick, pick];
    }
  }

  lemma SingleSimulated(g: Program, s: State, step: Step)
    requires g.Ok() && CodeOk(g, s.code) && step.t < |s.threads| && s.threads[step.t].micro.Exec?
    requires ThreadOk(g, s.code, s.threads[step.t]) && !IsPair(s.threads[step.t].micro.op)
    ensures Abs(Apply(g, s, step)) == AStep(g, Abs(s), Pick(step.t, step.choice))
  {
    var th := s.threads[step.t];
    ExecAbs(g, s, step);
    SingleEffect(g, s, th.micro.op, th.bcp, th.frame, step.choice);
  }

  lemma PairSimulated(g: Program, s: State, step: Step)
    requires g.Ok() && CodeOk(g, s.code) && step.t < |s.threads| && s.threads[step.t].micro.Exec?
    requires ThreadOk(g, s.code, s.threads[step.t]) && IsPair(s.threads[step.t].micro.op) && Attributed(g, s, step)
    ensures var pick := Pick(step.t, step.choice);
            Abs(Apply(g, s, step)) == AStep(g, AStep(g, Abs(s), pick), pick)
  {
    var th := s.threads[step.t];
    ExecAbs(g, s, step);
    TwoSteps(g, Abs(s), Pick(step.t, step.choice));
    PairHere(g, s, step);
  }

  lemma PairHere(g: Program, s: State, step: Step)
    requires g.Ok() && CodeOk(g, s.code) && step.t < |s.threads| && s.threads[step.t].micro.Exec?
    requires ThreadOk(g, s.code, s.threads[step.t]) && IsPair(s.threads[step.t].micro.op) && Attributed(g, s, step)
    ensures var th := s.threads[step.t]; IsTwo(g, s, th.micro.op, th.bcp, th.frame, step.choice)
  {
    var th := s.threads[step.t];
    PairsAreInstalled(g, th.bcp, th.micro.op);
    PairIsTwo(g, s, th.micro.op, th.bcp, th.frame, step.choice);
  }

  lemma PairIsTwo(g: Program, s: State, op: nat, p: nat, f: Frame, choice: int)
    requires g.Ok() && CodeOk(g, s.code) && p in g.starts && op == Final(g, p) && IsPair(op)
    requires g.orig[p] == ILOAD || g.orig[p] == ALOAD_0
    requires op == FAST_ICALOAD ==> AttributedAt(g, s, p, f)
    ensures IsTwo(g, s, op, p, f, choice)
  {
    if op == FAST_ICALOAD {
      FinalShape(g, p);
      OperandsAsLoaded(g, s.code, p);
      ICaloadEffect(g, s, p, f, choice);
    } else {
      PairEffect(g, s, op, p, f, choice);
    }
  }

  lemma TwoSteps(g: Program, a: AState, pick: Pick)
    requires pick.t < |a.threads|
    ensures var th := a.threads[pick.t];
            var n := Original(g, th.bcp, a.heap, th.frame, pick.choice);
            var m := Original(g, n.bcp, n.heap, n.frame, pick.choice);
            AStep(g, AStep(g, a, pick), pick) == AState(m.heap, a.threads[pick.t := AThread(m.bcp, m.frame)])
  {
  }

  // ----- Whole runs

  ghost predicate Run(g: Program, states: seq<State>, steps: seq<Step>) {
    && g.Ok()
    && |states| == |steps| + 1
    && Init(g, states[0])
    && (forall i | 0 <= i < |steps| ::
          steps[i].t < |states[i].threads| && states[i + 1] == Apply(g, states[i], steps[i]))
  }

  lemma InitIsInv(g: Program, s: State)
    requires g.Ok() && Init(g, s)
    ensures Inv(g, s)
  {
    forall p | 0 <= p < |s.code| && p in g.starts ensures PairReady(s.code, p, s.code[p]) {
    }
  }

  lemma {:induction false} RunKeepsInv(g: Program, states: seq<State>, steps: seq<Step>, i: nat)
    requires Run(g, states, steps) && i < |states|
    ensures Inv(g, states[i])
  {
    if i == 0 {
      InitIsInv(g, states[0]);
    } else {
      RunKeepsInv(g, states, steps, i - 1);
      StepKeepsInv(g, states[i - 1], steps[i - 1]);
    }
  }

  /** Every run of the rewriting machine, with any jumps, threads and rewrites, is a run of the
      original stream: same heap, same frames, same positions. */
  lemma {:induction false} RunSimulated(g: Program, states: seq<State>, steps: seq<Step>, n: nat)
    returns (picks: seq<Pick>)
    requires Run(g, states, steps) && n < |states| && HandlersAlike(g)
    ensures ARun(g, Abs(states[0]), picks) == Abs(states[n])
  {
    if n == 0 {
      picks := [];
    } else {
      var before := RunSimulated(g, states, steps, n - 1);
      RunKeepsInv(g, states, steps, n - 1);
      AlikeAttributes(g, states[n - 1], steps[n - 1]);
      var more := StepSimulated(g, states[n - 1], steps[n - 1]);
      RunsCompose(g, Abs(states[0]), before, more);
      picks := before + more;
    }
  }

  lemma {:induction false} RunsCompose(g: Program, a: AState, p: seq<Pick>, q: seq<Pick>)
    ensures ARun(g, a, p + q) == ARun(g, ARun(g, a, p), q)
  {
    if q == [] {
      assert p + q == p;
    } else {
      RunsCompose(g, a, p, q[..|q| - 1]);
      assert (p + q)[..|p + q| - 1] == p + q[..|q| - 1];
    }
  }

  /** At every moment of a run, a pair bytecode stands before the successor it was fused with, and
      from then on neither the pair nor that successor changes again. */
  lemma PairsAreForGood(g: Program, states: seq<State>, steps: seq<Step>, i: nat, j: nat, p: nat)
    requires Run(g, states, steps) && i <= j < |states|
    requires p in g.starts && p < |states[i].code| && IsPair(states[i].code[p])
    ensures PairReady(states[i].code, p, states[i].code[p])
    ensures p < |states[j].code| && states[j].code[p] == states[i].code[p]
    ensures PairReady(states[j].code, p, states[i].code[p])
  {
    RunKeepsInv(g, states, steps, i);
    RunKeepsInv(g, states, steps, j);
    PairsAreInstalled(g, p, states[i].code[p]);
    FinalStays(g, states, steps, i, j, p);
  }

  lemma {:induction false} FinalStays(g: Program, states: seq<State>, steps: seq<Step>, i: nat, j: nat, p: nat)
    requires Run(g, states, steps) && i <= j < |states|
    requires p in g.starts && p < |states[i].code| && states[i].code[p] == Final(g, p)
    ensures p < |states[j].code| && states[j].code[p] == Final(g, p)
    decreases j - i
  {
    if i < j {
      FinalStays(g, states, steps, i, j - 1, p);
      RunKeepsInv(g, states, steps, j - 1);
      StepKeepsFinal(g, states[j - 1], steps[j - 1], p);
    }
  }

  lemma StepKeepsFinal(g: Program, s: State, step: Step, p: nat)
    requires Inv(g, s) && step.t < |s.threads| && p < |s.code| && s.code[p] == Final(g, p)
    ensures p < |Apply(g, s, step).code| && Apply(g, s, step).code[p] == Final(g, p)
  {
    assert ThreadOk(g, s.code, s.threads[step.t]);
  }

  // ----- A method that fused execution takes somewhere else

  /** iload 0, caload, and two handlers that loop: one for the iload, one for the caload. */
  function TwoHandlers(): (g: Program) {
    Program([ILOAD, 0, CALOAD, 0, 0], {0, 2, 3, 4}, (hi, lo) => Entry(I, 0),
            (op, p, h, f, choice) => Next(if p == 0 || p == 2 || p == 3 then p else 4, h, f),
            [Range(0, 1, 4, {NullPointer, OutOfBounds}), Range(2, 3, 3, {NullPointer, OutOfBounds})],
            (e, h) => (h, 1), (e, h, f: Frame) => Next(4, h, f.(depth := f.depth - 1)))
  }

  /** Its loaded bytecodes never come to the iload's handler. */
  lemma {:induction false} OriginalAvoidsHandler(a: AState, picks: seq<Pick>)
    requires forall t | 0 <= t < |a.threads| :: a.threads[t].bcp in {0, 2, 3}
    ensures forall t | 0 <= t < |ARun(TwoHandlers(), a, picks).threads| ::
              ARun(TwoHandlers(), a, picks).threads[t].bcp in {0, 2, 3}
  {
    if picks != [] {
      var g, pick := TwoHandlers(), picks[|picks| - 1];
      var b := ARun(g, a, picks[..|picks| - 1]);
      OriginalAvoidsHandler(a, picks[..|picks| - 1]);
      if pick.t < |b.threads| {
        var th := b.threads[pick.t];
        OriginalStays(th.bcp, b.heap, th.frame, pick.choice);
      }
    }
  }

  lemma OriginalStays(p: nat, h: Heap, f: Frame, choice: int)
    requires p in {0, 2, 3}
    ensures Original(TwoHandlers(), p, h, f, choice).bcp in {0, 2, 3}
  {
    CaloadHandler(NullPointer);
    CaloadHandler(OutOfBounds);
  }

  lemma CaloadHandler(e: Exception)
    ensures FindHandler(TwoHandlers().table, 2, e) == Some(3)
  {
    var table := TwoHandlers().table;
    assert e == NullPointer || e == OutOfBounds;
    assert table[1..][0] == table[1];
    assert FindHandler(table, 2, e) == FindHandler(table[1..], 2, e);
  }

  lemma TwoHandlersIsOk()
    ensures TwoHandlers().Ok()
  {
    var g := TwoHandlers();
    forall p: nat, op | g.At(p, op) ensures op == if p == 0 then ILOAD else if p == 2 then CALOAD else 0 {}
  }

  lemma TwoHandlersDiffer()
    ensures !HandlersAlike(TwoHandlers())
  {
    var g := TwoHandlers();
    CaloadHandler(NullPointer);
    assert FindHandler(g.table, 0, NullPointer) == Some(4);
    assert g.At(0, ILOAD) && g.At(2, CALOAD);
    assert !SameHandler(g, 0, NullPointer);
  }

  /** Two threads at its start, with nothing on the stack. */
  function TwoAtStart(): (s: State) {
    var start := Thread(0, Frame(0, map[], []), Ready);
    State(TwoHandlers().orig, Heap(map[], map[]), [start, start])
  }

  /** The one looks at what follows its iload and installs fast_icaload. */
  function OneHasRewritten(): (s: State) {
    TwoAtStart().(code := TwoHandlers().orig[0 := FAST_ICALOAD],
                  threads := [Thread(0, Frame(0, map[], []), Exec(ILOAD)), TwoAtStart().threads[1]])
  }

  lemma OneRewrites()
    ensures var g, s0, step := TwoHandlers(), TwoAtStart(), Step(0, true, 0);
            var s1 := Apply(g, s0, step);
            |s1.threads| == 2 && var s2 := Apply(g, s1, step);
            |s2.threads| == 2 && Apply(g, s2, step) == OneHasRewritten()
  {
    var g, s0, step := TwoHandlers(), TwoAtStart(), Step(0, true, 0);
    var s2 := Apply(g, Apply(g, s0, step), step);
    assert s2.threads[0].micro == ILoadPatch(FAST_ICALOAD);
  }

  /** The other one executes it, and its null pointer exception goes to the iload's handler. */
  lemma OtherThrows()
    ensures var g, s3, step := TwoHandlers(), OneHasRewritten(), Step(1, true, 0);
            var s4 := Apply(g, s3, step);
            |s4.threads| == 2 && var s5 := Apply(g, s4, step);
            |s5.threads| == 2 && s5.threads[1].bcp == 4 && !s5.threads[1].micro.Finish?
  {
    var g, s3, step := TwoHandlers(), OneHasRewritten(), Step(1, true, 0);
    var s4 := Apply(g, s3, step);
    assert s4.threads[1].micro == Exec(FAST_ICALOAD);
  }

  lemma RewriteAndThrow() returns (states: seq<State>, steps: seq<Step>)
    ensures Run(TwoHandlers(), states, steps) && states[0] == TwoAtStart()
    ensures |states[|steps|].threads| == 2 && AbsThread(states[|steps|].threads[1]).bcp == 4
  {
    var g, s0, a, b := TwoHandlers(), TwoAtStart(), Step(0, true, 0), Step(1, true, 0);
    TwoHandlersIsOk();
    OneRewrites();
    OtherThrows();
    var s1 := Apply(g, s0, a);
    var s2 := Apply(g, s1, a);
    var s3 := Apply(g, s2, a);
    var s4 := Apply(g, s3, b);
    var s5 := Apply(g, s4, b);
    states, steps := [s0, s1, s2, s3, s4, s5], [a, a, a, b, b];
  }

  /** No run of the original stream goes there. */
  lemma HandlerIsLost()
    ensures !HandlersAlike(TwoHandlers())
    ensures exists states: seq<State>, steps: seq<Step> ::
              && Run(TwoHandlers(), states, steps)
              && forall picks :: ARun(TwoHandlers(), Abs(states[0]), picks) != Abs(states[|steps|])
  {
    TwoHandlersDiffer();
    var states, steps := RewriteAndThrow();
    forall picks ensures ARun(TwoHandlers(), Abs(states[0]), picks) != Abs(states[|steps|]) {
      OriginalAvoidsHandler(Abs(states[0]), picks);
      assert Abs(states[|steps|]).threads[1].bcp == 4;
    }
  }
}
