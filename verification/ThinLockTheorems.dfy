/** What the stack-locking invariant means for whole runs: mutual exclusion, the shape of the mark
    word, conservation of the header, and the unlock path that never reaches the runtime. */
module ThinLockTheorems {
  import opened Options
  import opened Words
  import opened ThinLock
  import opened ThinLockProofs

  /** A run from an initial state, under any interleaving of the threads' steps. */
  ghost predicate Run(c: Config, states: seq<State>, steps: seq<Step>) {
    && c.Ok()
    && |states| == |steps| + 1
    && Init(c, states[0])
    && (forall i | 0 <= i < |states| ::
          |states[i].threads| == |c.stacks| && |states[i].mark| == |states[i].owner|)
    && (forall i | 0 <= i < |steps| ::
          Enabled(c, states[i], steps[i]) && states[i + 1] == Apply(c, states[i], steps[i]))
  }

  lemma {:induction false} RunKeepsInv(c: Config, states: seq<State>, steps: seq<Step>, i: nat)
    requires Run(c, states, steps) && i < |states|
    ensures Inv(c, states[i])
  {
    if i == 0 {
    } else {
      RunKeepsInv(c, states, steps, i - 1);
      StepKeepsInv(c, states[i - 1], steps[i - 1]);
    }
  }

  /** Two threads never hold the same object, not even while one of them is still leaving it. */
  lemma MutualExclusion(c: Config, states: seq<State>, steps: seq<Step>, i: nat, t: nat, u: nat, o: nat)
    requires Run(c, states, steps) && i < |states|
    requires t < |states[i].threads| && u < |states[i].threads| && o < |states[i].mark|
    requires Occupies(states[i].threads[t], o) && Occupies(states[i].threads[u], o)
    ensures t == u
  {
    RunKeepsInv(c, states, steps, i);
    assert ThreadOk(c, states[i], t) && ThreadOk(c, states[i], u);
  }

  /** The mark of o is its header while nobody holds o.  Otherwise one thread t holds every slot of o:
      its first slot is the mark and stores the header, and all later ones store 0. */
  lemma MarkShape(c: Config, states: seq<State>, steps: seq<Step>, i: nat, o: nat)
    requires Run(c, states, steps) && i < |states| && o < |states[i].mark|
    ensures var s := states[i];
            if Neutral(s.mark[o]) then
              forall u | 0 <= u < |s.threads| :: !Occupies(s.threads[u], o)
            else
              exists t :: 0 <= t < |s.threads| && OwnedBy(c, s, o, t)
  {
    RunKeepsInv(c, states, steps, i);
    var s := states[i];
    assert ObjectOk(c, s, o);
    forall u | 0 <= u < |s.threads| && s.owner[o] != Some(u) ensures !Occupies(s.threads[u], o) {
      NobodyHolds(c, s, u, o);
    }
    if s.owner[o].Some? {
      OwnerOwns(c, s, o, s.owner[o].value);
    }
  }

  lemma OwnerOwns(c: Config, s: State, o: nat, t: nat)
    requires Inv(c, s) && o < |s.mark| && s.owner[o] == Some(t)
    ensures t < |s.threads| && OwnedBy(c, s, o, t)
  {
    assert ObjectOk(c, s, o);
    assert ThreadOk(c, s, t);
    OuterSlot(c, s, t, o);
    forall u | 0 <= u < |s.threads| && u != t ensures !Occupies(s.threads[u], o) {
      NobodyHolds(c, s, u, o);
    }
    forall i | 0 <= i < |s.threads[t].held| && s.threads[t].held[i].obj == o
      ensures SlotRole(s, s.threads[t].held, i)
    {
      SlotRoles(c, s, t, s.threads[t].rsp, s.threads[t].held, i);
    }
  }

  lemma SlotRoles(c: Config, s: State, t: nat, rsp: Word, held: seq<Held>, i: nat)
    requires t < |c.stacks| && HeldOk(c, s, t, rsp, held) && i < |held|
    ensures held[i].obj < |s.mark| && SlotRole(s, held, i)
  {
    var f := FirstOf(held, held[i].obj);
    assert SlotOk(s, held[i].slot, held[i].obj, First(held, i));
    assert SlotOk(s, held[f].slot, held[f].obj, First(held, f));
  }

  /** The first slot of an object is its mark and keeps the header; a later one keeps 0. */
  predicate SlotRole(s: State, held: seq<Held>, i: nat)
    requires i < |held| && held[i].obj < |s.mark|
  {
    var a := held[i].slot;
    && a in s.slots
    && (a == s.mark[held[i].obj] <==> First(held, i))
    && (if First(held, i) then Neutral(s.slots[a].displaced) else s.slots[a].displaced == 0)
  }

  /** Thread t owns o alone, through the slot that o's mark points to. */
  predicate OwnedBy(c: Config, s: State, o: nat, t: nat)
    requires o < |s.mark| && t < |s.threads|
  {
    && Occupies(s.threads[t], o)
    && c.InStack(t, s.mark[o])
    && (UsesSlot(s.threads[t].held, s.mark[o]) || (s.threads[t].pc.Exiting() && s.threads[t].pc.a == s.mark[o]))
    && (forall u | 0 <= u < |s.threads| && u != t :: !Occupies(s.threads[u], o))
    && (forall i | 0 <= i < |s.threads[t].held| && s.threads[t].held[i].obj == o ::
          SlotRole(s, s.threads[t].held, i))
  }

  /** The object's header, wherever it is kept at the moment. */
  function Header(s: State, o: nat): (h: Word)
    requires o < |s.mark|
  {
    if Neutral(s.mark[o]) then s.mark[o]
    else if s.mark[o] in s.slots then s.slots[s.mark[o]].displaced
    else 0
  }

  /** No locking or unlocking step changes the header of any object. */
  lemma StepKeepsHeader(c: Config, s: State, step: Step, o: nat)
    requires Inv(c, s) && Enabled(c, s, step) && o < |s.mark|
    requires step.SetHeader? ==> step.o != o
    ensures Header(Apply(c, s, step), o) == Header(s, o)
  {
    assert ObjectOk(c, s, o);
    match step
    case MoveRsp(t, rsp) =>
    case SetHeader(_, _) =>
    case BeginExit(t, i) =>
    case BeginClear(t, i) =>
    case BeginEnter(t, _, a, _) =>
      if s.owner[o].Some? { FreshSlotIsNoMark(c, s, t, a, o); }
    case Advance(t) =>
      AdvanceKeepsHeader(c, s, t, o);
  }

  lemma AdvanceKeepsHeader(c: Config, s: State, t: nat, o: nat)
    requires Inv(c, s) && Enabled(c, s, Advance(t)) && o < |s.mark|
    ensures Header(Apply(c, s, Advance(t)), o) == Header(s, o)
  {
    assert ObjectOk(c, s, o) && ThreadOk(c, s, t);
    if s.owner[o].Some? && s.threads[t].pc.Entering() {
      FreshSlotIsNoMark(c, s, t, s.threads[t].pc.a, o);
    }
  }

  lemma OneStepKeepsHeader(c: Config, states: seq<State>, steps: seq<Step>, k: nat, o: nat)
    requires Run(c, states, steps) && k < |steps| && o < |states[k].mark|
    requires steps[k].SetHeader? ==> steps[k].o != o
    ensures |states[k + 1].mark| == |states[k].mark| && Header(states[k + 1], o) == Header(states[k], o)
  {
    RunKeepsInv(c, states, steps, k);
    StepKeepsHeader(c, states[k], steps[k], o);
  }

  lemma {:induction false} HeaderKept(c: Config, states: seq<State>, steps: seq<Step>, i: nat, j: nat, o: nat)
    requires Run(c, states, steps) && i <= j < |states| && o < |states[i].mark|
    requires forall k | i <= k < j :: steps[k].SetHeader? ==> steps[k].o != o
    ensures |states[j].mark| == |states[i].mark| && Header(states[j], o) == Header(states[i], o)
    decreases j - i
  {
    if i < j {
      HeaderKept(c, states, steps, i, j - 1, o);
      OneStepKeepsHeader(c, states, steps, j - 1, o);
    }
  }

  /** Between two moments of a run without a header rewrite by the runtime, o's header is the same;
      so when o is unlocked at both, its mark is the same bit for bit. */
  lemma HeaderConserved(c: Config, states: seq<State>, steps: seq<Step>, i: nat, j: nat, o: nat)
    requires Run(c, states, steps) && i <= j < |states| && o < |states[i].mark|
    requires forall k | i <= k < j :: steps[k].SetHeader? ==> steps[k].o != o
    ensures |states[j].mark| == |states[i].mark|
    ensures Header(states[j], o) == Header(states[i], o)
    ensures Neutral(states[i].mark[o]) && Neutral(states[j].mark[o]) ==> states[j].mark[o] == states[i].mark[o]
  {
    HeaderKept(c, states, steps, i, j, o);
  }

  /** The CAS of unlock_object never fails, so unlocking never calls the runtime; every other step
      of a lock or unlock in flight can be taken, except that slow_enter waits for another owner. */
  lemma OnlyContentionWaits(c: Config, states: seq<State>, steps: seq<Step>, i: nat, t: nat)
    requires Run(c, states, steps) && i < |states| && t < |states[i].threads|
    ensures var s := states[i];
            var pc := s.threads[t].pc;
            && !pc.SlowExit?
            && (pc.CasOut? ==> pc.o < |s.mark| && s.mark[pc.o] == pc.a)
            && (!pc.Idle? && !Enabled(c, s, Advance(t)) ==>
                  pc.SlowEnter? && exists u :: 0 <= u < |s.threads| && u != t && Occupies(s.threads[u], pc.o))
  {
    RunKeepsInv(c, states, steps, i);
    var s := states[i];
    assert ThreadOk(c, s, t);
    var pc := s.threads[t].pc;
    if pc.SlowEnter? && !SlowEnterReady(c, s, t, pc.o) {
      assert ObjectOk(c, s, pc.o);
      var u := s.owner[pc.o].value;
      assert Occupies(s.threads[u], pc.o);
    }
  }

  /** The one-instruction test decides recursion: it yields 0 only for a thread that holds the object
      already, and always does when the object's slot lies within a page above the stack pointer. */
  lemma TestDecidesRecursion(c: Config, states: seq<State>, steps: seq<Step>, i: nat, t: nat)
    requires Run(c, states, steps) && i < |states| && t < |states[i].threads|
    requires states[i].threads[t].pc.TestStack?
    ensures var s := states[i];
            var th := s.threads[t];
            && (StackTest(c, th.pc.rax, th.rsp) == 0 ==> Holds(th.held, th.pc.o))
            && (Holds(th.held, th.pc.o) && th.pc.o < |s.mark| && th.pc.rax == s.mark[th.pc.o] ==>
                  (StackTest(c, th.pc.rax, th.rsp) == 0 <==> th.pc.rax < th.rsp + c.PageSize()))
  {
    RunKeepsInv(c, states, steps, i);
    var s := states[i];
    var th := s.threads[t];
    assert ThreadOk(c, s, t);
    StackTestMeaning(c, th.pc.rax, th.rsp);
    if StackTest(c, th.pc.rax, th.rsp) == 0 {
      var u :| c.InStack(u, th.pc.rax);
      WindowIsOwn(c, t, u, th.rsp, th.pc.rax);
      assert ObjectOk(c, s, th.pc.o);
    }
    if Holds(th.held, th.pc.o) {
      OuterSlot(c, s, t, th.pc.o);
    }
  }

  // ----- Frames with unbalanced monitors

  /** In whatever order a thread releases its slots: an entry that is still there stores 0, or its
      object's mark points to it. */
  lemma EntriesAreValid(c: Config, states: seq<State>, steps: seq<Step>, n: nat, t: nat, i: nat)
    requires Run(c, states, steps) && n < |states| && t < |states[n].threads|
    ensures var s := states[n];
            var th := s.threads[t];
            && (i < |th.held| ==>
                  th.held[i].slot in s.slots && th.held[i].obj < |s.mark|
                  && (s.slots[th.held[i].slot].displaced == 0 || s.mark[th.held[i].obj] == th.held[i].slot))
            && (i < |th.left| ==> th.left[i].slot in s.slots && s.slots[th.left[i].slot].displaced == 0)
  {
    RunKeepsInv(c, states, steps, n);
    var s := states[n];
    assert ThreadOk(c, s, t);
    var held := s.threads[t].held;
    if i < |held| { assert SlotOk(s, held[i].slot, held[i].obj, First(held, i)); }
  }

  /** A slot that was left behind is no object's mark, so clearing it unlocks nothing. */
  lemma LeftSlotsAreInert(c: Config, states: seq<State>, steps: seq<Step>, n: nat, t: nat, i: nat, o: nat)
    requires Run(c, states, steps) && n < |states| && t < |states[n].threads|
    requires i < |states[n].threads[t].left| && o < |states[n].mark|
    ensures states[n].mark[o] != states[n].threads[t].left[i].slot
  {
    RunKeepsInv(c, states, steps, n);
    var s := states[n];
    assert ThreadOk(c, s, t) && ObjectOk(c, s, o);
    if s.owner[o].Some? {
      FreshSlotIsNoMark(c, s, t, s.threads[t].left[i].slot, o);
    }
  }

  /** What a thread owns is left alone by all others, which is why the removal of its frame may be
      followed on its own: the marks of its objects, */
  lemma OthersLeaveMarks(c: Config, s: State, step: Step, t: nat, o: nat)
    requires Inv(c, s) && Enabled(c, s, step) && t < |s.threads| && o < |s.mark|
    requires step.SetHeader? || step.t != t
    requires Occupies(s.threads[t], o)
    ensures Apply(c, s, step).mark[o] == s.mark[o]
  {
    assert ThreadOk(c, s, t) && ObjectOk(c, s, o);
    if step.Advance? { OtherAdvances(c, s, step.t, o); }
  }

  /** A thread changes only the marks of objects that nobody owns, or that it owns itself. */
  lemma OtherAdvances(c: Config, s: State, u: nat, o: nat)
    requires Inv(c, s) && Enabled(c, s, Advance(u)) && o < |s.mark|
    requires s.owner[o].Some? && s.owner[o] != Some(u)
    ensures Apply(c, s, Advance(u)).mark[o] == s.mark[o]
  {
    assert ThreadOk(c, s, u) && ObjectOk(c, s, o);
  }

  /** and its slots and registers. */
  lemma OthersLeaveSlots(c: Config, s: State, step: Step, t: nat, a: Word)
    requires Inv(c, s) && Enabled(c, s, step) && t < |s.threads| && a in s.slots && c.InStack(t, a)
    requires step.SetHeader? || step.t != t
    ensures a in Apply(c, s, step).slots && Apply(c, s, step).slots[a] == s.slots[a]
    ensures Apply(c, s, step).threads[t] == s.threads[t]
  {
    if !step.SetHeader? {
      assert ThreadOk(c, s, step.t);
      if c.InStack(step.t, a) { StacksDisjoint(c, t, step.t, a); }
    }
  }
}
