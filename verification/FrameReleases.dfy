/** The frame that remove_activation leaves, seen in the locking protocol of all threads: what
    RemoveActivation takes for one operation and for the doings of other threads is what every run
    of ThinLock shows of the frame's entries, with other threads between any two instructions. */
module FrameReleases {
  import opened Options
  import opened Words
  import opened ThinLock
  import opened ThinLockProofs
  import opened ThinLockTheorems
  import opened RemoveActivation

  /** The block of n entries that ends thread t's frame; an occupied entry is one of the thread's slots. */
  predicate FrameOf(c: Config, s: State, t: nat, block: nat, n: nat)
    requires t < |s.threads|
  {
    forall k | 0 <= k < n :: EntryOf(c, s, t, LockAt(block, k))
  }

  predicate EntryOf(c: Config, s: State, t: nat, a: nat)
    requires t < |s.threads|
  {
    && c.InStack(t, a) && a in s.slots
    && (s.slots[a].obj.Some? ==> UsesSlot(s.threads[t].held, a) || UsesSlot(s.threads[t].left, a))
  }

  // ----- The frame as RemoveActivation has it; object o has the number o + 1, since 0 is NULL

  function Number(o: Option<nat>): (x: nat) { if o.Some? then o.value + 1 else 0 }

  function Objects(s: State, block: nat, n: nat): (obj: seq<nat>)
    requires forall k | 0 <= k < n :: LockAt(block, k) in s.slots
  {
    seq(n, k requires 0 <= k < n => Number(s.slots[LockAt(block, k)].obj))
  }

  function Displaced(s: State, block: nat, n: nat): (displaced: seq<nat>)
    requires forall k | 0 <= k < n :: LockAt(block, k) in s.slots
  {
    seq(n, k requires 0 <= k < n => s.slots[LockAt(block, k)].displaced)
  }

  function Marks(s: State): (m: map<nat, nat>) {
    var m := [0] + s.mark;
    map x: nat | 1 <= x < |m| :: m[x]
  }

  /** In every run, a thread outside the locking code has a frame whose entries are as RemoveActivation
      expects them. */
  lemma FrameIsValid(c: Config, s: State, t: nat, block: nat, n: nat)
    requires Inv(c, s) && t < |s.threads| && s.threads[t].pc.Idle? && FrameOf(c, s, t, block, n)
    ensures EntriesOk(block, Objects(s, block, n), Displaced(s, block, n), Marks(s))
  {
    var th := s.threads[t];
    assert ThreadOk(c, s, t);
    forall k | 0 <= k < n && s.slots[LockAt(block, k)].obj.Some?
      ensures Number(s.slots[LockAt(block, k)].obj) in Marks(s)
      ensures s.slots[LockAt(block, k)].displaced == 0
              || Marks(s)[Number(s.slots[LockAt(block, k)].obj)] == LockAt(block, k)
    {
      assert EntryOf(c, s, t, LockAt(block, k));
      EntryIsRecursiveOrMark(c, s, t, LockAt(block, k));
    }
  }

  lemma EntryIsRecursiveOrMark(c: Config, s: State, t: nat, a: nat)
    requires t < |s.threads| && t < |c.stacks| && ThreadOk(c, s, t) && a in s.slots
    requires UsesSlot(s.threads[t].held, a) || UsesSlot(s.threads[t].left, a)
    ensures s.slots[a].obj.Some? && s.slots[a].obj.value < |s.mark|
    ensures s.slots[a].displaced == 0 || s.mark[s.slots[a].obj.value] == a
  {
    var th := s.threads[t];
    if i :| 0 <= i < |th.held| && th.held[i].slot == a {
      assert SlotOk(s, th.held[i].slot, th.held[i].obj, First(th.held, i));
    }
  }

  /** A step of another thread, or of the runtime, leaves the frame as it is and disturbs no mark that it
      points to from an outermost entry. */
  lemma OthersUndisturb(c: Config, s: State, step: Step, t: nat, block: nat, n: nat)
    requires Inv(c, s) && Enabled(c, s, step) && t < |s.threads| && s.threads[t].pc.Idle?
    requires FrameOf(c, s, t, block, n) && (step.SetHeader? || step.t != t)
    ensures var r := Apply(c, s, step);
            && t < |r.threads| && FrameOf(c, r, t, block, n) && r.threads[t] == s.threads[t]
            && Objects(r, block, n) == Objects(s, block, n) && Displaced(r, block, n) == Displaced(s, block, n)
            && MarksKept(Objects(s, block, n), Displaced(s, block, n), Marks(s), Marks(r))
  {
    var r := Apply(c, s, step);
    StepKeepsInv(c, s, step);
    forall k | 0 <= k < n
      ensures LockAt(block, k) in r.slots && r.slots[LockAt(block, k)] == s.slots[LockAt(block, k)]
      ensures r.threads[t] == s.threads[t]
    {
      assert EntryOf(c, s, t, LockAt(block, k));
      OthersLeaveSlots(c, s, step, t, LockAt(block, k));
    }
    OthersLeaveThread(c, s, step, t);
    FrameIsValid(c, s, t, block, n);
    FrameIsValid(c, r, t, block, n);
  }

  lemma OthersLeaveThread(c: Config, s: State, step: Step, t: nat)
    requires Inv(c, s) && Enabled(c, s, step) && t < |s.threads| && (step.SetHeader? || step.t != t)
    ensures var r := Apply(c, s, step); t < |r.threads| && r.threads[t] == s.threads[t] && |r.mark| == |s.mark|
  {
  }

  /** Between two operations of the thread, however long that is. */
  lemma {:induction false} OthersBetween(
    c: Config, states: seq<State>, steps: seq<Step>, i: nat, j: nat, t: nat, block: nat, n: nat)
    requires Run(c, states, steps) && i <= j < |states|
    requires t < |states[i].threads| && states[i].threads[t].pc.Idle? && FrameOf(c, states[i], t, block, n)
    requires forall q | i <= q < j :: steps[q].SetHeader? || steps[q].t != t
    ensures t < |states[j].threads| && FrameOf(c, states[j], t, block, n) && states[j].threads[t] == states[i].threads[t]
    ensures Objects(states[j], block, n) == Objects(states[i], block, n)
    ensures Displaced(states[j], block, n) == Displaced(states[i], block, n)
    ensures MarksKept(Objects(states[i], block, n), Displaced(states[i], block, n), Marks(states[i]), Marks(states[j]))
    decreases j - i
  {
    if i < j {
      OthersBetween(c, states, steps, i, j - 1, t, block, n);
      RunKeepsInv(c, states, steps, j - 1);
      OthersUndisturb(c, states[j - 1], steps[j - 1], t, block, n);
    }
  }

  // ----- One release

  /** The step that begins the release of slot a: it is the thread's own, or was left behind. */
  predicate Releases(s: State, step: Step, t: nat, a: nat)
    requires t < |s.threads|
  {
    || (step.BeginExit? && step.t == t && step.i < |s.threads[t].held| && s.threads[t].held[step.i].slot == a)
    || (step.BeginClear? && step.t == t && step.i < |s.threads[t].left| && s.threads[t].left[step.i].slot == a)
  }

  /** Thread t, which began to release entry k in state s0, has come this far. */
  predicate Releasing(c: Config, s0: State, s: State, t: nat, block: nat, n: nat, k: nat) {
    var a := LockAt(block, k);
    && t < |s.threads| && k < n && a in s0.slots && s0.slots[a].obj.Some? && |s.mark| == |s0.mark|
    && (forall m | 0 <= m < n && m != k :: EntryStays(c, s0, s, t, LockAt(block, m)))
    && c.InStack(t, a) && a in s.slots && s.slots[a].displaced == s0.slots[a].displaced
    && var o, d, pc := s0.slots[a].obj, s0.slots[a].displaced, s.threads[t].pc;
       match pc
       case LoadHeader(p, b, _) => b == a && Some(p) == o == s.slots[a].obj
       case FreeEntry(p, b, h, _) => b == a && Some(p) == o == s.slots[a].obj && h == d
       case CasOut(p, b, h) => b == a && Some(p) == o && s.slots[a].obj == None && h == d != 0
       case Idle => s.slots[a].obj == None
       case _ => false
  }

  predicate EntryStays(c: Config, s0: State, s: State, t: nat, b: nat)
    requires t < |s.threads|
  {
    EntryOf(c, s, t, b) && b in s0.slots && s.slots[b] == s0.slots[b]
  }

  /** Releasing one slot leaves the others held, or left behind. */
  lemma OthersRemain(th: Thread, i: nat, b: Word)
    requires i < |th.held| && th.held[i].slot != b && (UsesSlot(th.held, b) || UsesSlot(th.left, b))
    ensures UsesSlot(HeldAfter(th.held, i), b) || UsesSlot(th.left + LeftAfter(th.held, i), b)
  {
    var held := th.held;
    var more := LeftAfter(held, i);
    if x :| 0 <= x < |th.left| && th.left[x].slot == b {
      assert (th.left + more)[x].slot == b;
    } else {
      var x :| 0 <= x < |held| && held[x].slot == b;
      if !First(held, i) {
        var rest := held[..i] + held[i + 1..];
        assert rest[if x < i then x else x - 1] == held[x];
      } else if held[x].obj != held[i].obj {
        WithoutIn(held, held[i].obj, held[x]);
        assert held[x] in HeldAfter(held, i);
      } else {
        assert held[i + 1..][x - i - 1] == held[x];
        WithoutIn(held[i + 1..], held[i].obj, held[x]);
        var y :| 0 <= y < |more| && more[y] == held[x];
        assert (th.left + more)[|th.left| + y].slot == b;
      }
    }
  }

  lemma BeginReleasing(c: Config, s: State, step: Step, t: nat, block: nat, n: nat, k: nat)
    requires Inv(c, s) && Enabled(c, s, step) && t < |s.threads| && k < n && FrameOf(c, s, t, block, n)
    requires Releases(s, step, t, LockAt(block, k))
    ensures Releasing(c, s, Apply(c, s, step), t, block, n, k)
    ensures Apply(c, s, step).mark == s.mark && !Apply(c, s, step).threads[t].pc.Idle?
  {
    var r := Apply(c, s, step);
    var th := s.threads[t];
    assert ThreadOk(c, s, t) && EntryOf(c, s, t, LockAt(block, k));
    forall m | 0 <= m < n && m != k ensures EntryStays(c, s, r, t, LockAt(block, m)) {
      var b := LockAt(block, m);
      assert EntryOf(c, s, t, b);
      if s.slots[b].obj.Some? {
        if step.BeginExit? { OthersRemain(th, step.i, b); } else { OthersRemainLeft(th, step.i, b); }
      }
    }
  }

  lemma OthersRemainLeft(th: Thread, i: nat, b: Word)
    requires i < |th.left| && th.left[i].slot != b && (UsesSlot(th.held, b) || UsesSlot(th.left, b))
    ensures UsesSlot(th.held, b) || UsesSlot(th.left[..i] + th.left[i + 1..], b)
  {
    if x :| 0 <= x < |th.left| && th.left[x].slot == b {
      assert (th.left[..i] + th.left[i + 1..])[if x < i then x else x - 1] == th.left[x];
    }
  }

  /** The thread's next instruction: only the CAS changes a mark, and it puts the header back. */
  lemma OwnInstruction(c: Config, s0: State, s: State, t: nat, block: nat, n: nat, k: nat)
    requires Inv(c, s) && Enabled(c, s, Advance(t)) && Releasing(c, s0, s, t, block, n, k)
    ensures var a, pc, r := LockAt(block, k), s.threads[t].pc, Apply(c, s, Advance(t));
            && Releasing(c, s0, r, t, block, n, k)
            && (if pc.CasOut? then
                  s.mark[pc.o] == a && r.mark == s.mark[pc.o := s0.slots[a].displaced] && r.threads[t].pc.Idle?
                else
                  r.mark == s.mark && (r.threads[t].pc.Idle? ==> s0.slots[a].displaced == 0))
  {
    var r := Apply(c, s, Advance(t));
    assert ThreadOk(c, s, t);
    forall m | 0 <= m < n && m != k ensures EntryStays(c, s0, r, t, LockAt(block, m)) {
      assert EntryStays(c, s0, s, t, LockAt(block, m));
    }
  }

  lemma OthersInstruction(c: Config, s0: State, s: State, step: Step, t: nat, block: nat, n: nat, k: nat)
    requires Inv(c, s) && Enabled(c, s, step) && Releasing(c, s0, s, t, block, n, k)
    requires step.SetHeader? || step.t != t
    ensures Releasing(c, s0, Apply(c, s, step), t, block, n, k)
    ensures Apply(c, s, step).threads[t] == s.threads[t]
  {
    var r := Apply(c, s, step);
    OthersLeaveThread(c, s, step, t);
    OthersLeaveSlots(c, s, step, t, LockAt(block, k));
    forall m | 0 <= m < n && m != k ensures EntryStays(c, s0, r, t, LockAt(block, m)) {
      assert EntryStays(c, s0, s, t, LockAt(block, m));
      OthersLeaveSlots(c, s, step, t, LockAt(block, m));
    }
  }

  // ----- Runs

  /** From moment i on, thread t is busy with one release until moment j. */
  predicate BusyUntil(states: seq<State>, t: nat, i: nat, j: nat) {
    && i < j < |states|
    && forall q | i < q < j :: t < |states[q].threads| && !states[q].threads[t].pc.Idle?
  }

  /** The step that puts the header d of object o back, whose mark has been a. */
  predicate PutsBack(states: seq<State>, steps: seq<Step>, p: nat, t: nat, o: nat, a: nat, d: Word) {
    && p < |steps| && p + 1 < |states| && steps[p] == Advance(t)
    && o < |states[p].mark| && states[p].mark[o] == a && states[p + 1].mark == states[p].mark[o := d]
  }

  predicate PutBack(states: seq<State>, steps: seq<Step>, i: nat, j: nat, t: nat, o: nat, a: nat, d: Word) {
    exists p :: i < p < j && PutsBack(states, steps, p, t, o, a, d)
  }

  predicate Others(states: seq<State>, steps: seq<Step>, t: nat, i: nat, j: nat) {
    exists q :: i <= q < j && q < |steps| && (steps[q].SetHeader? || steps[q].t != t)
  }

  /** What has become of the release of entry k, begun at moment i, at moment q. */
  ghost predicate Progress(c: Config, states: seq<State>, steps: seq<Step>, i: nat, q: nat, t: nat, block: nat, n: nat, k: nat) {
    && i < q < |states|
    && Releasing(c, states[i], states[q], t, block, n, k)
    && var slot := states[i].slots[LockAt(block, k)];
       && (states[q].threads[t].pc.Idle? && slot.displaced != 0 ==>
             PutBack(states, steps, i, q, t, slot.obj.value, LockAt(block, k), slot.displaced))
       && (!Others(states, steps, t, i, q) ==>
             states[q].mark ==
             if states[q].threads[t].pc.Idle? && slot.displaced != 0 && slot.obj.value < |states[i].mark|
             then states[i].mark[slot.obj.value := slot.displaced] else states[i].mark)
  }

  lemma {:induction false} ReleaseProgresses(
    c: Config, states: seq<State>, steps: seq<Step>, i: nat, q: nat, t: nat, block: nat, n: nat, k: nat)
    requires Run(c, states, steps) && BusyUntil(states, t, i, q)
    requires t < |states[i].threads| && k < n && FrameOf(c, states[i], t, block, n)
    requires Releases(states[i], steps[i], t, LockAt(block, k))
    ensures Progress(c, states, steps, i, q, t, block, n, k)
    decreases q
  {
    if q == i + 1 {
      FirstProgress(c, states, steps, i, t, block, n, k);
    } else {
      ReleaseProgresses(c, states, steps, i, q - 1, t, block, n, k);
      ProgressOnce(c, states, steps, i, q - 1, t, block, n, k);
    }
  }

  lemma FirstProgress(c: Config, states: seq<State>, steps: seq<Step>, i: nat, t: nat, block: nat, n: nat, k: nat)
    requires Run(c, states, steps) && i + 1 < |states| && t < |states[i].threads| && k < n
    requires FrameOf(c, states[i], t, block, n) && Releases(states[i], steps[i], t, LockAt(block, k))
    ensures Progress(c, states, steps, i, i + 1, t, block, n, k)
  {
    RunKeepsInv(c, states, steps, i);
    BeginReleasing(c, states[i], steps[i], t, block, n, k);
  }

  lemma ProgressOnce(c: Config, states: seq<State>, steps: seq<Step>, i: nat, q: nat, t: nat, block: nat, n: nat, k: nat)
    requires Run(c, states, steps) && q + 1 < |states|
    requires Progress(c, states, steps, i, q, t, block, n, k) && !states[q].threads[t].pc.Idle?
    ensures Progress(c, states, steps, i, q + 1, t, block, n, k)
  {
    var s, r, step := states[q], states[q + 1], steps[q];
    var a := LockAt(block, k);
    var slot := states[i].slots[a];
    RunKeepsInv(c, states, steps, q);
    if step.SetHeader? || step.t != t {
      OthersInstruction(c, states[i], s, step, t, block, n, k);
      assert Others(states, steps, t, i, q + 1);
    } else {
      assert step == Advance(t);
      OwnInstruction(c, states[i], s, t, block, n, k);
      if s.threads[t].pc.CasOut? {
        assert PutsBack(states, steps, q, t, slot.obj.value, a, slot.displaced);
      }
      assert Others(states, steps, t, i, q) ==> Others(states, steps, t, i, q + 1);
    }
  }

  /** Between moments i and j the entry k was released as Activation.UnlockObject does it, without the
      runtime, and no other outermost entry was disturbed. An outermost entry's header was put back at
      one moment; without other threads that is all that happened to the marks. */
  predicate IsUnlockObject(c: Config, states: seq<State>, steps: seq<Step>, i: nat, j: nat, t: nat, block: nat, n: nat, k: nat)
    requires i < |states| && j < |states| && t < |states[i].threads| && t < |states[j].threads| && k < n
    requires FrameOf(c, states[i], t, block, n) && FrameOf(c, states[j], t, block, n)
  {
    var was, now := Objects(states[i], block, n), Objects(states[j], block, n);
    var displaced, m0, m1 := Displaced(states[i], block, n), Marks(states[i]), Marks(states[j]);
    var o, a, d := was[k], LockAt(block, k), displaced[k];
    && o != 0 && o in m0 && (d != 0 ==> m0[o] == a)
    && now == was[k := 0] && Displaced(states[j], block, n) == displaced
    && MarksKept(now, displaced, m0, m1)
    && (d != 0 ==> PutBack(states, steps, i, j, t, o - 1, a, d))
    && (!Others(states, steps, t, i, j) ==> m1 == if d == 0 then m0 else m0[o := d])
  }

  /** So it is in every run, with any steps of other threads between the instructions of the release. */
  lemma ReleaseIsUnlockObject(
    c: Config, states: seq<State>, steps: seq<Step>, i: nat, j: nat, t: nat, block: nat, n: nat, k: nat)
    requires Run(c, states, steps) && BusyUntil(states, t, i, j)
    requires t < |states[i].threads| && states[i].threads[t].pc.Idle?
    requires k < n && FrameOf(c, states[i], t, block, n) && Releases(states[i], steps[i], t, LockAt(block, k))
    requires t < |states[j].threads| && states[j].threads[t].pc.Idle?
    ensures FrameOf(c, states[j], t, block, n)
    ensures IsUnlockObject(c, states, steps, i, j, t, block, n, k)
  {
    ReleaseProgresses(c, states, steps, i, j, t, block, n, k);
    RunKeepsInv(c, states, steps, i);
    RunKeepsInv(c, states, steps, j);
    ReleaseIsDone(c, states, steps, i, j, t, block, n, k);
  }

  lemma ReleaseIsDone(
    c: Config, states: seq<State>, steps: seq<Step>, i: nat, j: nat, t: nat, block: nat, n: nat, k: nat)
    requires i < j < |states| && Inv(c, states[i]) && Inv(c, states[j]) && Progress(c, states, steps, i, j, t, block, n, k)
    requires t < |states[i].threads| && states[i].threads[t].pc.Idle? && FrameOf(c, states[i], t, block, n)
    requires states[j].threads[t].pc.Idle?
    ensures FrameOf(c, states[j], t, block, n)
    ensures IsUnlockObject(c, states, steps, i, j, t, block, n, k)
  {
    FrameAfter(c, states[i], states[j], t, block, n, k);
    MarksAfter(c, states[i], states[j], t, block, n, k);
    var slot := states[i].slots[LockAt(block, k)];
    if states[j].mark == states[i].mark[slot.obj.value := slot.displaced] {
      MarksUpdate(states[i], states[j], slot.obj.value, slot.displaced);
    }
  }

  lemma MarksUpdate(s0: State, s: State, o: nat, d: Word)
    requires o < |s0.mark| && s.mark == s0.mark[o := d]
    ensures Marks(s) == Marks(s0)[o + 1 := d]
  {
    assert [0] + s.mark == ([0] + s0.mark)[o + 1 := d];
  }

  /** Both before and after it, the outermost entries are their objects' marks. */
  lemma MarksAfter(c: Config, s0: State, s: State, t: nat, block: nat, n: nat, k: nat)
    requires Inv(c, s0) && Inv(c, s) && |s.mark| == |s0.mark| && k < n
    requires t < |s0.threads| && s0.threads[t].pc.Idle? && FrameOf(c, s0, t, block, n)
    requires t < |s.threads| && s.threads[t].pc.Idle? && FrameOf(c, s, t, block, n)
    requires s0.slots[LockAt(block, k)].obj.Some? && Displaced(s, block, n) == Displaced(s0, block, n)
    requires Objects(s, block, n) == Objects(s0, block, n)[k := 0]
    ensures MarksKept(Objects(s, block, n), Displaced(s, block, n), Marks(s0), Marks(s))
    ensures var o, d := Objects(s0, block, n)[k], Displaced(s0, block, n)[k];
            o != 0 && o in Marks(s0) && (d != 0 ==> Marks(s0)[o] == LockAt(block, k))
  {
    FrameIsValid(c, s0, t, block, n);
    FrameIsValid(c, s, t, block, n);
  }

  lemma FrameAfter(c: Config, s0: State, s: State, t: nat, block: nat, n: nat, k: nat)
    requires t < |s0.threads| && FrameOf(c, s0, t, block, n) && Releasing(c, s0, s, t, block, n, k) && s.threads[t].pc.Idle?
    ensures FrameOf(c, s, t, block, n)
    ensures Displaced(s, block, n) == Displaced(s0, block, n) && Objects(s, block, n) == Objects(s0, block, n)[k := 0]
  {
    forall m | 0 <= m < n
      ensures EntryOf(c, s, t, LockAt(block, m))
      ensures m != k ==> s.slots[LockAt(block, m)] == s0.slots[LockAt(block, m)]
    {
      if m != k { assert EntryStays(c, s0, s, t, LockAt(block, m)); }
    }
  }
}
