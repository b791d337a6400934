/** Which acquisition a monitor slot stands for: the slot machine of monitorenter and monitorexit
    releases, for every object, the most recent acquisition first. */
module MonitorOrder {
  import opened MonitorSlots

  datatype Op = Enter(obj: nat) | Exit(obj: nat)

  /** An acquisition that has not been released: its object and its place in time. */
  datatype Acquisition = Acquisition(obj: nat, time: nat)

  /** A frame's entries, the time each was last taken, and the number of acquisitions so far. */
  datatype Frame = Frame(es: seq<Entry>, times: seq<nat>, clock: nat)

  ghost predicate Shaped(f: Frame) {
    |f.es| == |f.times|
  }

  /** The effect of MonitorEnter and MonitorExit on the slots; growing leaves junk in the new header. */
  function Step(f: Frame, op: Op, junk: nat): (f': Frame)
    requires Shaped(f)
    ensures Shaped(f')
  {
    match op
    case Enter(obj) =>
      if obj == 0 then f else
        var i := Choice(f.es, obj);
        if i >= 0 then Frame(f.es[i := f.es[i].(obj := obj)], f.times[i := f.clock], f.clock + 1)
        else Frame([Entry(junk, obj)] + f.es, [f.clock] + f.times, f.clock + 1)
    case Exit(obj) =>
      var i := TopIndex(f.es, obj);
      if obj == 0 || i == |f.es| then f else f.(es := f.es[i := f.es[i].(obj := 0)])
  }

  /** The index of the last acquisition of obj, or -1. */
  function LastIndex(held: seq<Acquisition>, obj: nat): (i: int)
    ensures -1 <= i < |held|
    ensures i >= 0 ==> held[i].obj == obj
    ensures forall j | i < j < |held| :: held[j].obj != obj
  {
    if held == [] then -1
    else if held[|held| - 1].obj == obj then |held| - 1
    else LastIndex(held[..|held| - 1], obj)
  }

  /** Block structure as a list of acquisitions: enter appends, exit removes the object's last. */
  function HeldStep(held: seq<Acquisition>, op: Op, clock: nat): seq<Acquisition> {
    match op
    case Enter(obj) => if obj == 0 then held else held + [Acquisition(obj, clock)]
    case Exit(obj) =>
      var i := LastIndex(held, obj);
      if obj == 0 || i < 0 then held else held[..i] + held[i + 1..]
  }

  function Run(f: Frame, ops: seq<Op>, junk: seq<nat>): (f': Frame)
    requires Shaped(f) && |junk| == |ops|
    ensures Shaped(f')
    decreases |ops|
  {
    if ops == [] then f
    else
      var n := |ops| - 1;
      Step(Run(f, ops[..n], junk[..n]), ops[n], junk[n])
  }

  function HeldRun(f: Frame, held: seq<Acquisition>, ops: seq<Op>, junk: seq<nat>): seq<Acquisition>
    requires Shaped(f) && |junk| == |ops|
    decreases |ops|
  {
    if ops == [] then held
    else
      var n := |ops| - 1;
      HeldStep(HeldRun(f, held, ops[..n], junk[..n]), ops[n], Run(f, ops[..n], junk[..n]).clock)
  }

  function At(f: Frame, i: nat): Acquisition
    requires Shaped(f) && i < |f.es|
  {
    Acquisition(f.es[i].obj, f.times[i])
  }

  /** Slots of one object are ordered in time from the top down; the occupied slots are exactly the
      pending acquisitions. */
  ghost predicate Agree(f: Frame, held: seq<Acquisition>) {
    && Shaped(f)
    && Ordered(f)
    && (forall i | 0 <= i < |f.es| && f.es[i].obj != 0 :: Pending(held, At(f, i)))
    && (forall k | 0 <= k < |held| :: Occupied(f, held[k]))
    && (forall k | 0 <= k < |held| :: held[k].obj != 0 && held[k].time < f.clock)
    && (forall k, l | 0 <= k < l < |held| :: held[k].time < held[l].time)
  }

  ghost predicate Ordered(f: Frame)
    requires Shaped(f)
  {
    && (forall i, j | 0 <= i < j < |f.es| && f.es[i].obj == f.es[j].obj != 0 :: f.times[i] > f.times[j])
    && (forall i | 0 <= i < |f.es| :: f.times[i] < f.clock)
  }

  ghost predicate Occupied(f: Frame, a: Acquisition)
    requires Shaped(f)
  {
    exists i :: 0 <= i < |f.es| && At(f, i) == a
  }

  ghost predicate Pending(held: seq<Acquisition>, a: Acquisition) {
    exists k :: 0 <= k < |held| && held[k] == a
  }

  /** The slot that monitorexit frees is the last pending acquisition of its object, and there is
      one exactly when there is a pending acquisition. */
  lemma ExitIsMostRecent(f: Frame, held: seq<Acquisition>, obj: nat)
    requires Agree(f, held) && obj != 0
    ensures TopIndex(f.es, obj) == |f.es| <==> LastIndex(held, obj) == -1
    ensures TopIndex(f.es, obj) < |f.es| ==> At(f, TopIndex(f.es, obj)) == held[LastIndex(held, obj)]
  {
    var i, k := TopIndex(f.es, obj), LastIndex(held, obj);
    if k >= 0 {
      assert Occupied(f, held[k]);
    }
    if i < |f.es| {
      assert Pending(held, At(f, i));
    }
    if k >= 0 && i < |f.es| {
      TopIsLast(f, held, obj);
    }
  }

  lemma TopIsLast(f: Frame, held: seq<Acquisition>, obj: nat)
    requires Agree(f, held) && obj != 0 && LastIndex(held, obj) >= 0 && TopIndex(f.es, obj) < |f.es|
    ensures At(f, TopIndex(f.es, obj)) == held[LastIndex(held, obj)]
  {
    var i, k := TopIndex(f.es, obj), LastIndex(held, obj);
    assert Occupied(f, held[k]) && Pending(held, At(f, i));
    var j :| 0 <= j < |f.es| && At(f, j) == held[k];
    var l :| 0 <= l < |held| && held[l] == At(f, i);
    TopIsOnly(f, held, i, j, l, k);
  }

  /** Of two slots of one object the upper one is the later. */
  lemma TopIsOnly(f: Frame, held: seq<Acquisition>, i: nat, j: nat, l: nat, k: nat)
    requires Shaped(f) && Ordered(f) && i <= j < |f.es| && l <= k < |held|
    requires forall m, n | 0 <= m < n < |held| :: held[m].time < held[n].time
    requires f.es[i].obj == f.es[j].obj != 0 && f.times[i] == held[l].time && f.times[j] == held[k].time
    ensures i == j
  {
  }

  lemma EnterKeepsOrder(f: Frame, obj: nat, junk: nat)
    requires Shaped(f) && Ordered(f) && obj != 0
    ensures Ordered(Step(f, Enter(obj), junk))
  {
    var f' := Step(f, Enter(obj), junk);
    var k := Choice(f.es, obj);
    if k < 0 {
      forall i, j | 0 <= i < j < |f'.es| && f'.es[i].obj == f'.es[j].obj != 0 ensures f'.times[i] > f'.times[j] {
        assert f'.es[j] == f.es[j - 1] && f'.times[j] == f.times[j - 1];
        assert i > 0 ==> f'.es[i] == f.es[i - 1] && f'.times[i] == f.times[i - 1];
      }
    }
  }

  /** Entering leaves every occupied slot occupied by the same acquisition, and adds the new one. */
  lemma EnterSlots(f: Frame, obj: nat, junk: nat, a: Acquisition)
    requires Shaped(f) && obj != 0 && a.obj != 0
    ensures Occupied(Step(f, Enter(obj), junk), a) <==> Occupied(f, a) || a == Acquisition(obj, f.clock)
  {
    var f' := Step(f, Enter(obj), junk);
    var i := Choice(f.es, obj);
    var e := if i >= 0 then i else 0;
    assert At(f', e) == Acquisition(obj, f.clock);
    if Occupied(f, a) {
      var j :| 0 <= j < |f.es| && At(f, j) == a;
      assert At(f', if i >= 0 then j else j + 1) == a;
    }
    if Occupied(f', a) && a != Acquisition(obj, f.clock) {
      var j :| 0 <= j < |f'.es| && At(f', j) == a;
      assert At(f, if i >= 0 then j else j - 1) == a;
    }
  }

  lemma EnterKeepsAgreement(f: Frame, held: seq<Acquisition>, obj: nat, junk: nat)
    requires Agree(f, held)
    ensures Agree(Step(f, Enter(obj), junk), HeldStep(held, Enter(obj), f.clock))
  {
    if obj != 0 {
      var f', held' := Step(f, Enter(obj), junk), HeldStep(held, Enter(obj), f.clock);
      EnterKeepsOrder(f, obj, junk);
      assert held'[|held|] == Acquisition(obj, f.clock);
      forall k | 0 <= k < |held'| ensures Occupied(f', held'[k]) {
        EnterSlots(f, obj, junk, held'[k]);
      }
      forall j | 0 <= j < |f'.es| && f'.es[j].obj != 0 ensures Pending(held', At(f', j)) {
        EnterSlots(f, obj, junk, At(f', j));
        PendingAppend(f, held, Acquisition(obj, f.clock), At(f', j));
      }
    }
  }

  lemma PendingAppend(f: Frame, held: seq<Acquisition>, latest: Acquisition, a: Acquisition)
    requires Agree(f, held) && a.obj != 0 && (Occupied(f, a) || a == latest)
    ensures Pending(held + [latest], a)
  {
    if a == latest {
      assert (held + [latest])[|held|] == a;
    } else {
      var i :| 0 <= i < |f.es| && At(f, i) == a;
      var k :| 0 <= k < |held| && held[k] == a;
      assert (held + [latest])[k] == a;
    }
  }

  lemma ExitKeepsOrder(f: Frame, obj: nat, junk: nat)
    requires Shaped(f) && Ordered(f)
    ensures Ordered(Step(f, Exit(obj), junk))
  {
  }

  /** Leaving frees exactly one occupied slot. */
  lemma ExitSlots(f: Frame, obj: nat, junk: nat, a: Acquisition)
    requires Shaped(f) && Ordered(f) && obj != 0 && TopIndex(f.es, obj) < |f.es| && a.obj != 0
    ensures Occupied(Step(f, Exit(obj), junk), a) <==> Occupied(f, a) && a != At(f, TopIndex(f.es, obj))
  {
    var f' := Step(f, Exit(obj), junk);
    var i := TopIndex(f.es, obj);
    if Occupied(f, a) && a != At(f, i) {
      var j :| 0 <= j < |f.es| && At(f, j) == a;
      assert At(f', j) == a;
    }
    if Occupied(f', a) {
      var j :| 0 <= j < |f'.es| && At(f', j) == a;
      assert At(f, j) == a && j != i;
    }
  }

  lemma PendingRemove(held: seq<Acquisition>, k: nat, a: Acquisition)
    requires k < |held| && forall i, j | 0 <= i < j < |held| :: held[i].time < held[j].time
    ensures Pending(held[..k] + held[k + 1..], a) <==> Pending(held, a) && a != held[k]
  {
    var rest := held[..k] + held[k + 1..];
    if Pending(held, a) && a != held[k] {
      var l :| 0 <= l < |held| && held[l] == a;
      assert rest[if l < k then l else l - 1] == a;
    }
  }

  lemma ExitFreesTheSame(f: Frame, held: seq<Acquisition>, obj: nat, junk: nat, a: Acquisition)
    requires Agree(f, held) && obj != 0 && TopIndex(f.es, obj) < |f.es| && a.obj != 0
    ensures LastIndex(held, obj) >= 0
    ensures Occupied(Step(f, Exit(obj), junk), a) <==> Pending(HeldStep(held, Exit(obj), f.clock), a)
  {
    ExitIsMostRecent(f, held, obj);
    ExitSlots(f, obj, junk, a);
    PendingRemove(held, LastIndex(held, obj), a);
  }

  lemma ExitKeepsTimes(held: seq<Acquisition>, obj: nat, clock: nat)
    requires forall k | 0 <= k < |held| :: held[k].obj != 0 && held[k].time < clock
    requires forall k, l | 0 <= k < l < |held| :: held[k].time < held[l].time
    ensures var rest := HeldStep(held, Exit(obj), clock);
            && (forall k | 0 <= k < |rest| :: rest[k].obj != 0 && rest[k].time < clock)
            && (forall k, l | 0 <= k < l < |rest| :: rest[k].time < rest[l].time)
  {
  }

  lemma ExitKeepsAgreement(f: Frame, held: seq<Acquisition>, obj: nat, junk: nat)
    requires Agree(f, held)
    ensures Agree(Step(f, Exit(obj), junk), HeldStep(held, Exit(obj), f.clock))
  {
    if obj == 0 {
    } else if TopIndex(f.es, obj) == |f.es| {
      ExitIsMostRecent(f, held, obj);
    } else {
      var f', held' := Step(f, Exit(obj), junk), HeldStep(held, Exit(obj), f.clock);
      ExitKeepsOrder(f, obj, junk);
      ExitKeepsTimes(held, obj, f.clock);
      forall l | 0 <= l < |held'| ensures Occupied(f', held'[l]) {
        assert Pending(held', held'[l]);
        ExitFreesTheSame(f, held, obj, junk, held'[l]);
      }
      forall j | 0 <= j < |f'.es| && f'.es[j].obj != 0 ensures Pending(held', At(f', j)) {
        assert Occupied(f', At(f', j));
        ExitFreesTheSame(f, held, obj, junk, At(f', j));
      }
    }
  }

  /** Over any sequence of monitorenter and monitorexit, the slots stay in agreement with the list
      of acquisitions. */
  lemma {:induction false} RunAgrees(f: Frame, held: seq<Acquisition>, ops: seq<Op>, junk: seq<nat>)
    requires Agree(f, held) && |junk| == |ops|
    ensures Agree(Run(f, ops, junk), HeldRun(f, held, ops, junk))
    decreases |ops|
  {
    if ops != [] {
      var n := |ops| - 1;
      RunAgrees(f, held, ops[..n], junk[..n]);
      var g, h := Run(f, ops[..n], junk[..n]), HeldRun(f, held, ops[..n], junk[..n]);
      match ops[n]
      case Enter(obj) => EnterKeepsAgreement(g, h, obj, junk[n]);
      case Exit(obj) => ExitKeepsAgreement(g, h, obj, junk[n]);
    }
  }

  /** A new frame, with the method's own lock in the bottom slot if it is synchronized, releases the
      most recent acquisition of the object at every monitorexit that any run reaches. */
  lemma EveryExitIsMostRecent(synchronized: bool, receiver: nat, junk0: nat, ops: seq<Op>, junk: seq<nat>, obj: nat)
    requires |junk| == |ops| && receiver != 0 && obj != 0
    ensures var f := if synchronized then Frame([Entry(junk0, receiver)], [0], 1) else Frame([], [], 0);
            var held := if synchronized then [Acquisition(receiver, 0)] else [];
            var g, h := Run(f, ops, junk), HeldRun(f, held, ops, junk);
            if LastIndex(h, obj) < 0 then TopIndex(g.es, obj) == |g.es|
            else TopIndex(g.es, obj) < |g.es| && At(g, TopIndex(g.es, obj)) == h[LastIndex(h, obj)]
  {
    var f := if synchronized then Frame([Entry(junk0, receiver)], [0], 1) else Frame([], [], 0);
    var held := if synchronized then [Acquisition(receiver, 0)] else [];
    assert synchronized ==> At(f, 0) == held[0] && Occupied(f, held[0]);
    RunAgrees(f, held, ops, junk);
    ExitIsMostRecent(Run(f, ops, junk), HeldRun(f, held, ops, junk), obj);
  }

  /** One monitorenter or monitorexit in a frame in memory is one step of the slot machine. */
  method StepFrame(fr: MonitorSlots.Frame, ghost f: Frame, op: Op) returns (ghost junk: nat)
    requires fr.Valid() && ENTRY_SIZE <= fr.rsp && Shaped(f) && fr.Slots() == f.es
    modifies fr, fr.mem
    ensures fr.Valid() && fr.rsp >= old(fr.rsp) - ENTRY_SIZE
    ensures fr.Slots() == Step(f, op, junk).es && fr.Expressions() == old(fr.Expressions())
  {
    match op {
      case Enter(obj) => junk := EnterFrame(fr, f, obj);
      case Exit(obj) =>
        var r := fr.MonitorExit(obj);
        junk := 0;
    }
  }

  method EnterFrame(fr: MonitorSlots.Frame, ghost f: Frame, obj: nat) returns (ghost junk: nat)
    requires fr.Valid() && ENTRY_SIZE <= fr.rsp && Shaped(f) && fr.Slots() == f.es
    modifies fr, fr.mem
    ensures fr.Valid() && fr.rsp >= old(fr.rsp) - ENTRY_SIZE
    ensures fr.Slots() == Step(f, Enter(obj), junk).es && fr.Expressions() == old(fr.Expressions())
  {
    var r := fr.MonitorEnter(obj);
    ghost var es := fr.Slots();
    junk := if es != [] then es[0].displaced else 0;
    assert obj != 0 && Choice(f.es, obj) < 0 ==> es == [es[0]] + es[1..];
  }

  /** Any sequence of them in a frame in memory is a run of the slot machine, and so releases the most
      recent acquisition at every monitorexit; the expression stack keeps its contents. */
  method RunFrame(fr: MonitorSlots.Frame, ghost f: Frame, ghost held: seq<Acquisition>, ops: seq<Op>)
    returns (ghost junk: seq<nat>)
    requires fr.Valid() && ENTRY_SIZE * (|ops| + 1) <= fr.rsp && Agree(f, held) && fr.Slots() == f.es
    modifies fr, fr.mem
    ensures fr.Valid() && |junk| == |ops|
    ensures fr.Slots() == Run(f, ops, junk).es && fr.Expressions() == old(fr.Expressions())
    ensures Agree(Run(f, ops, junk), HeldRun(f, held, ops, junk))
  {
    junk := [];
    var n := 0;
    while n < |ops|
      invariant 0 <= n == |junk| <= |ops| && fr.Valid() && ENTRY_SIZE * (|ops| - n + 1) <= fr.rsp
      invariant fr.Slots() == Run(f, ops[..n], junk).es && fr.Expressions() == old(fr.Expressions())
    {
      ghost var more := StepFrame(fr, Run(f, ops[..n], junk), ops[n]);
      RunOneMore(f, ops, junk, more);
      junk := junk + [more];
      n := n + 1;
    }
    assert ops[..n] == ops;
    RunAgrees(f, held, ops, junk);
  }

  lemma RunOneMore(f: Frame, ops: seq<Op>, junk: seq<nat>, more: nat)
    requires Shaped(f) && |junk| < |ops|
    ensures Run(f, ops[..|junk| + 1], junk + [more]) == Step(Run(f, ops[..|junk|], junk), ops[|junk|], more)
  {
    assert ops[..|junk| + 1][..|junk|] == ops[..|junk|];
    assert (junk + [more])[..|junk|] == junk;
  }
}
