/** Every step of the stack-locking protocol keeps its invariant, and what follows for whole runs. */
module ThinLockProofs {
  import opened Options
  import opened Words
  import opened ThinLock

  /** The single AND of lock_object decides exactly the comment's three tests: the mark is an
      8-aligned address within one page above the stack pointer. */
  lemma StackTestMeaning(c: Config, mark: Word, rsp: Word)
    requires 3 <= c.pageBits <= 30 && Aligned(rsp) && rsp + c.PageSize() <= WORD
    ensures StackTest(c, mark, rsp) == 0 <==> Aligned(mark) && rsp <= mark < rsp + c.PageSize()
  {
    PageIsAligned(c);
    PageTest(c, Sub64(mark, rsp));
    SubInWindow(mark, rsp, c.PageSize());
  }

  lemma PageIsAligned(c: Config)
    requires 3 <= c.pageBits
    ensures c.PageSize() % 8 == 0
  {
    EightTimes(c.pageBits);
  }

  lemma PageTest(c: Config, d: Word)
    requires 3 <= c.pageBits <= 30 && c.PageSize() <= WORD
    ensures And(d, Sub64(7, c.PageSize())) == 0 <==> d % 8 == 0 && d < c.PageSize()
  {
    WordIsPow2();
    EightTimes(c.pageBits);
    EightTimes(64);
    Pow2Monotone(c.pageBits - 3, 61);
    Pow2Monotone(3, c.pageBits);
    SubPageSize(c.PageSize());
    AndPageMask(d, c.pageBits - 3, 61, Sub64(7, c.PageSize()));
  }

  /** A stack pointer's page window cannot reach into another thread's stack. */
  lemma WindowIsOwn(c: Config, t: nat, u: nat, rsp: Word, m: Word)
    requires c.Ok() && t < |c.stacks| && c.InStack(u, m)
    requires c.stacks[t].lo <= rsp <= c.stacks[t].hi && rsp <= m < rsp + c.PageSize()
    ensures u == t
  {
    assert t == u || c.Apart(t, u);
  }

  /** Slots of different threads are different. */
  lemma StacksDisjoint(c: Config, t: nat, u: nat, a: Word)
    requires c.Ok() && c.InStack(t, a) && c.InStack(u, a)
    ensures t == u
  {
    assert t == u || c.Apart(t, u);
  }

  /** What a step of thread t may not disturb of another thread u. */
  ghost predicate Undisturbed(c: Config, s: State, s': State, t: nat) {
    && |s'.mark| == |s.mark| && |s'.owner| == |s.owner|
    && (forall a | a in s.slots :: a in s'.slots)
    && (forall a | a in s.slots && !c.InStack(t, a) :: s'.slots[a] == s.slots[a])
    && (forall o | 0 <= o < |s.mark| && o < |s.owner| && s.owner[o].Some? && s.owner[o] != Some(t) ::
          s'.mark[o] == s.mark[o] && s'.owner[o] == s.owner[o])
  }

  lemma OtherThreadOk(c: Config, s: State, s': State, t: nat, u: nat)
    requires Inv(c, s) && t != u && u < |s.threads|
    requires |s'.threads| == |s.threads| && s'.threads[u] == s.threads[u]
    requires Undisturbed(c, s, s', t)
    ensures ThreadOk(c, s', u)
  {
    var th := s.threads[u];
    assert ThreadOk(c, s, u);
    forall i | 0 <= i < |th.held|
      ensures s'.slots[th.held[i].slot] == s.slots[th.held[i].slot]
    {
      if c.InStack(t, th.held[i].slot) { StacksDisjoint(c, t, u, th.held[i].slot); }
    }
    forall i | 0 <= i < |th.left|
      ensures s'.slots[th.left[i].slot] == s.slots[th.left[i].slot]
    {
      if c.InStack(t, th.left[i].slot) { StacksDisjoint(c, t, u, th.left[i].slot); }
    }
    if !th.pc.Idle? && c.InStack(t, th.pc.a) { StacksDisjoint(c, t, u, th.pc.a); }
  }

  /** The frame rule: a step of thread t keeps the invariant if it keeps t's own part and the
      objects' part, and leaves the others alone. */
  lemma StepKeeps(c: Config, s: State, s': State, t: nat)
    requires Inv(c, s) && t < |s.threads|
    requires |s'.threads| == |s.threads|
    requires forall u | 0 <= u < |s.threads| && u != t :: s'.threads[u] == s.threads[u]
    requires Undisturbed(c, s, s', t)
    requires ThreadOk(c, s', t)
    requires forall o | 0 <= o < |s.mark| :: ObjectOk(c, s', o)
    ensures Inv(c, s')
  {
    forall u | 0 <= u < |s'.threads| ensures ThreadOk(c, s', u) {
      if u != t { OtherThreadOk(c, s, s', t, u); }
    }
  }

  /** An object whose mark, owner and header slot are untouched, and whose owner still occupies it. */
  lemma SameObject(c: Config, s: State, s': State, t: nat, o: nat)
    requires Inv(c, s) && o < |s.mark| && t < |s.threads|
    requires |s'.threads| == |s.threads| && |s'.mark| == |s.mark| && |s'.owner| == |s.owner|
    requires forall u | 0 <= u < |s.threads| && u != t :: s'.threads[u] == s.threads[u]
    requires s'.mark[o] == s.mark[o] && s'.owner[o] == s.owner[o]
    requires s.owner[o].Some? ==>
               s.mark[o] in s.slots && s.mark[o] in s'.slots && s'.slots[s.mark[o]].displaced == s.slots[s.mark[o]].displaced
    requires s.owner[o] == Some(t) ==> Occupies(s'.threads[t], o)
    ensures ObjectOk(c, s', o)
  {
    assert ObjectOk(c, s, o);
  }

  lemma MoveRspKeeps(c: Config, s: State, t: nat, rsp: Word)
    requires Inv(c, s) && Enabled(c, s, MoveRsp(t, rsp))
    ensures Inv(c, Apply(c, s, MoveRsp(t, rsp)))
  {
    var s' := Apply(c, s, MoveRsp(t, rsp));
    assert ThreadOk(c, s, t);
    forall o | 0 <= o < |s.mark| ensures ObjectOk(c, s', o) {
      assert ObjectOk(c, s, o);
      SameObject(c, s, s', t, o);
    }
    StepKeeps(c, s, s', t);
  }

  lemma SetHeaderKeeps(c: Config, s: State, o: nat, w: Word)
    requires Inv(c, s) && Enabled(c, s, SetHeader(o, w))
    ensures Inv(c, Apply(c, s, SetHeader(o, w)))
  {
    var s' := Apply(c, s, SetHeader(o, w));
    assert ObjectOk(c, s, o);
    forall o' | 0 <= o' < |s.mark| ensures ObjectOk(c, s', o') {
      assert ObjectOk(c, s, o');
    }
    forall u | 0 <= u < |s.threads| ensures ThreadOk(c, s', u) {
      SetHeaderThread(c, s, o, w, u);
    }
  }

  lemma SetHeaderThread(c: Config, s: State, o: nat, w: Word, u: nat)
    requires Inv(c, s) && Enabled(c, s, SetHeader(o, w)) && u < |s.threads|
    ensures ThreadOk(c, Apply(c, s, SetHeader(o, w)), u)
  {
    NeutralIsFree(c, s, u, o);
    OtherMarkSet(c, s, o, w, u);
    assert Apply(c, s, SetHeader(o, w)) == s.(mark := s.mark[o := w]);
  }

  lemma NeutralIsFree(c: Config, s: State, u: nat, o: nat)
    requires Inv(c, s) && u < |s.threads| && o < |s.mark| && Neutral(s.mark[o])
    ensures u < |c.stacks| && ThreadOk(c, s, u) && !Occupies(s.threads[u], o)
  {
    assert ObjectOk(c, s, o);
    NobodyHolds(c, s, u, o);
  }

  /** A thread that does not occupy o does not see o's mark. */
  lemma OtherMarkSet(c: Config, s: State, o: nat, w: Word, u: nat)
    requires u < |s.threads| && u < |c.stacks| && ThreadOk(c, s, u) && o < |s.mark| && !Occupies(s.threads[u], o)
    ensures ThreadOk(c, s.(mark := s.mark[o := w]), u)
  {
    var s', th := s.(mark := s.mark[o := w]), s.threads[u];
    forall i | 0 <= i < |th.held| ensures SlotOk(s', th.held[i].slot, th.held[i].obj, First(th.held, i)) {
      assert SlotOk(s, th.held[i].slot, th.held[i].obj, First(th.held, i));
    }
  }

  /** A slot the thread is not using yet is nobody's mark. */
  lemma FreshSlotIsNoMark(c: Config, s: State, t: nat, a: Word, o: nat)
    requires Inv(c, s) && t < |s.threads| && o < |s.mark| && s.owner[o].Some?
    requires c.InStack(t, a) && !UsesSlot(s.threads[t].held, a)
    requires s.threads[t].pc.Exiting() ==> s.threads[t].pc.a != a
    ensures s.mark[o] != a
  {
    assert ObjectOk(c, s, o);
    var u := s.owner[o].value;
    if s.mark[o] == a {
      StacksDisjoint(c, t, u, a);
      OuterSlot(c, s, t, o);
    }
  }

  /** The owner's outermost monitor of o, or the one it is releasing, is what o's mark points to. */
  lemma OuterSlot(c: Config, s: State, t: nat, o: nat)
    requires Inv(c, s) && o < |s.mark| && s.owner[o] == Some(t)
    ensures t < |s.threads|
    ensures Holds(s.threads[t].held, o) ==> UsesSlot(s.threads[t].held, s.mark[o])
    ensures !Holds(s.threads[t].held, o) ==>
              s.threads[t].pc.Exiting() && s.threads[t].pc.o == o && s.threads[t].pc.a == s.mark[o]
  {
    assert ObjectOk(c, s, o);
    assert ThreadOk(c, s, t);
    var held := s.threads[t].held;
    if Holds(held, o) {
      var i := FirstOf(held, o);
      assert SlotOk(s, held[i].slot, held[i].obj, First(held, i));
    }
  }

  lemma {:induction false} FirstOf(held: seq<Held>, o: nat) returns (i: nat)
    requires Holds(held, o)
    ensures i < |held| && held[i].obj == o && First(held, i)
  {
    i := 0;
    while held[i].obj != o
      invariant i < |held|
      invariant forall j | 0 <= j < i :: held[j].obj != o
      invariant exists j :: i <= j < |held| && held[j].obj == o
      decreases |held| - i
    {
      i := i + 1;
    }
  }

  lemma BeginEnterKeeps(c: Config, s: State, t: nat, o: nat, a: Word, junk: Word)
    requires Inv(c, s) && Enabled(c, s, BeginEnter(t, o, a, junk))
    ensures Inv(c, Apply(c, s, BeginEnter(t, o, a, junk)))
  {
    var s' := Apply(c, s, BeginEnter(t, o, a, junk));
    assert ThreadOk(c, s, t);
    forall o' | 0 <= o' < |s.mark| ensures ObjectOk(c, s', o') {
      assert ObjectOk(c, s, o');
      if s.owner[o'].Some? { FreshSlotIsNoMark(c, s, t, a, o'); }
      SameObject(c, s, s', t, o');
    }
    StepKeeps(c, s, s', t);
  }

  /** Taking a slot that is not its object's first out of the list leaves every other slot's role alone. */
  lemma RemoveInner(held: seq<Held>, i: nat)
    requires i < |held| && !First(held, i)
    ensures var rest := held[..i] + held[i + 1..];
            && (forall k | 0 <= k < |rest| ::
                  var k' := if k < i then k else k + 1;
                  rest[k] == held[k'] && (First(rest, k) <==> First(held, k')))
            && (forall o :: Holds(rest, o) <==> Holds(held, o))
  {
    var rest := held[..i] + held[i + 1..];
    var f :| 0 <= f < i && held[f].obj == held[i].obj;
    assert rest[f] == held[f];
    forall k | 0 <= k < |rest|
      ensures First(rest, k) <==> First(held, if k < i then k else k + 1)
    {
      var k' := if k < i then k else k + 1;
      if First(rest, k) {
        forall j | 0 <= j < k' ensures held[j].obj != held[k'].obj {
          if j < i { assert rest[j] == held[j]; } else if j > i { assert rest[j - 1] == held[j]; }
        }
      }
    }
    forall o ensures Holds(rest, o) <==> Holds(held, o) {
      if j :| 0 <= j < |held| && held[j].obj == o {
        assert rest[if j < i then j else if j == i then f else j - 1].obj == o;
      }
    }
  }

  lemma RemovedHeldOk(c: Config, s: State, t: nat, rsp: Word, held: seq<Held>, i: nat)
    requires t < |c.stacks| && i < |held| && !First(held, i) && HeldOk(c, s, t, rsp, held)
    ensures var rest := held[..i] + held[i + 1..];
            && HeldOk(c, s, t, rsp, rest) && !UsesSlot(rest, held[i].slot)
            && (forall a :: UsesSlot(rest, a) ==> UsesSlot(held, a))
  {
    RemoveInner(held, i);
  }

  /** What is left when all slots of an object are taken out. */
  lemma {:induction false} WithoutIn(held: seq<Held>, o: nat, h: Held)
    ensures h in Without(held, o) <==> h in held && h.obj != o
    ensures h in Only(held, o) <==> h in held && h.obj == o
    decreases |held|
  {
    if held != [] {
      var n := |held| - 1;
      WithoutIn(held[..n], o, h);
      assert held == held[..n] + [held[n]];
    }
  }

  lemma WithoutMeans(held: seq<Held>, o: nat)
    ensures forall p :: Holds(Without(held, o), p) <==> p != o && Holds(held, p)
    ensures forall a :: UsesSlot(Without(held, o), a) ==> UsesSlot(held, a)
  {
    var rest := Without(held, o);
    forall p ensures Holds(rest, p) <==> p != o && Holds(held, p) {
      if i :| 0 <= i < |rest| && rest[i].obj == p { WithoutIn(held, o, rest[i]); }
      if i :| 0 <= i < |held| && held[i].obj == p && p != o { WithoutIn(held, o, held[i]); }
    }
    forall a | UsesSlot(rest, a) ensures UsesSlot(held, a) {
      var i :| 0 <= i < |rest| && rest[i].slot == a;
      WithoutIn(held, o, rest[i]);
    }
  }

  /** A slot belongs to one object. */
  lemma WithoutUses(held: seq<Held>, o: nat, h: Held)
    requires forall i, j | 0 <= i < j < |held| :: held[i].slot != held[j].slot
    requires h in held && h.obj == o
    ensures !UsesSlot(Without(held, o), h.slot)
  {
    var rest := Without(held, o);
    var k :| 0 <= k < |held| && held[k] == h;
    forall i | 0 <= i < |rest| ensures rest[i].slot != h.slot {
      WithoutIn(held, o, rest[i]);
      var j :| 0 <= j < |held| && held[j] == rest[i];
      assert j != k;
    }
  }

  lemma {:induction false} WithoutHeldOk(c: Config, s: State, t: nat, rsp: Word, held: seq<Held>, o: nat)
    requires t < |c.stacks| && HeldOk(c, s, t, rsp, held)
    ensures HeldOk(c, s, t, rsp, Without(held, o))
    decreases |held|
  {
    if held != [] {
      var n := |held| - 1;
      PrefixHeldOk(c, s, t, rsp, held, n);
      WithoutHeldOk(c, s, t, rsp, held[..n], o);
      if held[n].obj != o {
        WithoutAppend(c, s, t, rsp, held, n, o);
      } else {
        assert Without(held, o) == Without(held[..n], o);
      }
    }
  }

  lemma WithoutAppend(c: Config, s: State, t: nat, rsp: Word, held: seq<Held>, n: nat, o: nat)
    requires t < |c.stacks| && HeldOk(c, s, t, rsp, held) && n < |held| && held[n].obj != o
    requires HeldOk(c, s, t, rsp, Without(held[..n], o))
    ensures HeldOk(c, s, t, rsp, Without(held[..n], o) + [held[n]])
  {
    WithoutMeans(held[..n], o);
    FirstIsNew(held, n);
    AppendKeepsHeldOk(c, s, t, rsp, Without(held[..n], o), held[n]);
  }

  lemma FirstIsNew(held: seq<Held>, n: nat)
    requires n < |held|
    ensures First(held, n) <==> !Holds(held[..n], held[n].obj)
  {
    if j :| 0 <= j < n && held[j].obj == held[n].obj { assert held[..n][j] == held[j]; }
  }

  lemma PrefixHeldOk(c: Config, s: State, t: nat, rsp: Word, held: seq<Held>, n: nat)
    requires t < |c.stacks| && HeldOk(c, s, t, rsp, held) && n <= |held|
    ensures HeldOk(c, s, t, rsp, held[..n])
  {
    var front := held[..n];
    forall k | 0 <= k < n ensures front[k] == held[k] && (First(front, k) <==> First(held, k)) {
      assert forall j | 0 <= j < k :: front[j] == held[j];
    }
  }

  lemma {:induction false} OnlyDistinct(held: seq<Held>, o: nat)
    requires forall i, j | 0 <= i < j < |held| :: held[i].slot != held[j].slot
    ensures forall i, j | 0 <= i < j < |Only(held, o)| :: Only(held, o)[i].slot != Only(held, o)[j].slot
    decreases |held|
  {
    if held != [] {
      var n := |held| - 1;
      var rest := Only(held[..n], o);
      OnlyDistinct(held[..n], o);
      forall i | 0 <= i < |rest| ensures rest[i].slot != held[n].slot {
        WithoutIn(held[..n], o, rest[i]);
        var k :| 0 <= k < n && held[..n][k] == rest[i];
      }
    }
  }

  /** A slot that is left behind when its object's first one is released. */
  predicate LeftSlot(c: Config, s: State, t: nat, rsp: Word, held: seq<Held>, i: nat, h: Held)
    requires t < |c.stacks| && i < |held|
  {
    && Placed(c, t, rsp, h.slot) && h.slot in s.slots && h.obj < |s.mark|
    && s.slots[h.slot] == Slot(0, Some(h.obj))
    && UsesSlot(held, h.slot) && !UsesSlot(Without(held, held[i].obj), h.slot) && h.slot != held[i].slot
  }

  lemma LeftSlots(c: Config, s: State, t: nat, rsp: Word, held: seq<Held>, i: nat, h: Held)
    requires t < |c.stacks| && HeldOk(c, s, t, rsp, held) && i < |held| && First(held, i)
    requires h in Only(held[i + 1..], held[i].obj)
    ensures LeftSlot(c, s, t, rsp, held, i, h)
  {
    var j := LaterSlot(held, i, h);
    InnerSlot(c, s, t, rsp, held, i, j);
    WithoutUses(held, held[i].obj, h);
  }

  lemma LaterSlot(held: seq<Held>, i: nat, h: Held) returns (j: nat)
    requires i < |held| && h in Only(held[i + 1..], held[i].obj)
    ensures i < j < |held| && held[j] == h && h.obj == held[i].obj
  {
    WithoutIn(held[i + 1..], held[i].obj, h);
    var m :| 0 <= m < |held[i + 1..]| && held[i + 1..][m] == h;
    j := i + 1 + m;
  }

  /** A later slot of the same object holds 0. */
  lemma InnerSlot(c: Config, s: State, t: nat, rsp: Word, held: seq<Held>, i: nat, j: nat)
    requires t < |c.stacks| && HeldOk(c, s, t, rsp, held) && i < j < |held| && held[j].obj == held[i].obj
    ensures Placed(c, t, rsp, held[j].slot) && held[j].slot in s.slots && held[j].obj < |s.mark|
    ensures s.slots[held[j].slot] == Slot(0, Some(held[j].obj)) && held[j].slot != held[i].slot
  {
    assert SlotOk(s, held[j].slot, held[j].obj, First(held, j));
    assert !First(held, j);
  }

  lemma BeginExitLeft(c: Config, s: State, t: nat, i: nat)
    requires Inv(c, s) && Enabled(c, s, BeginExit(t, i))
    ensures LeftOk(c, Apply(c, s, BeginExit(t, i)), t, Apply(c, s, BeginExit(t, i)).threads[t])
  {
    var th := s.threads[t];
    var held, o := th.held, th.held[i].obj;
    assert ThreadOk(c, s, t);
    if First(held, i) {
      var more := Only(held[i + 1..], o);
      WithoutMeans(held, o);
      OnlyDistinct(held[i + 1..], o);
      forall k | 0 <= k < |more| ensures LeftSlot(c, s, t, th.rsp, held, i, more[k]) {
        LeftSlots(c, s, t, th.rsp, held, i, more[k]);
      }
    } else {
      RemovedHeldOk(c, s, t, th.rsp, held, i);
    }
  }

  lemma BeginExitThread(c: Config, s: State, t: nat, i: nat)
    requires Inv(c, s) && Enabled(c, s, BeginExit(t, i))
    ensures ThreadOk(c, Apply(c, s, BeginExit(t, i)), t)
  {
    var s' := Apply(c, s, BeginExit(t, i));
    var th := s.threads[t];
    assert ThreadOk(c, s, t);
    BeginExitLeft(c, s, t, i);
    ReleasedHeldOk(c, s, t, th.rsp, th.held, i);
    assert SlotOk(s, th.held[i].slot, th.held[i].obj, First(th.held, i));
    assert PcOk(c, s', t, s'.threads[t]);
  }

  lemma ReleasedHeldOk(c: Config, s: State, t: nat, rsp: Word, held: seq<Held>, i: nat)
    requires t < |c.stacks| && i < |held| && HeldOk(c, s, t, rsp, held)
    ensures HeldOk(c, s, t, rsp, HeldAfter(held, i)) && !UsesSlot(HeldAfter(held, i), held[i].slot)
    ensures Holds(HeldAfter(held, i), held[i].obj) <==> !First(held, i)
    ensures forall o | o != held[i].obj :: Holds(HeldAfter(held, i), o) <==> Holds(held, o)
  {
    if First(held, i) {
      FirstReleased(c, s, t, rsp, held, i);
    } else {
      RemovedHeldOk(c, s, t, rsp, held, i);
      RemoveInner(held, i);
    }
  }

  lemma FirstReleased(c: Config, s: State, t: nat, rsp: Word, held: seq<Held>, i: nat)
    requires t < |c.stacks| && i < |held| && HeldOk(c, s, t, rsp, held)
    ensures var o := held[i].obj;
            var rest := Without(held, o);
            && HeldOk(c, s, t, rsp, rest) && !UsesSlot(rest, held[i].slot) && !Holds(rest, o)
            && forall p | p != o :: Holds(rest, p) <==> Holds(held, p)
  {
    WithoutHeldOk(c, s, t, rsp, held, held[i].obj);
    WithoutMeans(held, held[i].obj);
    WithoutUses(held, held[i].obj, held[i]);
  }

  lemma BeginExitKeeps(c: Config, s: State, t: nat, i: nat)
    requires Inv(c, s) && Enabled(c, s, BeginExit(t, i))
    ensures Inv(c, Apply(c, s, BeginExit(t, i)))
  {
    var s' := Apply(c, s, BeginExit(t, i));
    assert ThreadOk(c, s, t);
    BeginExitThread(c, s, t, i);
    ReleasedHeldOk(c, s, t, s.threads[t].rsp, s.threads[t].held, i);
    forall o | 0 <= o < |s.mark| ensures ObjectOk(c, s', o) {
      assert ObjectOk(c, s, o);
      SameObject(c, s, s', t, o);
    }
    StepKeeps(c, s, s', t);
  }

  lemma BeginClearKeeps(c: Config, s: State, t: nat, i: nat)
    requires Inv(c, s) && Enabled(c, s, BeginClear(t, i))
    ensures Inv(c, Apply(c, s, BeginClear(t, i)))
  {
    var s' := Apply(c, s, BeginClear(t, i));
    assert ThreadOk(c, s, t);
    forall o | 0 <= o < |s.mark| ensures ObjectOk(c, s', o) {
      assert ObjectOk(c, s, o);
      SameObject(c, s, s', t, o);
    }
    StepKeeps(c, s, s', t);
  }

  lemma LoadMarkKeeps(c: Config, s: State, t: nat)
    requires Inv(c, s) && Enabled(c, s, Advance(t)) && s.threads[t].pc.LoadMark?
    ensures Inv(c, Apply(c, s, Advance(t)))
  {
    var s' := Apply(c, s, Advance(t));
    LoadMarkThread(c, s, t);
    forall o | 0 <= o < |s.mark| ensures ObjectOk(c, s', o) {
      assert ObjectOk(c, s, o);
      SameObject(c, s, s', t, o);
    }
    StepKeeps(c, s, s', t);
  }

  lemma LoadMarkThread(c: Config, s: State, t: nat)
    requires Inv(c, s) && Enabled(c, s, Advance(t)) && s.threads[t].pc.LoadMark?
    ensures ThreadOk(c, Apply(c, s, Advance(t)), t)
  {
    assert ThreadOk(c, s, t) && ObjectOk(c, s, s.threads[t].pc.o);
    OrOneIsNeutral(s.mark[s.threads[t].pc.o]);
  }

  lemma OrOneIsNeutral(w: Word)
    requires Neutral(w) || Aligned(w)
    ensures Neutral(OrOne(w))
  {
  }

  lemma StoreDisplacedKeeps(c: Config, s: State, t: nat)
    requires Inv(c, s) && Enabled(c, s, Advance(t)) && s.threads[t].pc.StoreDisplaced?
    ensures Inv(c, Apply(c, s, Advance(t)))
  {
    var s' := Apply(c, s, Advance(t));
    assert ThreadOk(c, s, t);
    forall o | 0 <= o < |s.mark| ensures ObjectOk(c, s', o) {
      assert ObjectOk(c, s, o);
      if s.owner[o].Some? { FreshSlotIsNoMark(c, s, t, s.threads[t].pc.a, o); }
      SameObject(c, s, s', t, o);
    }
    StepKeeps(c, s, s', t);
  }

  /** Appending a slot keeps the roles of the others. */
  lemma AppendSlot(held: seq<Held>, h: Held)
    ensures var more := held + [h];
            && (forall k | 0 <= k < |held| :: more[k] == held[k] && (First(more, k) <==> First(held, k)))
            && (First(more, |held|) <==> !Holds(held, h.obj))
            && (forall o :: Holds(more, o) <==> Holds(held, o) || o == h.obj)
  {
    var more := held + [h];
    forall o ensures Holds(more, o) <==> Holds(held, o) || o == h.obj {
      assert more[|held|] == h;
      if j :| 0 <= j < |held| && held[j].obj == o { assert more[j] == held[j]; }
    }
  }

  /** A slot list that is in order stays so when a slot the thread did not use yet is added. */
  lemma AppendKeepsHeldOk(c: Config, s: State, t: nat, rsp: Word, held: seq<Held>, h: Held)
    requires t < |c.stacks| && HeldOk(c, s, t, rsp, held) && !UsesSlot(held, h.slot)
    requires Placed(c, t, rsp, h.slot) && SlotOk(s, h.slot, h.obj, !Holds(held, h.obj))
    requires s.slots[h.slot].obj == Some(h.obj) && h.obj < |s.owner| && s.owner[h.obj] == Some(t)
    ensures HeldOk(c, s, t, rsp, held + [h])
  {
    AppendSlot(held, h);
  }

  lemma NobodyHolds(c: Config, s: State, t: nat, o: nat)
    requires Inv(c, s) && t < |s.threads| && o < |s.mark| && s.owner[o] != Some(t)
    ensures !Occupies(s.threads[t], o)
  {
    assert ThreadOk(c, s, t);
  }

  /** The state after the outermost acquisition of an unlocked object o through slot a. */
  function AcquiredFree(s: State, t: nat, o: nat, a: Word): State
    requires t < |s.threads| && o < |s.mark| && o < |s.owner| && a in s.slots
  {
    Acquire(Swing(StoreHeader(s, a, s.mark[o]), o, a, Some(t)), t, o, a)
  }

  lemma AcquiredFreeThread(c: Config, s: State, t: nat)
    requires Inv(c, s) && t < |s.threads| && s.threads[t].pc.Entering()
    requires s.threads[t].pc.o < |s.mark| && Neutral(s.mark[s.threads[t].pc.o]) && s.threads[t].pc.a in s.slots
    ensures ThreadOk(c, AcquiredFree(s, t, s.threads[t].pc.o, s.threads[t].pc.a), t)
  {
    assert ThreadOk(c, s, t) && ObjectOk(c, s, s.threads[t].pc.o);
    NobodyHolds(c, s, t, s.threads[t].pc.o);
    AcquiredFreeHeld(c, s, t);
    AcquiredParts(c, s, t);
  }

  lemma AcquiredParts(c: Config, s: State, t: nat)
    requires t < |c.stacks| && t < |s.threads| && ThreadOk(c, s, t) && s.threads[t].pc.Entering()
    requires s.threads[t].pc.o < |s.mark| == |s.owner| && Neutral(s.mark[s.threads[t].pc.o])
    requires s.threads[t].pc.a in s.slots && !Holds(s.threads[t].held, s.threads[t].pc.o)
    requires HeldOk(c, AcquiredFree(s, t, s.threads[t].pc.o, s.threads[t].pc.a), t, s.threads[t].rsp, s.threads[t].held)
    ensures ThreadOk(c, AcquiredFree(s, t, s.threads[t].pc.o, s.threads[t].pc.a), t)
  {
    var th := s.threads[t];
    var o, a := th.pc.o, th.pc.a;
    var s' := AcquiredFree(s, t, o, a);
    AcquiredLeft(c, s, s', t, o);
    AppendKeepsHeldOk(c, s', t, th.rsp, th.held, Held(a, o));
    IdleIsOk(c, s', t);
  }

  lemma IdleIsOk(c: Config, s: State, t: nat)
    requires t < |c.stacks| && t < |s.threads| && s.threads[t].pc.Idle?
    requires Aligned(s.threads[t].rsp) && c.stacks[t].lo <= s.threads[t].rsp <= c.stacks[t].hi
    requires HeldOk(c, s, t, s.threads[t].rsp, s.threads[t].held) && LeftOk(c, s, t, s.threads[t])
    ensures ThreadOk(c, s, t)
  {
  }

  /** Acquiring a slot touches none that were left behind. */
  lemma AcquiredLeft(c: Config, s: State, s': State, t: nat, o: nat)
    requires t < |c.stacks| && t < |s.threads| && LeftOk(c, s, t, s.threads[t]) && s.threads[t].pc.Entering()
    requires forall a | a in s.slots && a != s.threads[t].pc.a :: a in s'.slots && s'.slots[a] == s.slots[a]
    requires |s'.mark| == |s.mark|
    ensures var th := s.threads[t];
            LeftOk(c, s', t, th.(held := th.held + [Held(th.pc.a, o)], pc := Idle))
  {
    AppendUse(s.threads[t].held, Held(s.threads[t].pc.a, o));
  }

  lemma AppendUse(held: seq<Held>, h: Held)
    ensures forall a :: UsesSlot(held + [h], a) <==> UsesSlot(held, a) || a == h.slot
  {
    var more := held + [h];
    forall a ensures UsesSlot(more, a) <==> UsesSlot(held, a) || a == h.slot {
      assert more[|held|] == h;
      if j :| 0 <= j < |held| && held[j].slot == a { assert more[j] == held[j]; }
    }
  }

  lemma AcquiredFreeHeld(c: Config, s: State, t: nat)
    requires Inv(c, s) && t < |s.threads| && s.threads[t].pc.Entering()
    requires s.threads[t].pc.o < |s.mark| && Neutral(s.mark[s.threads[t].pc.o]) && s.threads[t].pc.a in s.slots
    ensures HeldOk(c, AcquiredFree(s, t, s.threads[t].pc.o, s.threads[t].pc.a), t, s.threads[t].rsp, s.threads[t].held)
  {
    assert ThreadOk(c, s, t) && ObjectOk(c, s, s.threads[t].pc.o);
    NobodyHolds(c, s, t, s.threads[t].pc.o);
  }

  lemma AcquiredFreeObjects(c: Config, s: State, t: nat)
    requires Inv(c, s) && t < |s.threads| && s.threads[t].pc.Entering()
    requires s.threads[t].pc.o < |s.mark| && Neutral(s.mark[s.threads[t].pc.o]) && s.threads[t].pc.a in s.slots
    ensures var s' := AcquiredFree(s, t, s.threads[t].pc.o, s.threads[t].pc.a);
            forall o' | 0 <= o' < |s.mark| :: ObjectOk(c, s', o')
  {
    var th := s.threads[t];
    var o, a := th.pc.o, th.pc.a;
    var s' := AcquiredFree(s, t, o, a);
    assert ThreadOk(c, s, t) && ObjectOk(c, s, o);
    AppendSlot(th.held, Held(a, o));
    forall o' | 0 <= o' < |s.mark| ensures ObjectOk(c, s', o') {
      if o' != o {
        assert ObjectOk(c, s, o');
        if s.owner[o'].Some? { FreshSlotIsNoMark(c, s, t, a, o'); }
        SameObject(c, s, s', t, o');
      }
    }
  }

  lemma AcquiredFreeKeeps(c: Config, s: State, t: nat)
    requires Inv(c, s) && t < |s.threads| && s.threads[t].pc.Entering()
    requires s.threads[t].pc.o < |s.mark| && Neutral(s.mark[s.threads[t].pc.o]) && s.threads[t].pc.a in s.slots
    ensures Inv(c, AcquiredFree(s, t, s.threads[t].pc.o, s.threads[t].pc.a))
  {
    assert ThreadOk(c, s, t) && ObjectOk(c, s, s.threads[t].pc.o);
    AcquiredFreeObjects(c, s, t);
    AcquiredFreeThread(c, s, t);
    StepKeeps(c, s, AcquiredFree(s, t, s.threads[t].pc.o, s.threads[t].pc.a), t);
  }

  lemma CasInKeeps(c: Config, s: State, t: nat)
    requires Inv(c, s) && Enabled(c, s, Advance(t)) && s.threads[t].pc.CasIn?
    ensures Inv(c, Apply(c, s, Advance(t)))
  {
    var s' := Apply(c, s, Advance(t));
    var th := s.threads[t];
    var CasIn(o, a, rax) := th.pc;
    assert ThreadOk(c, s, t) && ObjectOk(c, s, o);
    if s.mark[o] == rax {
      assert StoreHeader(s, a, rax) == s;
      AcquiredFreeKeeps(c, s, t);
    } else {
      FailedCasKeeps(c, s, t);
    }
  }

  lemma FailedCasKeeps(c: Config, s: State, t: nat)
    requires Inv(c, s) && t < |s.threads| && s.threads[t].pc.CasIn? && s.threads[t].pc.o < |s.mark|
    ensures var pc := s.threads[t].pc; Inv(c, GoTo(s, t, TestStack(pc.o, pc.a, s.mark[pc.o])))
  {
    var pc := s.threads[t].pc;
    var s' := GoTo(s, t, TestStack(pc.o, pc.a, s.mark[pc.o]));
    assert ThreadOk(c, s, t) && ObjectOk(c, s, pc.o);
    if s.owner[pc.o].Some? {
      assert c.InStack(s.owner[pc.o].value, s.mark[pc.o]);
      if c.InStack(t, s.mark[pc.o]) { StacksDisjoint(c, t, s.owner[pc.o].value, s.mark[pc.o]); }
    }
    forall o' | 0 <= o' < |s.mark| ensures ObjectOk(c, s', o') {
      assert ObjectOk(c, s, o');
      SameObject(c, s, s', t, o');
    }
    StepKeeps(c, s, s', t);
  }

  /** The state after a recursive acquisition of o through slot a. */
  function AcquiredAgain(s: State, t: nat, o: nat, a: Word): State
    requires t < |s.threads| && a in s.slots
  {
    Acquire(StoreHeader(s, a, 0), t, o, a)
  }

  lemma AcquiredAgainThread(c: Config, s: State, t: nat)
    requires Inv(c, s) && t < |s.threads| && s.threads[t].pc.Entering()
    requires s.threads[t].pc.o < |s.mark| && s.owner[s.threads[t].pc.o] == Some(t) && s.threads[t].pc.a in s.slots
    ensures ThreadOk(c, AcquiredAgain(s, t, s.threads[t].pc.o, s.threads[t].pc.a), t)
  {
    var th := s.threads[t];
    var o, a := th.pc.o, th.pc.a;
    assert ThreadOk(c, s, t) && ObjectOk(c, s, o);
    var s' := AcquiredAgain(s, t, o, a);
    assert HeldOk(c, s', t, th.rsp, th.held);
    AcquiredLeft(c, s, s', t, o);
    AppendKeepsHeldOk(c, s', t, th.rsp, th.held, Held(a, o));
  }

  /** A store into the slot of an acquisition in flight touches no object's header. */
  lemma OwnSlotStoreKeepsObjects(c: Config, s: State, s': State, t: nat)
    requires Inv(c, s) && t < |s.threads| && s.threads[t].pc.Entering()
    requires |s'.threads| == |s.threads| && s'.mark == s.mark && s'.owner == s.owner
    requires forall u | 0 <= u < |s.threads| && u != t :: s'.threads[u] == s.threads[u]
    requires forall a | a in s.slots && a != s.threads[t].pc.a :: a in s'.slots && s'.slots[a] == s.slots[a]
    requires forall o | 0 <= o < |s.mark| && Occupies(s.threads[t], o) :: Occupies(s'.threads[t], o)
    ensures forall o | 0 <= o < |s.mark| :: ObjectOk(c, s', o)
  {
    assert ThreadOk(c, s, t);
    forall o | 0 <= o < |s.mark| ensures ObjectOk(c, s', o) {
      assert ObjectOk(c, s, o);
      if s.owner[o].Some? { FreshSlotIsNoMark(c, s, t, s.threads[t].pc.a, o); }
      SameObject(c, s, s', t, o);
    }
  }

  lemma AcquiredAgainKeeps(c: Config, s: State, t: nat)
    requires Inv(c, s) && t < |s.threads| && s.threads[t].pc.Entering()
    requires s.threads[t].pc.o < |s.mark| && s.owner[s.threads[t].pc.o] == Some(t) && s.threads[t].pc.a in s.slots
    ensures Inv(c, AcquiredAgain(s, t, s.threads[t].pc.o, s.threads[t].pc.a))
  {
    var th := s.threads[t];
    var o, a := th.pc.o, th.pc.a;
    var s' := AcquiredAgain(s, t, o, a);
    assert ThreadOk(c, s, t);
    AppendSlot(th.held, Held(a, o));
    OwnSlotStoreKeepsObjects(c, s, s', t);
    AcquiredAgainThread(c, s, t);
    StepKeeps(c, s, s', t);
  }

  lemma TestStackKeeps(c: Config, s: State, t: nat)
    requires Inv(c, s) && Enabled(c, s, Advance(t)) && s.threads[t].pc.TestStack?
    ensures Inv(c, Apply(c, s, Advance(t)))
  {
    var s' := Apply(c, s, Advance(t));
    var th := s.threads[t];
    assert ThreadOk(c, s, t);
    if StackTest(c, th.pc.rax, th.rsp) == 0 {
      StackTestMeaning(c, th.pc.rax, th.rsp);
      var u :| c.InStack(u, th.pc.rax);
      WindowIsOwn(c, t, u, th.rsp, th.pc.rax);
      AcquiredAgainKeeps(c, s, t);
    } else {
      OwnSlotStoreKeepsObjects(c, s, s', t);
      StepKeeps(c, s, s', t);
    }
  }

  lemma SlowEnterKeeps(c: Config, s: State, t: nat)
    requires Inv(c, s) && Enabled(c, s, Advance(t)) && s.threads[t].pc.SlowEnter?
    ensures Inv(c, Apply(c, s, Advance(t)))
  {
    var o := s.threads[t].pc.o;
    if Neutral(s.mark[o]) {
      AcquiredFreeKeeps(c, s, t);
    } else {
      assert ObjectOk(c, s, o);
      StacksDisjoint(c, t, s.owner[o].value, s.mark[o]);
      AcquiredAgainKeeps(c, s, t);
    }
  }

  lemma LoadHeaderKeeps(c: Config, s: State, t: nat)
    requires Inv(c, s) && Enabled(c, s, Advance(t)) && s.threads[t].pc.LoadHeader?
    ensures Inv(c, Apply(c, s, Advance(t)))
  {
    var s' := Apply(c, s, Advance(t));
    assert ThreadOk(c, s, t);
    forall o | 0 <= o < |s.mark| ensures ObjectOk(c, s', o) {
      assert ObjectOk(c, s, o);
      SameObject(c, s, s', t, o);
    }
    StepKeeps(c, s, s', t);
  }

  lemma FreeEntryKeeps(c: Config, s: State, t: nat)
    requires Inv(c, s) && Enabled(c, s, Advance(t)) && s.threads[t].pc.FreeEntry?
    ensures Inv(c, Apply(c, s, Advance(t)))
  {
    var s' := Apply(c, s, Advance(t));
    assert ThreadOk(c, s, t);
    forall o | 0 <= o < |s.mark| ensures ObjectOk(c, s', o) {
      assert ObjectOk(c, s, o);
      SameObject(c, s, s', t, o);
    }
    StepKeeps(c, s, s', t);
  }

  lemma CasOutKeeps(c: Config, s: State, t: nat)
    requires Inv(c, s) && Enabled(c, s, Advance(t)) && s.threads[t].pc.CasOut?
    ensures Inv(c, Apply(c, s, Advance(t)))
  {
    var s' := Apply(c, s, Advance(t));
    assert ThreadOk(c, s, t);
    var o := s.threads[t].pc.o;
    forall o' | 0 <= o' < |s.mark| ensures ObjectOk(c, s', o') {
      assert ObjectOk(c, s, o');
      if o' != o { SameObject(c, s, s', t, o'); }
    }
    StepKeeps(c, s, s', t);
  }

  lemma StepKeepsInv(c: Config, s: State, step: Step)
    requires Inv(c, s) && Enabled(c, s, step)
    ensures Inv(c, Apply(c, s, step))
  {
    match step
    case MoveRsp(t, rsp) => MoveRspKeeps(c, s, t, rsp);
    case BeginEnter(t, o, a, junk) => BeginEnterKeeps(c, s, t, o, a, junk);
    case BeginExit(t, i) => BeginExitKeeps(c, s, t, i);
    case BeginClear(t, i) => BeginClearKeeps(c, s, t, i);
    case SetHeader(o, w) => SetHeaderKeeps(c, s, o, w);
    case Advance(t) =>
      match s.threads[t].pc
      case LoadMark(_, _) => LoadMarkKeeps(c, s, t);
      case StoreDisplaced(_, _, _) => StoreDisplacedKeeps(c, s, t);
      case CasIn(_, _, _) => CasInKeeps(c, s, t);
      case TestStack(_, _, _) => TestStackKeeps(c, s, t);
      case SlowEnter(_, _) => SlowEnterKeeps(c, s, t);
      case LoadHeader(_, _, _) => LoadHeaderKeeps(c, s, t);
      case FreeEntry(_, _, _, _) => FreeEntryKeeps(c, s, t);
      case CasOut(_, _, _) => CasOutKeeps(c, s, t);
  }
}
