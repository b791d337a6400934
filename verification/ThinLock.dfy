/** Stack locking (interp_masm_amd64.cpp, lock_object and unlock_object) as a state machine over
    the memory operations of any number of threads.

    An unlocked object's mark is its header (low bits 01); a locked object's mark is the address
    of the owner's outermost lock slot, whose first word then holds the header.  A slot that was
    taken recursively holds 0 instead. */
module ThinLock {
  import opened Options
  import opened Words

  /** The address range [lo, hi) of one thread's stack. */
  datatype Stack = Stack(lo: Word, hi: Word)

  datatype Config = Config(pageBits: nat, stacks: seq<Stack>) {
    function PageSize(): (p: nat) { Pow2(pageBits) }

    predicate InStack(t: nat, a: nat) {
      t < |stacks| && stacks[t].lo <= a < stacks[t].hi
    }

    ghost predicate InSomeStack(a: nat) {
      exists t :: InStack(t, a)
    }

    ghost predicate Apart(t: nat, u: nat)
      requires t < |stacks| && u < |stacks|
    {
      || stacks[t].hi + PageSize() <= stacks[u].lo
      || stacks[u].hi + PageSize() <= stacks[t].lo
    }

    /** The page size is a power of two that fits an immediate operand; stacks keep a page of
        distance from each other and from the end of the address space. */
    ghost predicate Ok() {
      && 3 <= pageBits <= 30
      && (forall t | 0 <= t < |stacks| :: 8 <= stacks[t].lo <= stacks[t].hi && stacks[t].hi + PageSize() <= WORD)
      && (forall t, u | 0 <= t < |stacks| && 0 <= u < |stacks| && t != u :: Apart(t, u))
    }
  }

  /** A BasicObjectLock: the displaced header word and the object pointer. */
  datatype Slot = Slot(displaced: Word, obj: Option<nat>)

  /** A monitor the thread has entered: its slot and object, in order of acquisition. */
  datatype Held = Held(slot: Word, obj: nat)

  /** Where a thread stands inside lock_object or unlock_object; `rax` and `header` are the live
      registers at that point.  `own` is a history variable: the slot is one of those that the
      thread owns its object through. */
  datatype Pc =
    | Idle
    | LoadMark(o: nat, a: Word)
    | StoreDisplaced(o: nat, a: Word, rax: Word)
    | CasIn(o: nat, a: Word, rax: Word)
    | TestStack(o: nat, a: Word, rax: Word)
    | SlowEnter(o: nat, a: Word)
    | LoadHeader(o: nat, a: Word, own: bool)
    | FreeEntry(o: nat, a: Word, header: Word, own: bool)
    | CasOut(o: nat, a: Word, header: Word)
    | SlowExit(o: nat, a: Word)
  {
    predicate Entering() {
      LoadMark? || StoreDisplaced? || CasIn? || TestStack? || SlowEnter?
    }

    predicate Exiting() {
      ((LoadHeader? || FreeEntry?) && own) || CasOut? || SlowExit?
    }

    /** Clearing a slot that was left behind. */
    predicate Clearing() {
      (LoadHeader? || FreeEntry?) && !own
    }
  }

  /** `left` are the slots of objects whose outermost slot was released before them, as happens when
      a frame with unbalanced monitors is removed. */
  datatype Thread = Thread(rsp: Word, held: seq<Held>, left: seq<Held>, pc: Pc)

  /** `owner` is a history variable: no step reads it. */
  datatype State = State(
    mark: seq<Word>, slots: map<Word, Slot>, threads: seq<Thread>, owner: seq<Option<nat>>)

  datatype Step =
    | MoveRsp(t: nat, rsp: Word)              // calls, returns, pushes and pops outside the locking code
    | BeginEnter(t: nat, o: nat, a: Word, junk: Word)
    | Advance(t: nat)                         // the next memory operation of a lock or unlock in flight
    | BeginExit(t: nat, i: nat)               // release any slot, in whatever order
    | BeginClear(t: nat, i: nat)              // and any slot that was left behind
    | SetHeader(o: nat, w: Word)              // the runtime rewrites an unlocked object's header (hash, age)

  predicate Neutral(w: Word) { w % 4 == 1 }

  predicate Aligned(w: Word) { w % 8 == 0 }

  predicate Holds(held: seq<Held>, o: nat) {
    exists i :: 0 <= i < |held| && held[i].obj == o
  }

  predicate First(held: seq<Held>, i: nat)
    requires i < |held|
  {
    forall j | 0 <= j < i :: held[j].obj != held[i].obj
  }

  /** The slots of every object but o, and those of o. */
  function Without(held: seq<Held>, o: nat): (rest: seq<Held>) {
    if held == [] then []
    else Without(held[..|held| - 1], o) + if held[|held| - 1].obj == o then [] else [held[|held| - 1]]
  }

  function Only(held: seq<Held>, o: nat): (rest: seq<Held>) {
    if held == [] then []
    else Only(held[..|held| - 1], o) + if held[|held| - 1].obj == o then [held[|held| - 1]] else []
  }

  /** What is held, and what is left behind, once slot i is being released. */
  function HeldAfter(held: seq<Held>, i: nat): (rest: seq<Held>)
    requires i < |held|
  {
    if First(held, i) then Without(held, held[i].obj) else held[..i] + held[i + 1..]
  }

  function LeftAfter(held: seq<Held>, i: nat): (more: seq<Held>)
    requires i < |held|
  {
    if First(held, i) then Only(held[i + 1..], held[i].obj) else []
  }

  predicate UsesSlot(held: seq<Held>, a: Word) {
    exists i :: 0 <= i < |held| && held[i].slot == a
  }

  /** A slot lies in the thread's stack, at or above its stack pointer. */
  predicate Placed(c: Config, t: nat, rsp: Word, a: Word)
    requires t < |c.stacks|
  {
    Aligned(a) && c.stacks[t].lo <= rsp <= a && a + 16 <= c.stacks[t].hi
  }

  /** ((mark - rsp) & (7 - page_size)), the expression lock_object evaluates after a failed CAS. */
  function StackTest(c: Config, mark: Word, rsp: Word): (r: Word) {
    And(Sub64(mark, rsp), Sub64(7, c.PageSize()))
  }

  predicate Enabled(c: Config, s: State, step: Step)
    requires |s.threads| == |c.stacks| && |s.mark| == |s.owner|
  {
    match step
    case MoveRsp(t, rsp) =>
      && t < |s.threads|
      && s.threads[t].pc.Idle?
      && Aligned(rsp) && c.stacks[t].lo <= rsp <= c.stacks[t].hi
      && (forall i | 0 <= i < |s.threads[t].held| :: rsp <= s.threads[t].held[i].slot)
      && (forall i | 0 <= i < |s.threads[t].left| :: rsp <= s.threads[t].left[i].slot)
    case BeginEnter(t, o, a, _) =>
      && t < |s.threads| && o < |s.mark|
      && s.threads[t].pc.Idle?
      && Placed(c, t, s.threads[t].rsp, a)
      && !UsesSlot(s.threads[t].held, a) && !UsesSlot(s.threads[t].left, a)
    case BeginExit(t, i) => t < |s.threads| && i < |s.threads[t].held| && s.threads[t].pc.Idle?
    case BeginClear(t, i) => t < |s.threads| && i < |s.threads[t].left| && s.threads[t].pc.Idle?
    case Advance(t) =>
      && t < |s.threads|
      && !s.threads[t].pc.Idle? && !s.threads[t].pc.SlowExit?
      && s.threads[t].pc.o < |s.mark|
      && s.threads[t].pc.a in s.slots
      && (s.threads[t].pc.SlowEnter? ==> SlowEnterReady(c, s, t, s.threads[t].pc.o))
    case SetHeader(o, w) =>
      o < |s.mark| && Neutral(s.mark[o]) && Neutral(w)
  }

  /** The runtime's slow_enter returns once it finds the object unlocked, or stack-locked by the
      calling thread; until then it waits without changing anything. */
  predicate SlowEnterReady(c: Config, s: State, t: nat, o: nat)
    requires o < |s.mark|
  {
    Neutral(s.mark[o]) || (Aligned(s.mark[o]) && c.InStack(t, s.mark[o]))
  }

  function SetThread(s: State, t: nat, th: Thread): State
    requires t < |s.threads|
  {
    s.(threads := s.threads[t := th])
  }

  /** The thread takes slot a of object o and leaves the locking code. */
  function Acquire(s: State, t: nat, o: nat, a: Word): State
    requires t < |s.threads|
  {
    var th := s.threads[t];
    SetThread(s, t, th.(held := th.held + [Held(a, o)], pc := Idle))
  }

  function GoTo(s: State, t: nat, pc: Pc): State
    requires t < |s.threads|
  {
    SetThread(s, t, s.threads[t].(pc := pc))
  }

  function StoreHeader(s: State, a: Word, d: Word): State
    requires a in s.slots
  {
    s.(slots := s.slots[a := s.slots[a].(displaced := d)])
  }

  function StoreObject(s: State, a: Word, obj: Option<nat>): State
    requires a in s.slots
  {
    s.(slots := s.slots[a := s.slots[a].(obj := obj)])
  }

  function Swing(s: State, o: nat, w: Word, owner: Option<nat>): State
    requires o < |s.mark| && o < |s.owner|
  {
    s.(mark := s.mark[o := w], owner := s.owner[o := owner])
  }

  function Apply(c: Config, s: State, step: Step): State
    requires |s.threads| == |c.stacks| && |s.mark| == |s.owner|
    requires Enabled(c, s, step)
  {
    match step
    case MoveRsp(t, rsp) => SetThread(s, t, s.threads[t].(rsp := rsp))
    case BeginEnter(t, o, a, junk) =>
      var d := if a in s.slots then s.slots[a].displaced else junk;
      GoTo(s.(slots := s.slots[a := Slot(d, Some(o))]), t, LoadMark(o, a))
    case BeginExit(t, i) =>
      var th := s.threads[t];
      SetThread(s, t, th.(held := HeldAfter(th.held, i), left := th.left + LeftAfter(th.held, i),
                          pc := LoadHeader(th.held[i].obj, th.held[i].slot, true)))
    case BeginClear(t, i) =>
      var th := s.threads[t];
      SetThread(s, t, th.(left := th.left[..i] + th.left[i + 1..],
                          pc := LoadHeader(th.left[i].obj, th.left[i].slot, false)))
    case SetHeader(o, w) => s.(mark := s.mark[o := w])
    case Advance(t) =>
      match s.threads[t].pc
      case LoadMark(o, a) => GoTo(s, t, StoreDisplaced(o, a, OrOne(s.mark[o])))
      case StoreDisplaced(o, a, rax) => GoTo(StoreHeader(s, a, rax), t, CasIn(o, a, rax))
      case CasIn(o, a, rax) =>
        if s.mark[o] == rax then Acquire(Swing(s, o, a, Some(t)), t, o, a)
        else GoTo(s, t, TestStack(o, a, s.mark[o]))
      case TestStack(o, a, rax) =>
        var d := StackTest(c, rax, s.threads[t].rsp);
        var s1 := StoreHeader(s, a, d);
        if d == 0 then Acquire(s1, t, o, a) else GoTo(s1, t, SlowEnter(o, a))
      case SlowEnter(o, a) =>
        if Neutral(s.mark[o]) then Acquire(Swing(StoreHeader(s, a, s.mark[o]), o, a, Some(t)), t, o, a)
        else Acquire(StoreHeader(s, a, 0), t, o, a)
      case LoadHeader(o, a, own) => GoTo(s, t, FreeEntry(o, a, s.slots[a].displaced, own))
      case FreeEntry(o, a, header, _) =>
        GoTo(StoreObject(s, a, None), t, if header == 0 then Idle else CasOut(o, a, header))
      case CasOut(o, a, header) =>
        if s.mark[o] == a then GoTo(Swing(s, o, header, None), t, Idle)
        else GoTo(StoreObject(s, a, Some(o)), t, SlowExit(o, a))
  }

  // ----- The invariant

  /** What a slot says about its object: the outermost slot is the object's mark and keeps the
      header, every other slot holds 0. */
  predicate SlotOk(s: State, a: Word, o: nat, outermost: bool) {
    && a in s.slots && o < |s.mark|
    && if outermost then s.mark[o] == a && Neutral(s.slots[a].displaced) else s.slots[a].displaced == 0
  }

  predicate HeldOk(c: Config, s: State, t: nat, rsp: Word, held: seq<Held>)
    requires t < |c.stacks|
  {
    && (forall i | 0 <= i < |held| ::
          && Placed(c, t, rsp, held[i].slot)
          && SlotOk(s, held[i].slot, held[i].obj, First(held, i))
          && s.slots[held[i].slot].obj == Some(held[i].obj)
          && held[i].obj < |s.owner| && s.owner[held[i].obj] == Some(t))
    && (forall i, j | 0 <= i < j < |held| :: held[i].slot != held[j].slot)
  }

  /** A slot that was left behind holds 0 and is used for nothing else. */
  predicate LeftOk(c: Config, s: State, t: nat, th: Thread)
    requires t < |c.stacks|
  {
    && (forall i | 0 <= i < |th.left| ::
          && Placed(c, t, th.rsp, th.left[i].slot)
          && th.left[i].slot in s.slots && th.left[i].obj < |s.mark|
          && s.slots[th.left[i].slot] == Slot(0, Some(th.left[i].obj))
          && !UsesSlot(th.held, th.left[i].slot)
          && (th.pc.Idle? || th.pc.a != th.left[i].slot))
    && (forall i, j | 0 <= i < j < |th.left| :: th.left[i].slot != th.left[j].slot)
  }

  ghost predicate PcOk(c: Config, s: State, t: nat, th: Thread)
    requires t < |c.stacks|
  {
    var pc := th.pc;
    pc.Idle? ||
    (&& pc.o < |s.mark| && pc.o < |s.owner|
     && pc.a in s.slots
     && Placed(c, t, th.rsp, pc.a)
     && !UsesSlot(th.held, pc.a)
     && (pc.Entering() ==> s.slots[pc.a].obj == Some(pc.o))
     && (pc.StoreDisplaced? ==> Neutral(pc.rax))
     && (pc.CasIn? ==> Neutral(pc.rax) && s.slots[pc.a].displaced == pc.rax)
     && (pc.TestStack? && Aligned(pc.rax) ==>
           c.InSomeStack(pc.rax) && (c.InStack(t, pc.rax) ==> s.owner[pc.o] == Some(t)))
     && (pc.Exiting() ==>
           s.owner[pc.o] == Some(t) && SlotOk(s, pc.a, pc.o, !Holds(th.held, pc.o)))
     && (pc.Clearing() ==> s.slots[pc.a].displaced == 0)
     && (pc.LoadHeader? || pc.FreeEntry? ==> s.slots[pc.a].obj == Some(pc.o))
     && (pc.FreeEntry? || pc.CasOut? ==> pc.header == s.slots[pc.a].displaced)
     && (pc.CasOut? ==> !Holds(th.held, pc.o))
     && !pc.SlowExit?)
  }

  ghost predicate ThreadOk(c: Config, s: State, t: nat)
    requires t < |c.stacks| && t < |s.threads|
  {
    var th := s.threads[t];
    && Aligned(th.rsp) && c.stacks[t].lo <= th.rsp <= c.stacks[t].hi
    && HeldOk(c, s, t, th.rsp, th.held)
    && LeftOk(c, s, t, th)
    && PcOk(c, s, t, th)
  }

  /** The thread holds o, or is on its way out of its outermost monitor of o. */
  predicate Occupies(th: Thread, o: nat) {
    Holds(th.held, o) || (th.pc.Exiting() && th.pc.o == o)
  }

  predicate ObjectOk(c: Config, s: State, o: nat)
    requires o < |s.mark| && o < |s.owner|
  {
    match s.owner[o]
    case None => Neutral(s.mark[o])
    case Some(t) =>
      && t < |s.threads| && Occupies(s.threads[t], o)
      && Aligned(s.mark[o]) && c.InStack(t, s.mark[o])
      && s.mark[o] in s.slots && Neutral(s.slots[s.mark[o]].displaced)
  }

  ghost predicate Inv(c: Config, s: State) {
    && c.Ok()
    && |s.threads| == |c.stacks| && |s.mark| == |s.owner|
    && (forall t | 0 <= t < |s.threads| :: ThreadOk(c, s, t))
    && (forall o | 0 <= o < |s.mark| :: ObjectOk(c, s, o))
  }

  /** Nothing is locked and nobody is inside the locking code. */
  predicate Init(c: Config, s: State) {
    && |s.threads| == |c.stacks| && |s.mark| == |s.owner|
    && (forall t | 0 <= t < |s.threads| ::
          && s.threads[t].held == [] && s.threads[t].left == [] && s.threads[t].pc == Idle
          && Aligned(s.threads[t].rsp) && c.stacks[t].lo <= s.threads[t].rsp <= c.stacks[t].hi)
    && (forall o | 0 <= o < |s.mark| :: s.owner[o] == None && Neutral(s.mark[o]))
  }
}
