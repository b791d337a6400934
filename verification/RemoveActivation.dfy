/** Leaving an interpreter frame (interp_masm_amd64.cpp, remove_activation): the method's own
    monitor is released first, then the block is searched from the top, and the search restarts
    after every entry that is still occupied.

    Entry k of the block is at address Lock(k); entry 0 is the topmost.  Between any two operations
    other threads may change every mark but those of the objects that the frame's thread has locked
    through its entries. FrameReleases shows that this is so in every run of the locking protocol, also
    when they act between the instructions of one operation. */
module RemoveActivation {

  datatype Mode = Throw | Unwind(install: bool)
  datatype Outcome = Returned(exceptionInstalled: bool) | Threw

  const ENTRY_BYTES: nat := 16

  /** The frame leaves no monitor behind: a synchronized method holds its own, and no other. */
  predicate Balanced(synchronized: bool, obj: seq<nat>)
    requires synchronized ==> |obj| > 0
  {
    forall k | 0 <= k < |obj| :: obj[k] != 0 <==> synchronized && k == |obj| - 1
  }

  /** m1 is m0 with the header of every outermost entry put back, and every other mark as it was. */
  predicate AllRestored(m0: map<nat, nat>, obj: seq<nat>, displaced: seq<nat>, m1: map<nat, nat>)
    requires |obj| == |displaced|
  {
    && m1.Keys == m0.Keys
    && forall o | o in m0 ::
         && (forall k | 0 <= k < |obj| && obj[k] == o && displaced[k] != 0 :: m1[o] == displaced[k])
         && ((forall k | 0 <= k < |obj| && obj[k] == o :: displaced[k] == 0) ==> m1[o] == m0[o])
  }

  /** Exactly the outermost entries had their headers put back. */
  predicate AllPutBack(obj: seq<nat>, displaced: seq<nat>, restored: map<nat, nat>)
    requires |obj| == |displaced|
  {
    && (forall k | 0 <= k < |obj| && obj[k] != 0 && displaced[k] != 0 ::
          obj[k] in restored && restored[obj[k]] == displaced[k])
    && forall o | o in restored :: exists k :: 0 <= k < |obj| && obj[k] == o && displaced[k] != 0
  }

  predicate Empty(obj: seq<nat>) {
    forall k | 0 <= k < |obj| :: obj[k] == 0
  }

  function Occupied(obj: seq<nat>): (n: nat)
    ensures n == 0 <==> Empty(obj)
  {
    if obj == [] then 0 else (if obj[|obj| - 1] != 0 then 1 else 0) + Occupied(obj[..|obj| - 1])
  }

  lemma {:induction false} FreeingCounts(obj: seq<nat>, k: nat)
    requires k < |obj| && obj[k] != 0
    ensures Occupied(obj[k := 0]) == Occupied(obj) - 1
  {
    var n := |obj| - 1;
    if k == n {
      assert obj[k := 0][..n] == obj[..n];
    } else {
      FreeingCounts(obj[..n], k);
      assert obj[k := 0][..n] == obj[..n][k := 0];
    }
  }

  /** The address of entry k of the block at `block`. */
  function LockAt(block: nat, k: nat): (a: nat) { block + ENTRY_BYTES * k }

  /** What the locking protocol guarantees for the entries of one frame: an occupied entry is
      recursive, or its object's mark points to it. */
  predicate EntriesOk(block: nat, obj: seq<nat>, displaced: seq<nat>, mark: map<nat, nat>)
    requires |obj| == |displaced|
  {
    && 0 !in mark
    && forall k | 0 <= k < |obj| && obj[k] != 0 ::
         obj[k] in mark && (displaced[k] == 0 || mark[obj[k]] == LockAt(block, k))
  }

  /** What other threads may do to the marks. */
  predicate MarksKept(obj: seq<nat>, displaced: seq<nat>, mark: map<nat, nat>, m: map<nat, nat>)
    requires |obj| == |displaced|
  {
    && m.Keys == mark.Keys
    && forall k | 0 <= k < |obj| && obj[k] in mark && displaced[k] != 0 :: m[obj[k]] == mark[obj[k]]
  }

  class Activation {
    const synchronized: bool
    const block: nat                 // address of the topmost entry
    const displaced: seq<nat>
    const alone: bool                // no other thread changes any mark
    var doNotUnlock: bool            // _do_not_unlock_if_synchronized of the thread
    var obj: seq<nat>                // 0 is NULL
    var mark: map<nat, nat>          // the mark word of every object
    ghost var restored: map<nat, nat>  // the headers that this thread has put back

    function Lock(k: nat): (a: nat) { LockAt(block, k) }

    ghost predicate Valid()
      reads this
    {
      && |displaced| == |obj|
      && (synchronized ==> |obj| > 0)
      && EntriesOk(block, obj, displaced, mark)
    }

    constructor (sync: bool, top: nat, d: seq<nat>, o: seq<nat>, m: map<nat, nat>, quiet: bool)
      ensures synchronized == sync && block == top && displaced == d && obj == o && mark == m && !doNotUnlock
      ensures alone == quiet && restored == map[]
    {
      synchronized, block, doNotUnlock, displaced, obj, mark := sync, top, false, d, o, m;
      alone, restored := quiet, map[];
    }

    /** Any steps of other threads. */
    method Others()
      requires Valid()
      modifies this`mark
      ensures Valid() && mark.Keys == old(mark.Keys)
      ensures forall k | 0 <= k < |obj| && obj[k] != 0 && displaced[k] != 0 :: mark[obj[k]] == old(mark)[obj[k]]
      ensures alone ==> mark == old(mark)
    {
      var m: map<nat, nat> := *;
      if !alone && MarksKept(obj, displaced, mark, m) { mark := m; }
    }

    /** unlock_object: frees the entry and, unless it is recursive, swings the header back.  Returns
        whether the runtime had to be called. */
    method UnlockObject(k: nat) returns (slow: bool)
      requires k < |obj| == |displaced| && obj[k] in mark
      modifies this`obj, this`mark, this`restored
      ensures slow <==> displaced[k] != 0 && old(mark)[old(obj)[k]] != Lock(k)
      ensures obj == if slow then old(obj) else old(obj)[k := 0]
      ensures mark == if slow || displaced[k] == 0 then old(mark) else old(mark)[old(obj)[k] := displaced[k]]
      ensures restored == if slow || displaced[k] == 0 then old(restored) else old(restored)[old(obj)[k] := displaced[k]]
    {
      var o, header := obj[k], displaced[k];
      obj := obj[k := 0];
      if header == 0 { return false; }
      if mark[o] == Lock(k) {
        mark := mark[o := header];
        restored := restored[o := header];
        return false;
      }
      obj := obj[k := o];
      return true;
    }

    method Remove(mode: Mode) returns (r: Outcome)
      requires Valid() && restored == map[]
      modifies this`doNotUnlock, this`obj, this`mark, this`restored
      ensures Valid() && !doNotUnlock && |obj| == |old(obj)|
      // a synchronized frame under the do-not-unlock flag keeps its monitors
      ensures synchronized && old(doNotUnlock) ==>
                r == Returned(false) && obj == old(obj) && restored == map[] && (alone ==> mark == old(mark))
      // unwinding empties every slot and puts every outermost header back
      ensures !(synchronized && old(doNotUnlock)) && mode.Unwind? ==>
                && r == Returned(mode.install && !Balanced(synchronized, old(obj)))
                && Empty(obj) && AllPutBack(old(obj), displaced, restored)
                && (alone ==> AllRestored(old(mark), old(obj), displaced, mark))
      // a normal return does so too, and throws exactly when the locking was not block-structured
      ensures !(synchronized && old(doNotUnlock)) && mode.Throw? ==>
                && r == (if Balanced(synchronized, old(obj)) then Returned(false) else Threw)
                && (r.Returned? ==> Empty(obj) && AllPutBack(old(obj), displaced, restored))
                && (r.Returned? && alone ==> AllRestored(old(mark), old(obj), displaced, mark))
                && (r.Threw? ==> obj == if synchronized then old(obj)[|obj| - 1 := 0] else old(obj))
    {
      ghost var m0, o0 := mark, obj;
      var dont := doNotUnlock;
      doNotUnlock := false;
      var installed := false;
      if synchronized {
        if dont { return Returned(false); }
        var bottom := |obj| - 1;
        if obj[bottom] == 0 {
          assert !Balanced(synchronized, o0);
          if mode.Throw? { return Threw; }
          installed := mode.install;
        } else {
          Release(bottom, m0, o0);
        }
      }
      var o1 := obj;
      var more := UnlockRest(mode, m0, o0);
      if more.Threw? { return Threw; }
      return Returned(installed || more.exceptionInstalled);
    }

    /** Between m0, o0 and now, some entries were released and their headers put back. */
    ghost predicate Released(m0: map<nat, nat>, o0: seq<nat>)
      reads this
    {
      && Valid() && |obj| == |o0| && mark.Keys == m0.Keys
      && (forall k | 0 <= k < |obj| && obj[k] != 0 :: obj[k] == o0[k])
      && (forall k | 0 <= k < |obj| && o0[k] != 0 && displaced[k] != 0 ::
            && o0[k] in m0 && m0[o0[k]] == Lock(k)
            && (obj[k] == 0 ==> o0[k] in restored && restored[o0[k]] == displaced[k])
            && (alone ==> mark[o0[k]] == if obj[k] == 0 then displaced[k] else Lock(k)))
      && (forall o | o in restored :: exists k :: 0 <= k < |obj| && o0[k] == o && displaced[k] != 0)
      && (alone ==> forall o | o in m0 && mark[o] != m0[o] ::
            exists k :: 0 <= k < |obj| && o0[k] == o && displaced[k] != 0)
    }

    method Release(k: nat, ghost m0: map<nat, nat>, ghost o0: seq<nat>)
      requires Released(m0, o0) && k < |obj| && obj[k] != 0
      modifies this`obj, this`mark, this`restored
      ensures Released(m0, o0) && obj == old(obj)[k := 0]
    {
      Others();
      var slow := UnlockObject(k);
      assert o0[k] == old(obj)[k];
    }

    /** The restart loop: in Throw mode any occupied entry throws; otherwise entries are released
        until a search from the top finds none. */
    method UnlockRest(mode: Mode, ghost m0: map<nat, nat>, ghost o0: seq<nat>) returns (r: Outcome)
      requires Released(m0, o0)
      modifies this`obj, this`mark, this`restored
      ensures Released(m0, o0)
      ensures mode.Throw? ==> obj == old(obj) && r == if Empty(obj) then Returned(false) else Threw
      ensures mode.Unwind? ==> Empty(obj) && r == Returned(mode.install && !Empty(old(obj)))
    {
      var installed, found := false, true;
      while found
        invariant Released(m0, o0)
        invariant obj == old(obj) || (mode.Unwind? && !Empty(old(obj)))
        invariant installed == (mode.Unwind? && mode.install && obj != old(obj))
        invariant !found ==> Empty(obj)
        decreases found, Occupied(obj)
      {
        var k := 0;
        while k < |obj| && obj[k] == 0
          invariant k <= |obj| && forall j | 0 <= j < k :: obj[j] == 0
        {
          k := k + 1;
        }
        found := k < |obj|;
        if found {
          if mode.Throw? { return Threw; }
          FreeingCounts(obj, k);
          Release(k, m0, o0);
          installed := mode.install;
        }
      }
      return Returned(installed);
    }
  }
}
