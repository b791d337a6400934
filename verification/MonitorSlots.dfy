/** The monitor block of an interpreter frame (templateTable_amd64.cpp, monitorenter and
    monitorexit; interpreter_amd64.cpp, lock_method).

    The stack is an array of words that grows towards index 0.  An entry is two words, the
    displaced header and the object; 0 is NULL. */
module MonitorSlots {

  const ENTRY_SIZE: nat := 2
  /** interpreter_frame_initial_sp_offset; the word there points to the top of the monitor block. */
  const BLOCK_OFFSET: nat := 7

  datatype Entry = Entry(displaced: nat, obj: nat)

  /** The entries in m[top..bot), topmost first. */
  function Entries(m: seq<nat>, top: nat, bot: nat): (es: seq<Entry>)
    requires top <= bot <= |m| && (bot - top) % ENTRY_SIZE == 0
    ensures |es| == (bot - top) / ENTRY_SIZE
  {
    seq((bot - top) / ENTRY_SIZE, i requires 0 <= i < (bot - top) / ENTRY_SIZE =>
      Entry(m[top + ENTRY_SIZE * i], m[top + ENTRY_SIZE * i + 1]))
  }

  /** One entry more on top, and the others as they were. */
  lemma EntriesGrow(m: seq<nat>, m': seq<nat>, top: nat, bot: nat)
    requires ENTRY_SIZE <= top <= bot <= |m| == |m'| && (bot - top) % ENTRY_SIZE == 0
    requires forall q | top <= q < bot :: m'[q] == m[q]
    ensures (bot - (top - ENTRY_SIZE)) % ENTRY_SIZE == 0
    ensures var es := Entries(m', top - ENTRY_SIZE, bot);
            |es| == |Entries(m, top, bot)| + 1 && es[1..] == Entries(m, top, bot)
  {
    var es, was := Entries(m', top - ENTRY_SIZE, bot), Entries(m, top, bot);
    assert |es| == |was| + 1;
    forall i | 0 <= i < |was| ensures es[1..][i] == was[i] {
      assert es[i + 1] == Entry(m'[top + ENTRY_SIZE * i], m'[top + ENTRY_SIZE * i + 1]);
    }
  }

  /** Words that moved down by one entry. */
  lemma SliceMoves(m: seq<nat>, m': seq<nat>, a: nat, b: nat)
    requires ENTRY_SIZE <= a <= b <= |m| == |m'|
    requires forall q | a - ENTRY_SIZE <= q < b - ENTRY_SIZE :: m'[q] == m[q + ENTRY_SIZE]
    ensures m'[a - ENTRY_SIZE..b - ENTRY_SIZE] == m[a..b]
  {
    forall i | 0 <= i < b - a ensures m'[a - ENTRY_SIZE..b - ENTRY_SIZE][i] == m[a..b][i] {
      assert m'[a - ENTRY_SIZE + i] == m[a - ENTRY_SIZE + i + ENTRY_SIZE];
    }
  }

  /** The index of the topmost entry of obj, or the number of entries if there is none. */
  function TopIndex(es: seq<Entry>, obj: nat): (i: nat)
    ensures i <= |es|
    ensures i < |es| ==> es[i].obj == obj
    ensures forall j | 0 <= j < i :: es[j].obj != obj
  {
    if es == [] then 0 else if es[0].obj == obj then 0 else 1 + TopIndex(es[1..], obj)
  }

  /** The index of the lowest free entry among the first n, if any. */
  function LowestFree(es: seq<Entry>, n: nat): (i: int)
    requires n <= |es|
    ensures -1 <= i < n
    ensures i >= 0 ==> es[i].obj == 0
    ensures forall j | i < j < n :: es[j].obj != 0
  {
    if n == 0 then -1 else if es[n - 1].obj == 0 then n - 1 else LowestFree(es, n - 1)
  }

  /** The entry monitorenter takes: the free one closest above the topmost entry of the same
      object; without one (-1) it grows the block. */
  function Choice(es: seq<Entry>, obj: nat): (i: int)
    ensures -1 <= i < |es|
  {
    LowestFree(es, TopIndex(es, obj))
  }

  datatype Outcome = NullPointer | IllegalMonitorState | At(slot: nat)

  class Frame {
    const mem: array<nat>
    const rbp: nat
    var rsp: nat
    var bcp: nat

    function Bot(): nat { if BLOCK_OFFSET <= rbp then rbp - BLOCK_OFFSET else 0 }

    ghost predicate Valid()
      reads this, mem
    {
      && BLOCK_OFFSET <= rbp < mem.Length
      && rsp <= mem[Bot()] <= Bot()
      && (Bot() - mem[Bot()]) % ENTRY_SIZE == 0
    }

    ghost function Slots(): (es: seq<Entry>)
      requires Valid()
      reads this, mem
    {
      Entries(mem[..], mem[Bot()], Bot())
    }

    ghost function Expressions(): (xs: seq<nat>)
      requires Valid()
      reads this, mem
    {
      mem[rsp..mem[Bot()]]
    }

    /** The frame right after generate_fixed_frame: no monitors, an empty expression stack. */
    constructor (stack: array<nat>, fp: nat)
      requires BLOCK_OFFSET <= fp < stack.Length && stack[fp - BLOCK_OFFSET] == fp - BLOCK_OFFSET
      ensures mem == stack && rbp == fp && Valid()
      ensures Slots() == [] && Expressions() == []
    {
      mem, rbp, rsp, bcp := stack, fp, fp - BLOCK_OFFSET, 0;
    }

    /** lock_method up to its call of lock_object: the first entry of a synchronized method's frame. */
    method LockMethod(obj: nat) returns (slot: nat)
      requires Valid() && ENTRY_SIZE <= rsp && Slots() == [] && Expressions() == []
      modifies this`rsp, mem
      ensures Valid()
      ensures slot == rsp == old(rsp) - ENTRY_SIZE && |Slots()| == 1 && Slots()[0].obj == obj && Expressions() == []
      ensures forall p | old(rsp) <= p < mem.Length && p != Bot() :: mem[p] == old(mem[p])
    {
      rsp := rsp - ENTRY_SIZE;
      mem[Bot()] := rsp;
      mem[rsp + 1] := obj;
      slot := rsp;
    }

    /** monitorenter up to its call of lock_object: the slot that lock_object is given. */
    method MonitorEnter(obj: nat) returns (r: Outcome)
      requires Valid() && ENTRY_SIZE <= rsp
      modifies this`rsp, this`bcp, mem
      ensures Valid()
      ensures r == NullPointer <==> obj == 0
      ensures r != IllegalMonitorState
      ensures obj == 0 ==> rsp == old(rsp) && bcp == old(bcp) && mem[..] == old(mem[..])
      ensures obj != 0 ==> bcp == old(bcp) + 1
      // the expression stack keeps its contents
      ensures Expressions() == old(Expressions())
      // the slot is the chosen one, or a new one on top of the block
      ensures obj != 0 ==>
                var es, i := old(Slots()), Choice(old(Slots()), obj);
                if i >= 0 then
                  && r.slot == old(mem[Bot()]) + ENTRY_SIZE * i && rsp == old(rsp)
                  && Slots() == es[i := es[i].(obj := obj)]
                else
                  && r.slot == old(mem[Bot()]) - ENTRY_SIZE && rsp == old(rsp) - ENTRY_SIZE
                  && |Slots()| == |es| + 1 && Slots()[0].obj == obj && Slots()[1..] == es
      // nothing else in the frame, or in older frames, changes
      ensures forall p | old(mem[Bot()]) <= p < mem.Length && p != Bot() && (obj != 0 ==> p != r.slot + 1) ::
                mem[p] == old(mem[p])
    {
      if obj == 0 { return NullPointer; }
      var slot := FindSlot(obj);
      if slot == 0 {
        slot := Grow();
      }
      bcp := bcp + 1;
      StoreObject(slot, obj, (slot - mem[Bot()]) / ENTRY_SIZE);
      return At(slot);
    }

    /** Writes the object word of entry i. */
    method StoreObject(slot: nat, obj: nat, ghost i: nat)
      requires Valid() && i < |Slots()| && slot == mem[Bot()] + ENTRY_SIZE * i
      modifies mem
      ensures Valid() && mem[Bot()] == old(mem[Bot()])
      ensures Slots() == old(Slots())[i := old(Slots())[i].(obj := obj)]
      ensures Expressions() == old(Expressions())
      ensures forall p | 0 <= p < mem.Length && p != slot + 1 :: mem[p] == old(mem[p])
    {
      mem[slot + 1] := obj;
      assert Slots() == old(Slots())[i := old(Slots())[i].(obj := obj)];
      assert Expressions() == old(Expressions());
    }

    /** The search loop of monitorenter: the address of the entry to reuse, or 0 for none. */
    method FindSlot(obj: nat) returns (free: nat)
      requires Valid() && 0 < rsp && obj != 0
      ensures free == if Choice(Slots(), obj) >= 0 then mem[Bot()] + ENTRY_SIZE * Choice(Slots(), obj) else 0
    {
      ghost var es := Slots();
      var top, bot := mem[Bot()], Bot();
      var p := top;
      free := 0;                    // 0 stands for NULL
      ghost var k: nat := 0;        // p is entry k
      while p != bot
        invariant k <= |es| && p == top + ENTRY_SIZE * k
        invariant forall j | 0 <= j < k :: es[j].obj != obj
        invariant free == if LowestFree(es, k) >= 0 then top + ENTRY_SIZE * LowestFree(es, k) else 0
        decreases bot - p
      {
        assert es[k] == Entry(mem[p], mem[p + 1]);
        if mem[p + 1] == 0 { free := p; }
        if mem[p + 1] == obj { break; }
        p := p + ENTRY_SIZE;
        k := k + 1;
      }
      TopIndexUnique(es, obj, k);
    }

    /** Moves the expression stack down by one entry to make room for a new monitor entry. */
    method Grow() returns (slot: nat)
      requires Valid() && ENTRY_SIZE <= rsp
      modifies this`rsp, mem
      ensures Valid()
      ensures slot == mem[Bot()] == old(mem[Bot()]) - ENTRY_SIZE && rsp == old(rsp) - ENTRY_SIZE
      ensures Expressions() == old(Expressions())
      ensures |Slots()| == |old(Slots())| + 1 && Slots()[1..] == old(Slots())
      ensures forall p | old(mem[Bot()]) <= p < mem.Length && p != Bot() :: mem[p] == old(mem[p])
    {
      var bottom := mem[Bot()];
      rsp := rsp - ENTRY_SIZE;
      bottom := bottom - ENTRY_SIZE;
      var p := rsp;
      mem[Bot()] := bottom;
      while p != bottom
        invariant rsp == old(rsp) - ENTRY_SIZE <= p <= bottom
        invariant mem[Bot()] == bottom
        invariant forall q | rsp <= q < p :: mem[q] == old(mem[q + ENTRY_SIZE])
        invariant forall q | p <= q < mem.Length && q != Bot() :: mem[q] == old(mem[q])
        decreases bottom - p
      {
        mem[p] := mem[p + ENTRY_SIZE];
        p := p + 1;
      }
      slot := bottom;
      EntriesGrow(old(mem[..]), mem[..], old(mem[Bot()]), Bot());
      SliceMoves(old(mem[..]), mem[..], old(rsp), old(mem[Bot()]));
    }

    /** monitorexit, with the slot freed as unlock_object does first. */
    method MonitorExit(obj: nat) returns (r: Outcome)
      requires Valid() && 1 <= rsp
      modifies mem
      ensures Valid()
      ensures r == NullPointer <==> obj == 0
      ensures var i := TopIndex(old(Slots()), obj);
              obj != 0 ==>
                if i == |old(Slots())| then r == IllegalMonitorState && mem[..] == old(mem[..])
                else && r == At(old(mem[Bot()]) + ENTRY_SIZE * i)
                     && Slots() == old(Slots())[i := old(Slots())[i].(obj := 0)]
      ensures Expressions() == old(Expressions())
      ensures forall p | rsp <= p < mem.Length && (r.At? ==> p != r.slot + 1) :: mem[p] == old(mem[p])
    {
      if obj == 0 { return NullPointer; }
      ghost var es := Slots();
      var top, bot := mem[Bot()], Bot();
      var p := top;
      ghost var k: nat := 0;
      while p != bot
        invariant k <= |es| && p == top + ENTRY_SIZE * k
        invariant forall j | 0 <= j < k :: es[j].obj != obj
        decreases bot - p
      {
        assert es[k] == Entry(mem[p], mem[p + 1]);
        if mem[p + 1] == obj { break; }
        p := p + ENTRY_SIZE;
        k := k + 1;
      }
      TopIndexUnique(es, obj, k);
      if p == bot { return IllegalMonitorState; }
      mem[rsp - 1] := obj;          // pushq(rax): below the stack again after popq(rax)
      assert Slots() == es;
      StoreObject(p, 0, k);
      return At(p);
    }
  }

  lemma TopIndexUnique(es: seq<Entry>, obj: nat, k: nat)
    requires k <= |es| && (k < |es| ==> es[k].obj == obj)
    requires forall j | 0 <= j < k :: es[j].obj != obj
    ensures k == TopIndex(es, obj)
  {
  }
}
