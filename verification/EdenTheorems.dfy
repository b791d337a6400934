/** Whole runs of the allocator: objects never overlap and never move, eden stays parsable, and the
    two bound checks compared. */
module EdenTheorems {
  import opened Words
  import opened Eden
  import opened EdenProofs

  ghost predicate Run(c: Config, states: seq<State>, steps: seq<Step>) {
    && c.Ok()
    && |states| == |steps| + 1
    && Init(c, states[0])
    && (forall i | 0 <= i < |steps| ::
          Enabled(c, states[i], steps[i]) && states[i + 1] == Apply(c, states[i], steps[i]))
  }

  lemma {:induction false} RunKeepsInv(c: Config, states: seq<State>, steps: seq<Step>, i: nat)
    requires Run(c, states, steps) && i < |states|
    ensures Inv(c, states[i])
  {
    if i != 0 {
      RunKeepsInv(c, states, steps, i - 1);
      StepKeepsInv(c, states[i - 1], steps[i - 1]);
    }
  }

  // ----- Objects

  /** Object k of block i. */
  datatype Id = Id(i: nat, k: nat)

  predicate Given(s: State, x: Id) {
    x.i < |s.blocks| && x.k < |s.blocks[x.i].objs|
  }

  function Start(s: State, x: Id): (a: int)
    requires Given(s, x)
  {
    s.blocks[x.i].lo + Sum(s.blocks[x.i].objs[..x.k])
  }

  function End(s: State, x: Id): (a: int)
    requires Given(s, x)
  {
    Start(s, x) + s.blocks[x.i].objs[x.k]
  }

  lemma {:induction false} SumMonotone(sizes: seq<int>, k: nat, n: nat)
    requires k <= n <= |sizes| && forall j | 0 <= j < |sizes| :: 0 <= sizes[j]
    ensures 0 <= Sum(sizes[..k]) <= Sum(sizes[..n])
  {
    if n == 0 {
    } else {
      assert sizes[..n][..n - 1] == sizes[..n - 1];
      if k < n { SumMonotone(sizes, k, n - 1); } else { SumMonotone(sizes, n - 1, n - 1); }
    }
  }

  lemma {:induction false} ObjectInBlock(c: Config, s: State, x: Id)
    requires Inv(c, s) && Given(s, x)
    ensures s.blocks[x.i].lo <= Start(s, x) <= End(s, x) <= s.blocks[x.i].hi
    ensures s.blocks[x.i].user >= 0 ==>
              s.blocks[x.i].user < |s.threads| && End(s, x) <= s.threads[s.blocks[x.i].user].top
  {
    var b := s.blocks[x.i];
    assert Sized(b);
    SumMonotone(b.objs, 0, x.k);
    SumMonotone(b.objs, x.k + 1, |b.objs|);
    assert b.objs[..x.k + 1][..x.k] == b.objs[..x.k] && b.objs[..|b.objs|] == b.objs;
    if b.user >= 0 { assert TlabOk(c, s, b.user); }
  }

  /** Objects handed out in a run, by either of the shared-eden loops or from a buffer, and the
      fillers of discarded buffers lie inside eden and do not overlap. */
  lemma ObjectsDisjoint(c: Config, states: seq<State>, steps: seq<Step>, i: nat, x: Id, y: Id)
    requires Run(c, states, steps) && i < |states|
    requires Given(states[i], x) && Given(states[i], y) && x != y
    ensures var s := states[i];
            && c.start <= Start(s, x) <= End(s, x) <= s.top <= c.end
            && (End(s, x) <= Start(s, y) || End(s, y) <= Start(s, x))
  {
    RunKeepsInv(c, states, steps, i);
    var s := states[i];
    ObjectInBlock(c, s, x);
    ObjectInBlock(c, s, y);
    TileBounds(c.start, s.blocks, s.top, x.i);
    if x.i < y.i {
      TileOrder(c.start, s.blocks, s.top, x.i, y.i);
    } else if y.i < x.i {
      TileOrder(c.start, s.blocks, s.top, y.i, x.i);
    } else {
      OrderInBlock(s, x, y);
    }
  }

  lemma OrderInBlock(s: State, x: Id, y: Id)
    requires Given(s, x) && Given(s, y) && x.i == y.i && x.k != y.k && Sized(s.blocks[x.i])
    ensures End(s, x) <= Start(s, y) || End(s, y) <= Start(s, x)
  {
    var objs := s.blocks[x.i].objs;
    assert objs[..x.k + 1][..x.k] == objs[..x.k] && objs[..y.k + 1][..y.k] == objs[..y.k];
    if x.k < y.k { SumMonotone(objs, x.k + 1, y.k); } else { SumMonotone(objs, y.k + 1, x.k); }
  }

  /** The block b' continues b: the same range, and at least the same objects. */
  predicate Continues(b: Block, b': Block) {
    b'.lo == b.lo && b'.hi == b.hi && b.objs <= b'.objs
  }

  lemma StepContinues(c: Config, s: State, step: Step)
    requires Inv(c, s) && Enabled(c, s, step)
    ensures var s' := Apply(c, s, step);
            && s.top <= s'.top && |s.blocks| <= |s'.blocks|
            && forall i | 0 <= i < |s.blocks| :: Continues(s.blocks[i], s'.blocks[i])
  {
    assert TlabOk(c, s, step.t) && PcOk(c, s, s.threads[step.t]);
  }

  /** Eden's top never goes down, and an object once handed out keeps its place for the rest of the
      run, so no later allocation can overlap it. */
  lemma {:induction false} ObjectsStay(c: Config, states: seq<State>, steps: seq<Step>, i: nat, j: nat, x: Id)
    requires Run(c, states, steps) && i <= j < |states| && Given(states[i], x)
    ensures states[i].top <= states[j].top && Given(states[j], x)
    ensures Start(states[j], x) == Start(states[i], x) && End(states[j], x) == End(states[i], x)
    decreases j - i
  {
    if i < j {
      ObjectsStay(c, states, steps, i, j - 1, x);
      RunKeepsInv(c, states, steps, j - 1);
      ObjectStaysOnce(c, states[j - 1], steps[j - 1], x);
    }
  }

  lemma ObjectStaysOnce(c: Config, s: State, step: Step, x: Id)
    requires Inv(c, s) && Enabled(c, s, step) && Given(s, x)
    ensures var s' := Apply(c, s, step);
            && s.top <= s'.top && Given(s', x) && Start(s', x) == Start(s, x) && End(s', x) == End(s, x)
  {
    var s' := Apply(c, s, step);
    StepContinues(c, s, step);
    SameInContinued(s.blocks[x.i], s'.blocks[x.i], x.k);
  }

  lemma SameInContinued(b: Block, b': Block, k: nat)
    requires Continues(b, b') && k < |b.objs|
    ensures k < |b'.objs| && b'.lo == b.lo && b'.objs[..k] == b.objs[..k] && b'.objs[..k + 1] == b.objs[..k + 1]
  {
  }

  // ----- Parsability and conservation

  /** Walking a block object by object: where each object ends, from the block's start. */
  function Walk(lo: int, objs: seq<int>): (end: int)
    decreases |objs|
  {
    if objs == [] then lo else Walk(lo + objs[0], objs[1..])
  }

  lemma {:induction false} WalkIsSum(lo: int, objs: seq<int>)
    ensures Walk(lo, objs) == lo + Sum(objs)
    decreases |objs|
  {
    if |objs| > 1 {
      var n := |objs| - 1;
      WalkIsSum(lo + objs[0], objs[1..]);
      SumFromFront(objs);
    } else if |objs| == 1 {
      assert objs[1..] == [] && objs[..0] == [];
    }
  }

  lemma {:induction false} SumFromFront(objs: seq<int>)
    requires objs != []
    ensures Sum(objs) == objs[0] + Sum(objs[1..])
  {
    var n := |objs| - 1;
    if n > 0 {
      SumFromFront(objs[..n]);
      assert objs[..n][1..] == objs[1..][..n - 1];
    }
  }

  /** At every moment of a run, the blocks follow each other from the start of eden to its top; a
      walk through a block ends exactly where the next block starts or, in a buffer that is still in
      use, exactly at the thread's top, below the usable end that leaves the reserve to the block. */
  lemma EdenIsParsable(c: Config, states: seq<State>, steps: seq<Step>, n: nat, i: nat)
    requires Run(c, states, steps) && n < |states| && i < |states[n].blocks|
    ensures var s := states[n];
            var b := s.blocks[i];
            && b.lo == (if i == 0 then c.start else s.blocks[i - 1].hi)
            && (i == |s.blocks| - 1 ==> b.hi == s.top)
            && if b.user == -1 then Walk(b.lo, b.objs) == b.hi
               else
                 && 0 <= b.user < |s.threads| && s.threads[b.user].start == b.lo
                 && Walk(b.lo, b.objs) == s.threads[b.user].top <= s.threads[b.user].end
                 && s.threads[b.user].end + RESERVE_BYTES == b.hi
  {
    RunKeepsInv(c, states, steps, n);
    var s := states[n];
    var b := s.blocks[i];
    WalkIsSum(b.lo, b.objs);
    Neighbours(c.start, s.blocks, s.top, i);
    if b.user != -1 { assert TlabOk(c, s, b.user); }
  }

  lemma {:induction false} Neighbours(lo: nat, blocks: seq<Block>, hi: nat, i: nat)
    requires BlocksTile(lo, blocks, hi) && i < |blocks|
    ensures blocks[i].lo == if i == 0 then lo else blocks[i - 1].hi
  {
    var n := |blocks| - 1;
    if i < n {
      Neighbours(lo, blocks[..n], blocks[n].lo, i);
    }
  }

  function Total(blocks: seq<Block>): (n: int) {
    if blocks == [] then 0
    else Total(blocks[..|blocks| - 1]) + blocks[|blocks| - 1].hi - blocks[|blocks| - 1].lo
  }

  /** What eden has used is what it handed out, as objects and as buffers. */
  lemma EdenUsed(c: Config, states: seq<State>, steps: seq<Step>, i: nat)
    requires Run(c, states, steps) && i < |states|
    ensures states[i].top - c.start == Total(states[i].blocks)
  {
    RunKeepsInv(c, states, steps, i);
    TotalOfTile(c.start, states[i].blocks, states[i].top);
  }

  lemma {:induction false} TotalOfTile(lo: nat, blocks: seq<Block>, hi: nat)
    requires BlocksTile(lo, blocks, hi)
    ensures hi - lo == Total(blocks)
  {
    if blocks != [] {
      TotalOfTile(lo, blocks[..|blocks| - 1], blocks[|blocks| - 1].lo);
    }
  }

  // ----- The bound checks

  /** Whatever passes tlab_allocate's check fits in the buffer, if and only if the sum does not wrap
      around: a request whose sum wraps always passes, and never fits. */
  lemma TlabCheckIsSound(top: nat, end: nat, bytes: nat)
    requires top <= end < WORD && bytes < WORD
    ensures (Add64(top, bytes) <= end ==> top + bytes <= end) <==> top + bytes < WORD
  {
    if top + bytes >= WORD {
      assert Add64(top, bytes) == top + bytes - WORD;
    } else {
      assert Add64(top, bytes) == top + bytes;
    }
  }

  /** A request for nearly the whole address space passes tlab_allocate's check, but not the one of
      eden_allocate, whose end would lie below its start. */
  lemma TlabCheckCanWrap()
    ensures Add64(0x1000, 0xffff_ffff_ffff_f000) <= 0x2000
    ensures forall c: Config, use :: EdenTry(c, use, 0xffff_ffff_ffff_f000, 0x1000) == Idle
  {
    assert Add64(0x1000, 0xffff_ffff_ffff_f000) == 0;
  }

  // ----- Retained buffers

  /** The thread keeps its buffer at n refill requests in a row, without allocating from it. */
  predicate RetainsFor(c: Config, th: Thread, n: nat)
    decreases n
  {
    n == 0 || (Retains(th) && RetainsFor(c, th.(wasteLimit := Add64(th.wasteLimit, c.wasteIncrement)), n - 1))
  }

  /** n retained refills in a row raise the waste limit n - 1 times and still find more free space: there are
      fewer than (free - limit) / increment + 1 of them. */
  predicate FewRetains(c: Config, th: Thread, n: nat) {
    n > 0 ==> 0 < c.wasteIncrement && (n - 1) * c.wasteIncrement < Signed(FreeWords(th)) - Signed(th.wasteLimit)
  }

  /** The increments that raise every limit below `free` and do not carry it past the signed range. */
  predicate RaisesLimits(c: Config, free: nat) { 0 < c.wasteIncrement <= WORD / 2 - free }

  /** A buffer is retained a bounded number of times, whatever its limit is, if and only if the increment
      is positive and at most 2^63 minus its free words. */
  lemma RetainsIffRaised(c: Config, th: Thread)
    requires c.wasteIncrement < WORD
    ensures (forall limit: nat, n: nat | limit < WORD && RetainsFor(c, th.(wasteLimit := limit), n) ::
               FewRetains(c, th.(wasteLimit := limit), n)) <==>
            RaisesLimits(c, FreeWords(th))
  {
    if RaisesLimits(c, FreeWords(th)) {
      forall limit: nat, n: nat | limit < WORD && RetainsFor(c, th.(wasteLimit := limit), n)
        ensures FewRetains(c, th.(wasteLimit := limit), n)
      {
        RetainsBounded(c, th.(wasteLimit := limit), n);
      }
    } else {
      var limit := Sub64(FreeWords(th), 1);
      var n := TooManyRetains(c, th.(wasteLimit := limit));
      assert RetainsFor(c, th.(wasteLimit := limit), n);
    }
  }

  lemma {:induction false} RetainsBounded(c: Config, th: Thread, n: nat)
    requires RaisesLimits(c, FreeWords(th)) && th.wasteLimit < WORD && RetainsFor(c, th, n)
    ensures FewRetains(c, th, n)
    decreases n
  {
    if n > 0 {
      var next := th.(wasteLimit := Add64(th.wasteLimit, c.wasteIncrement));
      FreeWordsInRange(th);
      RaisedLimit(th.wasteLimit, c.wasteIncrement, FreeWords(th));
      RetainsBounded(c, next, n - 1);
      assert (n - 1) * c.wasteIncrement == if n == 1 then 0 else (n - 2) * c.wasteIncrement + c.wasteIncrement;
    }
  }

  lemma RaisedLimit(limit: nat, increment: nat, free: nat)
    requires limit < WORD && Signed(limit) < free && increment <= WORD / 2 - free
    ensures Signed(Add64(limit, increment)) == Signed(limit) + increment
  {
    if limit + increment >= WORD {
      assert Add64(limit, increment) == limit + increment - WORD;
    } else {
      assert Add64(limit, increment) == limit + increment;
    }
  }

  /** Without an increment a retained buffer is retained for ever. */
  lemma {:induction false} RetainedForEver(c: Config, th: Thread, n: nat)
    requires c.wasteIncrement == 0 && th.wasteLimit < WORD && Retains(th)
    ensures RetainsFor(c, th, n)
  {
    if n > 0 {
      assert th.(wasteLimit := Add64(th.wasteLimit, 0)) == th;
      RetainedForEver(c, th, n - 1);
    }
  }

  /** Any other increment leaves a limit just below the free space as it is, or makes it negative, and
      the buffer is retained again. */
  lemma TooManyRetains(c: Config, th: Thread) returns (n: nat)
    requires c.wasteIncrement < WORD && !RaisesLimits(c, FreeWords(th))
    requires th.wasteLimit == Sub64(FreeWords(th), 1)
    ensures RetainsFor(c, th, n) && !FewRetains(c, th, n)
  {
    FreeWordsInRange(th);
    LimitBelow(FreeWords(th), c.wasteIncrement);
    var next := th.(wasteLimit := Add64(th.wasteLimit, c.wasteIncrement));
    assert RetainsFor(c, next, 0);
    if c.wasteIncrement == 0 {
      n := 1;
    } else {
      n := 2;
      assert RetainsFor(c, next.(wasteLimit := Add64(next.wasteLimit, c.wasteIncrement)), 0);
      assert RetainsFor(c, next, 1);
    }
  }

  lemma LimitBelow(free: nat, increment: nat)
    requires free < 0x2000_0000_0000_0000 && increment < WORD
    ensures Signed(Sub64(free, 1)) == free - 1
    ensures increment > WORD / 2 - free ==> Signed(Add64(Sub64(free, 1), increment)) < free
  {
    var limit := Sub64(free, 1);
    assert limit == if free == 0 then WORD - 1 else free - 1;
    if increment > WORD / 2 - free {
      if limit + increment >= WORD {
        assert Add64(limit, increment) == limit + increment - WORD;
      } else {
        assert Add64(limit, increment) == limit + increment;
      }
    }
  }

  /** The words of the largest buffer that there is room for. */
  function LargestBuffer(c: Config): (words: nat)
    requires c.Ok()
  {
    var room := (c.end - c.start) / HEAP_WORD;
    if room < c.maxWords then room else c.maxWords
  }

  function LargestFree(c: Config): (free: nat)
    requires c.Ok()
  {
    if LargestBuffer(c) < RESERVE then 0 else LargestBuffer(c) - RESERVE
  }

  lemma FreeAtMost(c: Config, s: State, t: nat)
    requires Inv(c, s) && t < |s.threads|
    ensures FreeWords(s.threads[t]) <= LargestFree(c)
  {
    var th := s.threads[t];
    assert TlabOk(c, s, t);
    if th.top != 0 {
      TileBounds(c.start, s.blocks, s.top, th.cur);
      assert Sized(s.blocks[th.cur]);
      Distance(th.end, th.top);
      assert th.end + RESERVE_BYTES - th.top <= c.maxWords * HEAP_WORD;
      assert th.end + RESERVE_BYTES - th.top <= c.end - c.start;
    }
  }

  /** At the i-th moment of the run, thread t's buffer is not retained too often. */
  ghost predicate LetGo(c: Config, states: seq<State>, steps: seq<Step>, i: nat, t: nat, n: nat) {
    Run(c, states, steps) && i < |states| && t < |states[i].threads| && RetainsFor(c, states[i].threads[t], n) ==>
      FewRetains(c, states[i].threads[t], n)
  }

  /** At no moment of any run, with any limits, is a buffer retained too often, if and only if the increment is
      positive and at most 2^63 minus the free words of the largest buffer. */
  lemma RetainsAreBounded(c: Config)
    requires c.Ok()
    ensures (forall states: seq<State>, steps: seq<Step>, i: nat, t: nat, n: nat :: LetGo(c, states, steps, i, t, n)) <==>
            RaisesLimits(c, LargestFree(c))
  {
    if RaisesLimits(c, LargestFree(c)) {
      forall states: seq<State>, steps: seq<Step>, i: nat, t: nat, n: nat ensures LetGo(c, states, steps, i, t, n) {
        if Run(c, states, steps) && i < |states| && t < |states[i].threads| && RetainsFor(c, states[i].threads[t], n) {
          RunKeepsInv(c, states, steps, i);
          FreeAtMost(c, states[i], t);
          assert TlabOk(c, states[i], t);
          RetainsBounded(c, states[i].threads[t], n);
        }
      }
    } else {
      var states, steps := FreshBuffer(c);
      var n := TooManyRetains(c, states[|steps|].threads[0]);
      assert !LetGo(c, states, steps, |steps|, 0, n);
    }
  }

  /** A run to a new buffer of the largest size, or, when eden has no room for one, to no buffer, in which the
      waste limit is just below the free space. */
  lemma FreshBuffer(c: Config) returns (states: seq<State>, steps: seq<Step>)
    requires c.Ok()
    ensures Run(c, states, steps) && |states[|steps|].threads| == 1
    ensures var th := states[|steps|].threads[0];
            FreeWords(th) == LargestFree(c) && th.wasteLimit == Sub64(LargestFree(c), 1)
  {
    var free := LargestFree(c);
    var th := Thread(Idle, 0, 0, 0, free + RESERVE, Sub64(free, 1), 0);
    var s0 := State(c.start, [th], [], map[]);
    if free == 0 {
      states, steps := [s0], [];
    } else {
      var s1 := GoTo(s0, 0, EdenLoad(Tlab, TlabBytes(th)));
      var s2 := GoTo(s0, 0, EdenCas(Tlab, TlabBytes(th), c.start, c.start + TlabBytes(th)));
      LimitBelow(free, 0);
      FirstRefill(c, s0);
      states, steps := [s0, s1, s2, InstallTlab(s2, 0, c.start + TlabBytes(th))], [StartRefill(0), Advance(0), Advance(0)];
      FreshIsFree(c, s2, free);
    }
  }

  lemma FirstRefill(c: Config, s0: State)
    requires c.Ok() && |s0.threads| == 1 && s0.top == c.start
    requires var th := s0.threads[0]; th.pc.Idle? && th.top == th.end == 0 && !Retains(th) && c.start + TlabBytes(th) <= c.end
    ensures var bytes := TlabBytes(s0.threads[0]);
            var s1 := GoTo(s0, 0, EdenLoad(Tlab, bytes));
            var s2 := GoTo(s0, 0, EdenCas(Tlab, bytes, c.start, c.start + bytes));
            && Apply(c, s0, StartRefill(0)) == s1 && Apply(c, s1, Advance(0)) == s2
            && Apply(c, s2, Advance(0)) == InstallTlab(s2, 0, c.start + bytes)
  {
    TriesAreSound(c, Tlab, TlabBytes(s0.threads[0]), c.start);
  }

  lemma FreshIsFree(c: Config, s: State, free: nat)
    requires |s.threads| > 0 && s.top % HEAP_WORD == 0 && s.top + (free + RESERVE) * HEAP_WORD < WORD
    ensures FreeWords(InstallTlab(s, 0, s.top + (free + RESERVE) * HEAP_WORD).threads[0]) == free
  {
    var end := s.top + (free + RESERVE) * HEAP_WORD;
    Distance(end, RESERVE_BYTES);
    Distance(end - RESERVE_BYTES, s.top);
  }
}
