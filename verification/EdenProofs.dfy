/** Every allocation step keeps eden tiled by blocks and every block filled by objects from its
    start; what follows for whole runs. */
module EdenProofs {
  import opened Words
  import opened CodeBytes
  import opened Eden

  // ----- Sequences of blocks and objects

  lemma SumAppend(sizes: seq<int>, n: int)
    ensures Sum(sizes + [n]) == Sum(sizes) + n
  {
    assert (sizes + [n])[..|sizes|] == sizes;
  }

  lemma TileAppend(lo: nat, blocks: seq<Block>, mid: nat, b: Block)
    requires BlocksTile(lo, blocks, mid) && b.lo == mid <= b.hi
    ensures BlocksTile(lo, blocks + [b], b.hi)
  {
    assert (blocks + [b])[..|blocks|] == blocks;
  }

  lemma {:induction false} TileReplace(lo: nat, blocks: seq<Block>, hi: nat, i: nat, objs: seq<int>, user: int)
    requires BlocksTile(lo, blocks, hi) && i < |blocks|
    ensures BlocksTile(lo, blocks[i := blocks[i].(objs := objs, user := user)], hi)
  {
    var n := |blocks| - 1;
    if i == n {
      assert blocks[i := blocks[i].(objs := objs, user := user)][..n] == blocks[..n];
    } else {
      TileReplace(lo, blocks[..n], blocks[n].lo, i, objs, user);
      assert blocks[i := blocks[i].(objs := objs, user := user)][..n] == blocks[..n][i := blocks[i].(objs := objs, user := user)];
    }
  }

  lemma {:induction false} TileBounds(lo: nat, blocks: seq<Block>, hi: nat, i: nat)
    requires BlocksTile(lo, blocks, hi) && i < |blocks|
    ensures lo <= blocks[i].lo <= blocks[i].hi <= hi
  {
    var n := |blocks| - 1;
    TileLow(lo, blocks[..n], blocks[n].lo);
    if i < n {
      TileBounds(lo, blocks[..n], blocks[n].lo, i);
    }
  }

  lemma {:induction false} TileLow(lo: nat, blocks: seq<Block>, hi: nat)
    requires BlocksTile(lo, blocks, hi)
    ensures lo <= hi
  {
    if blocks != [] {
      TileLow(lo, blocks[..|blocks| - 1], blocks[|blocks| - 1].lo);
    }
  }

  lemma {:induction false} TileOrder(lo: nat, blocks: seq<Block>, hi: nat, i: nat, j: nat)
    requires BlocksTile(lo, blocks, hi) && i < j < |blocks|
    ensures blocks[i].hi <= blocks[j].lo
  {
    var n := |blocks| - 1;
    if j < n {
      TileOrder(lo, blocks[..n], blocks[n].lo, i, j);
    } else {
      TileBounds(lo, blocks[..n], blocks[n].lo, i);
    }
  }

  // ----- The filler array

  /** The filler array that tlab_refill writes covers the free space and the reserve exactly, if and
      only if the free space is below 2^28 words: beyond that the array's size overflows a jint.
      FreeWords, a register shifted right by three, is always below 2^61. */
  lemma FillerCovers(free: nat)
    requires free < 0x2000_0000_0000_0000
    ensures ArrayWords(FillerLength(free)) == free + RESERVE <==> free < MAX_FILLER
  {
    FillerLengthIs(free);
    if free < MAX_FILLER {
      assert Truncated(2 * free) == 2 * free;
      assert Truncated(8 * free + 7) == 8 * free + 7;
    } else {
      assert Truncated(4 * Truncated(2 * free) + 7) < 0x8000_0000;
    }
  }

  /** The filler covers a new buffer of this size when nothing has been allocated from it. */
  predicate FillsNew(words: nat)
    requires RESERVE <= words
  {
    ArrayWords(FillerLength(words - RESERVE)) == words
  }

  /** A cap on the size of buffers lets in only buffers that the filler can fill if and only if it is below
      2^28 + 3 words; max_size() is above that. */
  lemma CapIsEnoughIff(cap: nat)
    requires cap < 0x2000_0000_0000_0000
    ensures (forall words: nat | RESERVE <= words <= cap :: FillsNew(words)) <==> cap < MAX_FILLER + RESERVE
    ensures MAX_SIZE >= MAX_FILLER + RESERVE
  {
    forall words: nat | RESERVE <= words <= cap ensures FillsNew(words) <==> words < MAX_FILLER + RESERVE {
      FillerCovers(words - RESERVE);
    }
    if MAX_FILLER + RESERVE <= cap { assert !FillsNew(MAX_FILLER + RESERVE); }
  }

  /** Every buffer's free space is in that range. */
  lemma FreeWordsInRange(th: Thread)
    ensures FreeWords(th) < 0x2000_0000_0000_0000
  {
  }

  lemma FillerLengthIs(free: nat)
    requires free < 0x2000_0000_0000_0000
    ensures FillerLength(free) == 2 * free
  {
    if free < HEADER {
      assert Sub64(free, HEADER) == free - HEADER + WORD;
    }
    assert Add64(Sub64(free, HEADER), RESERVE) == free;
  }

  lemma FreeWordsExact(c: Config, s: State, t: nat)
    requires c.Ok() && t < |s.threads| && TlabOk(c, s, t) && s.threads[t].top != 0
    ensures var th := s.threads[t];
            && FreeWords(th) * HEAP_WORD == th.end - th.top && FreeWords(th) < MAX_FILLER
            && ArrayWords(FillerLength(FreeWords(th))) * HEAP_WORD == th.end + RESERVE_BYTES - th.top
  {
    Distance(s.threads[t].end, s.threads[t].top);
    FillerCovers(FreeWords(s.threads[t]));
  }

  lemma Distance(end: nat, top: nat)
    requires top <= end < WORD && top % HEAP_WORD == 0 && end % HEAP_WORD == 0
    ensures Sub64(end, top) == end - top && Sub64(end, top) / HEAP_WORD * HEAP_WORD == end - top
  {
  }

  // ----- Steps

  /** A step of thread t that changes only t's registers, not its buffer. */
  lemma RegistersOnly(c: Config, s: State, t: nat, th: Thread)
    requires Inv(c, s) && t < |s.threads|
    requires th == s.threads[t].(pc := th.pc, wasteLimit := th.wasteLimit) && PcOk(c, s, th) && th.wasteLimit < WORD
    ensures Inv(c, SetThread(s, t, th))
  {
    RegistersThreads(c, s, t, th);
  }

  lemma RegistersThreads(c: Config, s: State, t: nat, th: Thread)
    requires ThreadsOk(c, s) && t < |s.threads|
    requires th == s.threads[t].(pc := th.pc, wasteLimit := th.wasteLimit) && PcOk(c, s, th) && th.wasteLimit < WORD
    ensures ThreadsOk(c, SetThread(s, t, th))
  {
    var s' := SetThread(s, t, th);
    forall u | 0 <= u < |s'.threads| ensures TlabOk(c, s', u) && PcOk(c, s', s'.threads[u]) {
      assert TlabOk(c, s, u) && PcOk(c, s, s.threads[u]);
    }
  }

  /** Buffers in use are different blocks, so their tops differ too. */
  lemma TopsDiffer(c: Config, s: State, t: nat, u: nat)
    requires BlocksTile(c.start, s.blocks, s.top) && t < |s.threads| && u < |s.threads| && t != u
    requires TlabOk(c, s, t) && TlabOk(c, s, u)
    requires s.threads[t].top != 0 && s.threads[u].top != 0
    ensures s.threads[t].top != s.threads[u].top && s.threads[t].cur != s.threads[u].cur
  {
    var a, b := s.threads[t], s.threads[u];
    if a.cur < b.cur {
      TileOrder(c.start, s.blocks, s.top, a.cur, b.cur);
    } else if b.cur < a.cur {
      TileOrder(c.start, s.blocks, s.top, b.cur, a.cur);
    }
  }

  /** Another thread's part survives when its registers, its block and its filler do. */
  lemma OtherOk(c: Config, s: State, s': State, u: nat)
    requires u < |s.threads| == |s'.threads| && s'.threads[u] == s.threads[u]
    requires TlabOk(c, s, u) && PcOk(c, s, s.threads[u])
    requires s.threads[u].top != 0 ==>
               && s.threads[u].cur < |s.blocks| <= |s'.blocks|
               && s'.blocks[s.threads[u].cur] == s.blocks[s.threads[u].cur]
               && (s.threads[u].top in s.length ==>
                     s.threads[u].top in s'.length && s'.length[s.threads[u].top] == s.length[s.threads[u].top])
    ensures TlabOk(c, s', u) && PcOk(c, s', s'.threads[u])
  {
  }

  /** Writing the filler's length leaves the other buffers' fillers alone. */
  lemma FillKeeps(c: Config, s: State, t: nat)
    requires Inv(c, s) && t < |s.threads| && s.threads[t].top != 0 && s.threads[t].pc.Idle?
    ensures var th := s.threads[t];
            var s1 := s.(length := s.length[th.top := FillerLength(FreeWords(th))]);
            Inv(c, s1) && ArrayWords(s1.length[th.top]) * HEAP_WORD == th.end + RESERVE_BYTES - th.top
  {
    var th := s.threads[t];
    var s1 := s.(length := s.length[th.top := FillerLength(FreeWords(th))]);
    assert TlabOk(c, s, t);
    FreeWordsExact(c, s, t);
    forall u | 0 <= u < |s.threads| ensures TlabOk(c, s1, u) && PcOk(c, s1, s1.threads[u]) {
      assert TlabOk(c, s, u) && PcOk(c, s, s.threads[u]);
      if u != t && s.threads[u].top != 0 { TopsDiffer(c, s, t, u); }
      if u != t { OtherOk(c, s, s1, u); }
    }
  }

  lemma StaysAligned(top: nat, words: nat)
    requires top % HEAP_WORD == 0
    ensures (top + words * HEAP_WORD) % HEAP_WORD == 0
  {
  }

  function Placed(s: State, t: nat, bytes: nat): State
    requires t < |s.threads|
  {
    Place(SetThread(s, t, s.threads[t].(top := Add64(s.threads[t].top, bytes))), s.threads[t].cur, bytes)
  }

  lemma PlacedTlab(c: Config, s: State, t: nat, bytes: nat)
    requires t < |s.threads| && TlabOk(c, s, t) && s.threads[t].top != 0
    requires bytes % HEAP_WORD == 0 && s.threads[t].top + bytes <= s.threads[t].end
    ensures TlabOk(c, Placed(s, t, bytes), t)
  {
    var th := s.threads[t];
    var th' := Placed(s, t, bytes).threads[t];
    StaysAligned(th.top, bytes / HEAP_WORD);
    assert th' == th.(top := th.top + bytes);
    SumAppend(s.blocks[th.cur].objs, bytes);
    assert Placed(s, t, bytes).blocks[th.cur] == s.blocks[th.cur].(objs := s.blocks[th.cur].objs + [bytes]);
  }

  lemma PlacedThreads(c: Config, s: State, t: nat, bytes: nat)
    requires ThreadsOk(c, s) && BlocksTile(c.start, s.blocks, s.top)
    requires t < |s.threads| && s.threads[t].pc.Idle? && s.threads[t].top != 0
    requires bytes % HEAP_WORD == 0 && s.threads[t].top + bytes <= s.threads[t].end
    ensures ThreadsOk(c, Placed(s, t, bytes))
  {
    var s' := Placed(s, t, bytes);
    assert TlabOk(c, s, t);
    PlacedTlab(c, s, t, bytes);
    forall u | 0 <= u < |s'.threads| && u != t ensures TlabOk(c, s', u) && PcOk(c, s', s'.threads[u]) {
      assert TlabOk(c, s, u) && PcOk(c, s, s.threads[u]);
      if s.threads[u].top != 0 { TopsDiffer(c, s, t, u); }
      OtherOk(c, s, s', u);
    }
  }

  lemma TlabAllocateKeeps(c: Config, s: State, t: nat, bytes: nat)
    requires Inv(c, s) && Enabled(c, s, TlabAllocate(t, bytes))
    ensures Inv(c, Apply(c, s, TlabAllocate(t, bytes)))
  {
    var th := s.threads[t];
    assert TlabOk(c, s, t);
    assert Add64(th.top, bytes) == th.top + bytes;
    if th.top + bytes <= th.end {
      TileReplace(c.start, s.blocks, s.top, th.cur, s.blocks[th.cur].objs + [bytes], t);
      PlacedThreads(c, s, t, bytes);
    }
  }

  lemma TakeObjectThreads(c: Config, s: State, t: nat, bytes: nat)
    requires ThreadsOk(c, s) && t < |s.threads|
    ensures ThreadsOk(c, TakeObject(s, t, bytes, s.top + bytes))
  {
    var s' := TakeObject(s, t, bytes, s.top + bytes);
    assert TlabOk(c, s, t);
    forall u | 0 <= u < |s'.threads| && u != t ensures TlabOk(c, s', u) && PcOk(c, s', s'.threads[u]) {
      assert TlabOk(c, s, u) && PcOk(c, s, s.threads[u]);
      OtherOk(c, s, s', u);
    }
  }

  lemma TakeObjectBlocks(lo: nat, s: State, t: nat, bytes: nat)
    requires BlocksTile(lo, s.blocks, s.top) && BlocksOk(s) && t < |s.threads|
    ensures var s' := TakeObject(s, t, bytes, s.top + bytes); BlocksTile(lo, s'.blocks, s'.top) && BlocksOk(s')
  {
    TileAppend(lo, s.blocks, s.top, Block(s.top, [bytes], s.top + bytes, -1));
    SumAppend([], bytes);
    assert [] + [bytes] == [bytes];
  }

  /** The parts of the invariant, put together. */
  lemma Together(c: Config, s: State)
    requires c.Ok() && s.top % HEAP_WORD == 0 && c.start <= s.top <= c.end
    requires BlocksTile(c.start, s.blocks, s.top) && ThreadsOk(c, s) && BlocksOk(s)
    ensures Inv(c, s)
  {
  }

  /** An object allocated in shared eden extends the tiling by a full block. */
  lemma TakeObjectKeeps(c: Config, s: State, t: nat, bytes: nat)
    requires Inv(c, s) && t < |s.threads| && bytes % HEAP_WORD == 0 && s.top + bytes <= c.end
    ensures Inv(c, TakeObject(s, t, bytes, s.top + bytes))
  {
    TakeObjectThreads(c, s, t, bytes);
    TakeObjectBlocks(c.start, s, t, bytes);
    StaysAligned(s.top, bytes / HEAP_WORD);
    Together(c, TakeObject(s, t, bytes, s.top + bytes));
  }

  /** Thread t's filler covers the rest of its buffer. */
  predicate Filled(s: State, t: nat)
    requires t < |s.threads|
  {
    var th := s.threads[t];
    th.top != 0 ==>
      && th.top in s.length
      && ArrayWords(s.length[th.top]) * HEAP_WORD == th.end + RESERVE_BYTES - th.top
  }

  /** The old buffer with its filler is full, and still tiles eden with the rest. */
  lemma RetiredTiles(c: Config, s: State, t: nat)
    requires c.Ok() && BlocksTile(c.start, s.blocks, s.top) && BlocksOk(s)
    requires t < |s.threads| && TlabOk(c, s, t) && Filled(s, t)
    ensures var blocks := Retired(s, s.threads[t]);
            && BlocksTile(c.start, blocks, s.top) && |blocks| == |s.blocks|
            && (forall i | 0 <= i < |s.blocks| && s.blocks[i].user != t :: blocks[i] == s.blocks[i])
            && (forall i | 0 <= i < |s.blocks| && s.blocks[i].user == t ::
                  blocks[i].user == -1 && Sized(blocks[i]) && Full(blocks[i]))
  {
    var th := s.threads[t];
    if th.top != 0 {
      var b := s.blocks[th.cur];
      var filler := ArrayWords(s.length[th.top]) * HEAP_WORD;
      SumAppend(b.objs, filler);
      assert Sized(b);
      TileReplace(c.start, s.blocks, s.top, th.cur, b.objs + [filler], -1);
    }
  }

  lemma InstalledTlab(c: Config, s: State, t: nat, end: nat)
    requires c.Ok() && t < |s.threads| && c.start <= s.top && s.top % HEAP_WORD == 0 && SizeOk(c, s.threads[t])
    requires end == s.top + TlabBytes(s.threads[t]) <= c.end && |Retired(s, s.threads[t])| == |s.blocks|
    ensures TlabOk(c, InstallTlab(s, t, end), t)
  {
    Distance(end, RESERVE_BYTES);
    assert InstallTlab(s, t, end).blocks[|s.blocks|] == Block(s.top, [], end, t);
  }

  lemma InstalledThreads(c: Config, s: State, t: nat, end: nat)
    requires Inv(c, s) && t < |s.threads| && end == s.top + TlabBytes(s.threads[t]) <= c.end && Filled(s, t)
    ensures ThreadsOk(c, InstallTlab(s, t, end))
  {
    var s' := InstallTlab(s, t, end);
    assert TlabOk(c, s, t);
    RetiredTiles(c, s, t);
    InstalledTlab(c, s, t, end);
    forall u | 0 <= u < |s'.threads| && u != t ensures TlabOk(c, s', u) && PcOk(c, s', s'.threads[u]) {
      assert TlabOk(c, s, u) && PcOk(c, s, s.threads[u]);
      OtherOk(c, s, s', u);
    }
  }

  lemma InstalledBlocks(c: Config, s: State, t: nat, end: nat)
    requires c.Ok() && BlocksTile(c.start, s.blocks, s.top) && BlocksOk(s)
    requires t < |s.threads| && TlabOk(c, s, t) && Filled(s, t) && s.top != 0 && end == s.top + TlabBytes(s.threads[t])
    ensures var s' := InstallTlab(s, t, end);
            BlocksTile(c.start, s'.blocks, s'.top) && BlocksOk(s')
  {
    var s' := InstallTlab(s, t, end);
    RetiredTiles(c, s, t);
    TileAppend(c.start, Retired(s, s.threads[t]), s.top, Block(s.top, [], s'.top, t));
    NewBlockOk(s, s', t);
  }

  lemma NewBlockOk(s: State, s': State, t: nat)
    requires BlocksOk(s) && t < |s.threads| && |s'.blocks| == |s.blocks| + 1
    requires s'.blocks[|s.blocks|].user == t && s'.blocks[|s.blocks|].objs == []
    requires |s'.threads| == |s.threads| && s'.threads[t].top != 0 && s'.threads[t].cur == |s.blocks|
    requires forall u | 0 <= u < |s.threads| && u != t :: s'.threads[u] == s.threads[u]
    requires forall i | 0 <= i < |s.blocks| && s.blocks[i].user != t :: s'.blocks[i] == s.blocks[i]
    requires forall i | 0 <= i < |s.blocks| && s.blocks[i].user == t ::
               s'.blocks[i].user == -1 && Sized(s'.blocks[i]) && Full(s'.blocks[i])
    ensures BlocksOk(s')
  {
    forall i | 0 <= i < |s.blocks|
      ensures Sized(s'.blocks[i])
      ensures if s'.blocks[i].user == -1 then Full(s'.blocks[i])
              else 0 <= s'.blocks[i].user < |s'.threads|
                   && s'.threads[s'.blocks[i].user].top != 0 && s'.threads[s'.blocks[i].user].cur == i
    {
      assert Sized(s.blocks[i]);
    }
  }

  lemma InstallKeeps(c: Config, s: State, t: nat, end: nat)
    requires Inv(c, s) && t < |s.threads| && Filled(s, t)
    requires end == s.top + TlabBytes(s.threads[t]) <= c.end
    ensures Inv(c, InstallTlab(s, t, end))
  {
    var s' := InstallTlab(s, t, end);
    assert ThreadsOk(c, s') by { InstalledThreads(c, s, t, end); }
    assert BlocksTile(c.start, s'.blocks, s'.top) && BlocksOk(s') by {
      assert TlabOk(c, s, t);
      InstalledBlocks(c, s, t, end);
    }
    StaysAligned(s.top, s.threads[t].size);
    Together(c, s');
  }

  lemma RefillKeeps(c: Config, s: State, t: nat)
    requires Inv(c, s) && t < |s.threads| && s.threads[t].pc.Idle?
    ensures var th := s.threads[t];
            var s1 := if th.top == 0 then s else s.(length := s.length[th.top := FillerLength(FreeWords(th))]);
            Inv(c, GoTo(s1, t, EdenLoad(Tlab, TlabBytes(th))))
  {
    var th := s.threads[t];
    if th.top == 0 {
      RegistersOnly(c, s, t, th.(pc := EdenLoad(Tlab, TlabBytes(th))));
    } else {
      FilledKeeps(c, s, t);
    }
  }

  lemma FilledKeeps(c: Config, s: State, t: nat)
    requires Inv(c, s) && t < |s.threads| && s.threads[t].pc.Idle? && s.threads[t].top != 0
    ensures var th := s.threads[t];
            var s1 := s.(length := s.length[th.top := FillerLength(FreeWords(th))]);
            Inv(c, GoTo(s1, t, EdenLoad(Tlab, TlabBytes(th))))
  {
    var th := s.threads[t];
    var s1 := s.(length := s.length[th.top := FillerLength(FreeWords(th))]);
    FillKeeps(c, s, t);
    TlabRequestOk(c, s1, t);
    RegistersOnly(c, s1, t, th.(pc := EdenLoad(Tlab, TlabBytes(th))));
  }

  lemma TlabRequestOk(c: Config, s: State, t: nat)
    requires Inv(c, s) && t < |s.threads| && Filled(s, t)
    ensures PcOk(c, s, s.threads[t].(pc := EdenLoad(Tlab, TlabBytes(s.threads[t]))))
  {
    assert TlabOk(c, s, t);
  }

  lemma StartRefillKeeps(c: Config, s: State, t: nat)
    requires Inv(c, s) && Enabled(c, s, StartRefill(t))
    ensures Inv(c, Apply(c, s, StartRefill(t)))
  {
    var th := s.threads[t];
    if Retains(th) {
      RegistersOnly(c, s, t, th.(wasteLimit := Add64(th.wasteLimit, c.wasteIncrement)));
    } else {
      RefillKeeps(c, s, t);
    }
  }

  lemma ResizeKeeps(c: Config, s: State, t: nat, words: nat, limit: nat)
    requires Inv(c, s) && Enabled(c, s, Resize(t, words, limit))
    ensures Inv(c, Apply(c, s, Resize(t, words, limit)))
  {
    var s' := Apply(c, s, Resize(t, words, limit));
    forall u | 0 <= u < |s'.threads| ensures TlabOk(c, s', u) && PcOk(c, s', s'.threads[u]) {
      assert TlabOk(c, s, u) && PcOk(c, s, s.threads[u]);
    }
  }

  /** The bound checks let through only ranges of eden: for eden_allocate whatever the size is. */
  lemma TriesAreSound(c: Config, use: Use, bytes: nat, obj: nat)
    requires bytes < WORD && obj < WORD && c.end < WORD
    ensures EdenTry(c, use, bytes, obj).EdenCas? <==> obj + bytes <= c.end
    ensures EdenTry(c, use, bytes, obj).EdenCas? ==> EdenTry(c, use, bytes, obj).end == obj + bytes
    ensures c.end + bytes < WORD && obj <= c.end ==>
              (NewTry(c, bytes, obj).NewCas? <==> obj + bytes <= c.end)
              && (NewTry(c, bytes, obj).NewCas? ==> NewTry(c, bytes, obj).end == obj + bytes)
  {
    if obj + bytes < WORD {
      assert Add64(obj, bytes) == obj + bytes;
    } else {
      assert Add64(obj, bytes) == obj + bytes - WORD;
    }
  }

  lemma EdenLoadKeeps(c: Config, s: State, t: nat)
    requires Inv(c, s) && Enabled(c, s, Advance(t)) && s.threads[t].pc.EdenLoad?
    ensures Inv(c, Apply(c, s, Advance(t)))
  {
    var th := s.threads[t];
    assert PcOk(c, s, th);
    TriesAreSound(c, th.pc.use, th.pc.bytes, s.top);
    RegistersOnly(c, s, t, th.(pc := EdenTry(c, th.pc.use, th.pc.bytes, s.top)));
  }

  lemma EdenCasKeeps(c: Config, s: State, t: nat)
    requires Inv(c, s) && Enabled(c, s, Advance(t)) && s.threads[t].pc.EdenCas?
    ensures Inv(c, Apply(c, s, Advance(t)))
  {
    var pc := s.threads[t].pc;
    assert PcOk(c, s, s.threads[t]);
    if s.top != pc.obj {
      RegistersOnly(c, s, t, s.threads[t].(pc := EdenLoad(pc.use, pc.bytes)));
    } else if pc.use.Tlab? {
      CasInstalls(c, s, t);
    } else {
      CasTakes(c, s, t);
    }
  }

  lemma CasIsExact(c: Config, s: State, t: nat)
    requires ThreadsOk(c, s) && t < |s.threads| && s.threads[t].pc.EdenCas? && s.top == s.threads[t].pc.obj
    ensures var pc := s.threads[t].pc;
            && pc.end == s.top + pc.bytes <= c.end && pc.bytes % HEAP_WORD == 0
            && (pc.use.Tlab? ==> pc.end == s.top + TlabBytes(s.threads[t]) && Filled(s, t))
  {
    assert PcOk(c, s, s.threads[t]);
  }

  /** A CAS that succeeds hands out the range that was checked: as a buffer, */
  lemma CasInstalls(c: Config, s: State, t: nat)
    requires Inv(c, s) && t < |s.threads| && s.threads[t].pc.EdenCas? && s.top == s.threads[t].pc.obj
    requires s.threads[t].pc.use.Tlab?
    ensures Inv(c, InstallTlab(s, t, s.threads[t].pc.end))
  {
    CasIsExact(c, s, t);
    InstallKeeps(c, s, t, s.threads[t].pc.end);
  }

  /** or as an object. */
  lemma CasTakes(c: Config, s: State, t: nat)
    requires Inv(c, s) && t < |s.threads| && s.threads[t].pc.EdenCas? && s.top == s.threads[t].pc.obj
    ensures Inv(c, TakeObject(s, t, s.threads[t].pc.bytes, s.threads[t].pc.end))
  {
    CasIsExact(c, s, t);
    TakeObjectKeeps(c, s, t, s.threads[t].pc.bytes);
  }

  lemma NewKeeps(c: Config, s: State, t: nat)
    requires Inv(c, s) && Enabled(c, s, Advance(t)) && (s.threads[t].pc.NewCheck? || s.threads[t].pc.NewCas?)
    ensures Inv(c, Apply(c, s, Advance(t)))
  {
    var th := s.threads[t];
    var bytes, obj := th.pc.bytes, th.pc.obj;
    assert PcOk(c, s, th);
    if th.pc.NewCheck? {
      TriesAreSound(c, Object, bytes, obj);
      RegistersOnly(c, s, t, th.(pc := NewTry(c, bytes, obj)));
    } else if s.top != obj {
      RegistersOnly(c, s, t, th.(pc := NewCheck(bytes, s.top)));
    } else {
      TakeObjectKeeps(c, s, t, bytes);
    }
  }

  lemma StepKeepsInv(c: Config, s: State, step: Step)
    requires Inv(c, s) && Enabled(c, s, step)
    ensures Inv(c, Apply(c, s, step))
  {
    match step
    case TlabAllocate(t, bytes) => TlabAllocateKeeps(c, s, t, bytes);
    case StartEden(t, bytes) => RegistersOnly(c, s, t, s.threads[t].(pc := EdenLoad(Object, bytes)));
    case StartNew(t, words) => RegistersOnly(c, s, t, s.threads[t].(pc := NewCheck(words * HEAP_WORD, s.top)));
    case StartRefill(t) => StartRefillKeeps(c, s, t);
    case Resize(t, words, limit) => ResizeKeeps(c, s, t, words, limit);
    case Advance(t) =>
      match s.threads[t].pc
      case EdenLoad(_, _) => EdenLoadKeeps(c, s, t);
      case EdenCas(_, _, _, _) => EdenCasKeeps(c, s, t);
      case _ => NewKeeps(c, s, t);
  }
}
