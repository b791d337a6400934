/** The lock-free shared eden and the thread-local allocation buffers, as a state machine over the
    memory operations of any number of threads: eden_allocate, tlab_allocate and tlab_refill of
    assembler_amd64.cpp and the allocation part of _new in templateTable_amd64.cpp.

    Addresses and sizes are byte counts in 64-bit registers.  `blocks` is the history of what eden
    handed out, in address order, with the sizes of the objects placed in each block. */
module Eden {
  import opened Words
  import opened CodeBytes

  const HEAP_WORD: nat := 8
  /** typeArrayOopDesc::header_size(T_INT), in heap words. */
  const HEADER: nat := 3
  /** ThreadLocalAllocBuffer::alignment_reserve(), in heap words: objects are aligned to one word. */
  const RESERVE: nat := HEADER
  const RESERVE_BYTES: nat := RESERVE * HEAP_WORD
  /** The free words of the largest buffer whose filler array has a size that a jint can hold. */
  const MAX_FILLER: nat := 0x1000_0000

  /** ThreadLocalAllocBuffer::max_size(), in heap words. */
  const MAX_SIZE: nat := HEADER + 4 * (0x7FFF_FFFF / HEAP_WORD)

  /** The sum of x and y in a 64-bit register. */
  function Add64(x: nat, y: nat): (r: nat)
    ensures r < WORD
  {
    (x + y) % WORD
  }

  /** Eden, the size in words that no buffer exceeds, and the flag TLABWasteIncrement. */
  datatype Config = Config(start: nat, end: nat, maxWords: nat, wasteIncrement: nat) {
    predicate Ok() {
      && 0 < start <= end < WORD && wasteIncrement < WORD
      && start % HEAP_WORD == 0
      && RESERVE <= maxWords < MAX_FILLER + RESERVE
    }
  }

  /** What an allocation in shared eden is for. */
  datatype Use = Object | Tlab

  datatype Pc =
    | Idle
    | EdenLoad(use: Use, bytes: nat)
    | EdenCas(use: Use, bytes: nat, obj: nat, end: nat)
    | NewCheck(bytes: nat, obj: nat)        // _new: rax = obj, the bound check comes next
    | NewCas(bytes: nat, obj: nat, end: nat)

  /** A thread's TLAB fields (top is 0 without a TLAB); `size` is that of its next buffer, in words, and
      `cur` the index of its block, a history variable that means nothing while top is 0. */
  datatype Thread = Thread(pc: Pc, start: nat, top: nat, end: nat, size: nat, wasteLimit: nat, cur: nat)

  /** `user` is the thread whose buffer the block is, or -1: a history variable. */
  datatype Block = Block(lo: nat, objs: seq<int>, hi: nat, user: int)

  /** `length` is the word at length_offset of the filler arrays, by the array's address. */
  datatype State = State(top: nat, threads: seq<Thread>, blocks: seq<Block>, length: map<nat, nat>)

  datatype Step =
    | TlabAllocate(t: nat, bytes: nat)
    | StartEden(t: nat, bytes: nat)
    | StartNew(t: nat, words: nat)
    | StartRefill(t: nat)
    | Resize(t: nat, words: nat, limit: nat)   // the runtime's resize(), which also sets the waste limit
    | Advance(t: nat)

  function Sum(sizes: seq<int>): (n: int) {
    if sizes == [] then 0 else Sum(sizes[..|sizes| - 1]) + sizes[|sizes| - 1]
  }

  /** The size in words of an int array with the given length word: the length is its low half, and
      word_array_size computes (4 * length + 7) >> 3 in 32-bit arithmetic. */
  function ArrayWords(length: nat): (n: int) {
    HEADER + Truncated(4 * Truncated(length) + 7) / HEAP_WORD
  }

  /** The free words of a TLAB, as tlab_refill computes them. */
  function FreeWords(th: Thread): (n: nat) {
    Sub64(th.end, th.top) / HEAP_WORD
  }

  /** The length word tlab_refill stores into the filler array. */
  function FillerLength(free: nat): (n: nat) {
    (2 * Add64(Sub64(free, HEADER), RESERVE)) % WORD
  }

  /** Large amounts of free space are kept: the signed comparison with the waste limit. */
  predicate Retains(th: Thread) {
    Signed(FreeWords(th)) > Signed(th.wasteLimit)
  }

  /** The bytes that tlab_refill asks eden for. */
  function TlabBytes(th: Thread): (n: nat) { th.size * HEAP_WORD }

  predicate Enabled(c: Config, s: State, step: Step) {
    && step.t < |s.threads|
    && match step
       case TlabAllocate(t, bytes) =>
         // the size bound that tlab_allocate's callers keep: its sum is not checked for wrap-around
         s.threads[t].pc.Idle? && 0 < bytes && bytes % HEAP_WORD == 0 && s.threads[t].top + bytes < WORD
       case StartEden(t, bytes) =>
         s.threads[t].pc.Idle? && bytes < WORD && bytes % HEAP_WORD == 0
       case StartNew(t, words) =>
         // a positive instance size from a 32-bit field; _new relies on eden ending that far below 2^64
         s.threads[t].pc.Idle? && 0 < words < 0x1_0000_0000 && c.end + 0x1_0000_0000 * HEAP_WORD <= WORD
       case StartRefill(t) => s.threads[t].pc.Idle?
       case Resize(t, words, limit) => s.threads[t].pc.Idle? && RESERVE <= words <= c.maxWords && limit < WORD
       case Advance(t) => !s.threads[t].pc.Idle?
  }

  function SetThread(s: State, t: nat, th: Thread): State
    requires t < |s.threads|
  {
    s.(threads := s.threads[t := th])
  }

  function GoTo(s: State, t: nat, pc: Pc): State
    requires t < |s.threads|
  {
    SetThread(s, t, s.threads[t].(pc := pc))
  }

  /** An object of the given size is placed in block i. */
  function Place(s: State, i: nat, bytes: int): State {
    if i < |s.blocks| then
      s.(blocks := s.blocks[i := s.blocks[i].(objs := s.blocks[i].objs + [bytes])])
    else s
  }

  /** The bound check of eden_allocate, with its test for wrap-around. */
  function EdenTry(c: Config, use: Use, bytes: nat, obj: nat): Pc {
    var end := Add64(obj, bytes);
    if end < obj || end > c.end then Idle else EdenCas(use, bytes, obj, end)
  }

  /** The bound check of _new, without one. */
  function NewTry(c: Config, bytes: nat, obj: nat): Pc {
    var end := Add64(obj, bytes);
    if end > c.end then Idle else NewCas(bytes, obj, end)
  }

  /** The blocks once a thread's old buffer, with its filler, is nobody's any more. */
  function Retired(s: State, th: Thread): seq<Block> {
    if th.top != 0 && th.top in s.length && th.cur < |s.blocks| then
      var b := s.blocks[th.cur];
      s.blocks[th.cur := b.(objs := b.objs + [ArrayWords(s.length[th.top]) * HEAP_WORD], user := -1)]
    else s.blocks
  }

  /** Eden's top moves to end, and the block in between becomes the thread's buffer. */
  function InstallTlab(s: State, t: nat, end: nat): State
    requires t < |s.threads|
  {
    var th := s.threads[t];
    s.(top := end,
       blocks := Retired(s, th) + [Block(s.top, [], end, t)],
       threads := s.threads[t := Thread(Idle, s.top, s.top, Sub64(end, RESERVE_BYTES), th.size, th.wasteLimit, |s.blocks|)])
  }

  /** Eden's top moves to end, and the block in between is an object. */
  function TakeObject(s: State, t: nat, bytes: nat, end: nat): State
    requires t < |s.threads|
  {
    s.(top := end,
       blocks := s.blocks + [Block(s.top, [bytes], end, -1)],
       threads := s.threads[t := s.threads[t].(pc := Idle)])
  }

  function Apply(c: Config, s: State, step: Step): State
    requires Enabled(c, s, step)
  {
    var th := s.threads[step.t];
    match step
    case TlabAllocate(t, bytes) =>
      var end := Add64(th.top, bytes);
      if end > th.end then s
      else Place(SetThread(s, t, th.(top := end)), th.cur, bytes)
    case StartEden(t, bytes) => GoTo(s, t, EdenLoad(Object, bytes))
    case StartNew(t, words) => GoTo(s, t, NewCheck(words * HEAP_WORD, s.top))
    case StartRefill(t) =>
      if Retains(th) then
        SetThread(s, t, th.(wasteLimit := Add64(th.wasteLimit, c.wasteIncrement)))
      else
        var s1 := if th.top == 0 then s
                  else s.(length := s.length[th.top := FillerLength(FreeWords(th))]);
        GoTo(s1, t, EdenLoad(Tlab, TlabBytes(th)))
    case Resize(t, words, limit) => SetThread(s, t, th.(size := words, wasteLimit := limit))
    case Advance(t) =>
      match th.pc
      case EdenLoad(use, bytes) => GoTo(s, t, EdenTry(c, use, bytes, s.top))
      case EdenCas(use, bytes, obj, end) =>
        if s.top != obj then GoTo(s, t, EdenLoad(use, bytes))
        else if use.Tlab? then InstallTlab(s, t, end)
        else TakeObject(s, t, bytes, end)
      case NewCheck(bytes, obj) => GoTo(s, t, NewTry(c, bytes, obj))
      case NewCas(bytes, obj, end) =>
        if s.top != obj then GoTo(s, t, NewCheck(bytes, s.top))   // cmpxchg left the new top in rax
        else TakeObject(s, t, bytes, end)
  }

  // ----- The invariant

  /** Objects fill the block from its start without a gap. */
  predicate Full(b: Block) { b.lo + Sum(b.objs) == b.hi }

  predicate Sized(b: Block) {
    forall k | 0 <= k < |b.objs| :: 0 <= b.objs[k]
  }

  predicate SizeOk(c: Config, th: Thread) {
    RESERVE <= th.size <= c.maxWords && th.wasteLimit < WORD
  }

  predicate TlabOk(c: Config, s: State, t: nat)
    requires t < |s.threads|
  {
    var th := s.threads[t];
    && SizeOk(c, th)
    && if th.top == 0 then th.end == 0
       else
         && th.cur < |s.blocks|
         && s.blocks[th.cur].user == t
         && s.blocks[th.cur].lo == th.start
         && th.start <= th.start + Sum(s.blocks[th.cur].objs) == th.top <= th.end
         && th.end + RESERVE_BYTES == s.blocks[th.cur].hi
         && s.blocks[th.cur].hi - s.blocks[th.cur].lo <= c.maxWords * HEAP_WORD
         && th.top % HEAP_WORD == 0 && th.end % HEAP_WORD == 0 && th.end < WORD
  }

  predicate PcOk(c: Config, s: State, th: Thread) {
    && (th.pc.EdenLoad? || th.pc.EdenCas? ==>
          && th.pc.bytes % HEAP_WORD == 0 && th.pc.bytes < WORD
          && (th.pc.use.Tlab? ==>
                && th.pc.bytes == TlabBytes(th)
                && (th.top != 0 ==>
                      && th.top in s.length
                      && ArrayWords(s.length[th.top]) * HEAP_WORD == th.end + RESERVE_BYTES - th.top)))
    && (th.pc.NewCheck? || th.pc.NewCas? ==>
          && th.pc.bytes % HEAP_WORD == 0
          && c.end + th.pc.bytes < WORD && th.pc.obj <= c.end)
    && (th.pc.EdenCas? || th.pc.NewCas? ==>
          th.pc.end == th.pc.obj + th.pc.bytes && th.pc.end <= c.end)
  }

  predicate Inv(c: Config, s: State) {
    && c.Ok()
    && s.top % HEAP_WORD == 0
    && c.start <= s.top <= c.end
    && BlocksTile(c.start, s.blocks, s.top)
    && ThreadsOk(c, s)
    && BlocksOk(s)
  }

  predicate ThreadsOk(c: Config, s: State) {
    forall t | 0 <= t < |s.threads| :: TlabOk(c, s, t) && PcOk(c, s, s.threads[t])
  }

  /** A block that is nobody's buffer is full. */
  predicate BlocksOk(s: State) {
    forall i | 0 <= i < |s.blocks| ::
      && Sized(s.blocks[i])
      && if s.blocks[i].user == -1 then Full(s.blocks[i])
         else 0 <= s.blocks[i].user < |s.threads|
              && s.threads[s.blocks[i].user].top != 0 && s.threads[s.blocks[i].user].cur == i
  }

  /** The blocks follow each other from lo to hi without a gap. */
  predicate BlocksTile(lo: nat, blocks: seq<Block>, hi: nat) {
    if blocks == [] then lo == hi
    else
      var b := blocks[|blocks| - 1];
      BlocksTile(lo, blocks[..|blocks| - 1], b.lo) && b.lo <= b.hi == hi
  }

  predicate Init(c: Config, s: State) {
    && s.top == c.start && s.blocks == []
    && forall t | 0 <= t < |s.threads| ::
         && s.threads[t].pc == Idle && s.threads[t].top == s.threads[t].end == 0
         && SizeOk(c, s.threads[t])
  }
}
