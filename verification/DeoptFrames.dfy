/** The deoptimizer's frame builder (runtime_amd64.cpp, generate_deopt_blob and
    generate_uncommon_trap_blob) against the stack walker (frame_amd64.cpp,
    sender_for_interpreter_frame).  Addresses and sizes are in words; the stack grows to index 0. */
module DeoptFrames {

  // frame_amd64.hpp: offsets from the frame pointer
  const LINK: int := 0
  const RETURN_ADDR: int := 1
  const SENDER_SP: int := 2
  const INTERPRETER_SENDER_SP: int := -1

  /** What the walker knows about a frame: {sp, fp, pc}. */
  datatype Frame = Frame(sp: int, fp: int, pc: int)

  /** Deoptimization::UnrollBlock, with sizes in words.  `pcs` has one entry more than `sizes`. */
  datatype UnrollBlock = UnrollBlock(
    deoptimizedFrame: nat, adapter: nat, newAdapter: bool, callerAdjustment: nat,
    initialFp: int, sizes: seq<nat>, pcs: seq<int>)
  {
    /** The index of the first interpreter frame: a new c2i adapter frame comes before it. */
    function Base(): (b: nat) { if newAdapter then 1 else 0 }

    /** At least one interpreter frame; each holds at least its pc and its frame pointer. */
    predicate Ok() {
      && Base() < |sizes| && |pcs| == |sizes| + 1
      && (newAdapter ==> 1 <= sizes[0])
      && forall k | Base() <= k < |sizes| :: 2 <= sizes[k]
    }
  }

  function Sum(sizes: seq<nat>, n: nat): (total: nat)
    requires n <= |sizes|
  {
    if n == 0 then 0 else Sum(sizes, n - 1) + sizes[n - 1]
  }

  lemma {:induction false} SumMonotone(sizes: seq<nat>, k: nat, n: nat)
    requires k <= n <= |sizes|
    ensures Sum(sizes, k) <= Sum(sizes, n)
  {
    if k < n { SumMonotone(sizes, k, n - 1); }
  }

  /** Where the frames go, given the caller's unextended sp: `callerSp` below the adapter, if any. */
  datatype Layout = Layout(u: UnrollBlock, callerSp: int) {
    function UnextendedSp(): (sp: int)
      requires u.Ok()
    {
      callerSp - Sum(u.sizes, u.Base())
    }

    /** The stack pointer of the k-th frame; k == Base() - 1 is the extended caller. */
    function Sp(k: int): (sp: int)
      requires u.Ok() && u.Base() - 1 <= k < |u.sizes|
    {
      callerSp - u.callerAdjustment - Sum(u.sizes, k + 1)
    }

    function Fp(k: int): (fp: int)
      requires u.Ok() && u.Base() - 1 <= k < |u.sizes|
    {
      if k < u.Base() then u.initialFp else Sp(k - 1) - 2
    }

    /** The sp that the walker is to report for the k-th frame: unextended for the caller. */
    function WalkedSp(k: int): (sp: int)
      requires u.Ok() && u.Base() - 1 <= k < |u.sizes|
    {
      if k < u.Base() then UnextendedSp() else Sp(k)
    }

    /** The k-th frame; its pc is the return address that its callee pushed. */
    function FrameAt(k: int): (f: Frame)
      requires u.Ok() && u.Base() - 1 <= k < |u.sizes|
    {
      Frame(WalkedSp(k), Fp(k), u.pcs[k + 1])
    }

    /** The word below frame k's frame pointer in the end: the sender's sp, or, if the frame has no
        third word to keep it in, the return address that is pushed next. */
    function SenderWord(k: int): (w: int)
      requires u.Ok() && u.Base() <= k < |u.sizes|
    {
      if 3 <= u.sizes[k] then WalkedSp(k - 1) else u.pcs[k + 1]
    }

    /** What the builder leaves of frame k. */
    predicate Linked(m: seq<int>, k: int)
      requires u.Ok() && u.Base() <= k < |u.sizes|
    {
      && 1 <= Fp(k) < |m| - 1
      && m[Fp(k) + RETURN_ADDR] == u.pcs[k]
      && m[Fp(k) + LINK] == Fp(k - 1)
      && m[Fp(k) + INTERPRETER_SENDER_SP] == SenderWord(k)
    }

    /** The same while frame k is the youngest: nothing has been pushed behind it yet. */
    predicate Fresh(m: seq<int>, k: int)
      requires u.Ok() && u.Base() <= k < |u.sizes|
    {
      && 1 <= Fp(k) < |m| - 1
      && m[Fp(k) + RETURN_ADDR] == u.pcs[k]
      && m[Fp(k) + LINK] == Fp(k - 1)
      && m[Fp(k) + INTERPRETER_SENDER_SP] == WalkedSp(k - 1)
    }

    /** Frame k keeps its link to its sender. */
    predicate Keeps(k: int)
      requires u.Ok() && u.Base() <= k < |u.sizes|
    {
      3 <= u.sizes[k] || u.pcs[k + 1] == WalkedSp(k - 1)
    }

    /** What the walker reports as the k-th frame: its sp is what the next frame keeps. */
    function Reported(k: int): (f: Frame)
      requires u.Ok() && u.Base() - 1 <= k < |u.sizes|
    {
      Frame(if k == |u.sizes| - 1 then Sp(k) else SenderWord(k + 1), Fp(k), u.pcs[k + 1])
    }
  }

  /** The frames below the k-th are as they stay. */
  predicate AllLinked(l: Layout, m: seq<int>, k: int)
    requires l.u.Ok() && k <= |l.u.sizes|
  {
    forall j | l.u.Base() <= j < k :: l.Linked(m, j)
  }

  /** The state of the loop after k frames: the last of them is fresh. */
  predicate Built(l: Layout, m: seq<int>, k: nat)
    requires l.u.Ok() && l.u.Base() <= k <= |l.u.sizes|
  {
    AllLinked(l, m, k - 1) && (l.u.Base() < k ==> l.Fresh(m, k - 1))
  }

  /** A frame that another one follows keeps its words while only the stack below is written. */
  lemma LinkedStays(l: Layout, m: seq<int>, m': seq<int>, j: nat, k: nat)
    requires l.u.Ok() && l.u.Base() <= j < k - 1 < |l.u.sizes| && l.Linked(m, j)
    requires |m'| == |m| && forall i | l.Sp(k - 1) <= i < |m| && 0 <= i :: m'[i] == m[i]
    ensures l.Linked(m', j)
  {
    SumMonotone(l.u.sizes, j + 2, k);
  }

  /** Pushing the next return address settles the youngest frame. */
  lemma NextPushSettles(l: Layout, m: seq<int>, m': seq<int>, k: nat)
    requires l.u.Ok() && l.u.Base() <= k <= |l.u.sizes| && Built(l, m, k)
    requires 1 <= l.Sp(k - 1) <= |m| == |m'|
    requires forall i | l.Sp(k - 1) <= i < |m| && 0 <= i :: m'[i] == m[i]
    requires m'[l.Sp(k - 1) - 1] == l.u.pcs[k]
    ensures AllLinked(l, m', k)
  {
    forall j | l.u.Base() <= j < k ensures l.Linked(m', j) {
      if j < k - 1 { LinkedStays(l, m, m', j, k); }
    }
  }

  class Stack {
    const mem: array<int>
    var rsp: nat
    var rbp: int

    constructor (m: array<int>, sp: nat, fp: int)
      ensures mem == m && rsp == sp && rbp == fp
    {
      mem, rsp, rbp := m, sp, fp;
    }

    method Push(x: int)
      requires 0 < rsp <= mem.Length
      modifies this`rsp, mem
      ensures rsp == old(rsp) - 1
      ensures mem[..] == old(mem[..])[rsp := x]
    {
      rsp := rsp - 1;
      mem[rsp] := x;
    }

    /** enter(): saves rbp and makes it the frame pointer. */
    method Enter()
      requires 0 < rsp <= mem.Length
      modifies this`rsp, this`rbp, mem
      ensures rsp == old(rsp) - 1 && rbp == rsp
      ensures mem[..] == old(mem[..])[rsp := old(rbp)]
    {
      Push(rbp);
      rbp := rsp;
    }

    /** Pops the deoptimized frame and its adapter, pushes the interpreter frames, and re-pushes the
        frame of the stub itself.  On entry only the stub's return address has been left below the
        deoptimized frame, at rsp. */
    method Unroll(u: UnrollBlock) returns (l: Layout)
      requires u.Ok()
      requires rsp + u.deoptimizedFrame + u.adapter + 1 <= mem.Length
      requires Sum(u.sizes, |u.sizes|) + u.callerAdjustment + 2 <= rsp + u.deoptimizedFrame + u.adapter + 1
      modifies this, mem
      ensures l == Layout(u, old(rsp) + u.deoptimizedFrame + u.adapter + 1)
      ensures AllLinked(l, mem[..], |u.sizes|)
      // the stub's own frame: saved rbp, and the return address into the youngest interpreter frame
      ensures rsp == rbp == l.Sp(|u.sizes| - 1) - 2
      ensures mem[rbp + LINK] == l.Fp(|u.sizes| - 1) && mem[rbp + RETURN_ADDR] == u.pcs[|u.sizes|]
      // the caller's part of the stack is not written
      ensures forall i | l.callerSp <= i < mem.Length :: mem[i] == old(mem[i])
    {
      rsp := rsp + u.deoptimizedFrame;
      rsp := rsp + u.adapter;
      rsp := rsp + 1;                   // trash the old pc
      l := Layout(u, rsp);
      rbp := u.initialFp;
      SumMonotone(u.sizes, u.Base(), |u.sizes|);
      PushAdapter(l);
      var senderSp := rsp;              // the unextended sp
      rsp := rsp - u.callerAdjustment;
      PushFrames(l, senderSp);
      PushSelf(l);
    }

    /** The final return address, and the stub's own frame again. */
    method PushSelf(l: Layout)
      requires l.u.Ok() && 2 <= l.Sp(|l.u.sizes| - 1) == rsp && rbp == l.Fp(|l.u.sizes| - 1)
      requires l.callerSp <= mem.Length && rsp <= l.callerSp && Built(l, mem[..], |l.u.sizes|)
      modifies this, mem
      ensures AllLinked(l, mem[..], |l.u.sizes|)
      ensures rsp == rbp == l.Sp(|l.u.sizes| - 1) - 2
      ensures mem[rbp + LINK] == l.Fp(|l.u.sizes| - 1) && mem[rbp + RETURN_ADDR] == l.u.pcs[|l.u.sizes|]
      ensures forall i | l.callerSp <= i < mem.Length :: mem[i] == old(mem[i])
    {
      ghost var m := mem[..];
      Push(l.u.pcs[|l.u.sizes|]);
      Enter();
      NextPushSettles(l, m, mem[..], |l.u.sizes|);
    }

    /** A new c2i adapter frame, if there is to be one. */
    method PushAdapter(l: Layout)
      requires l.u.Ok() && rsp == l.callerSp <= mem.Length && Sum(l.u.sizes, |l.u.sizes|) <= rsp
      modifies this`rsp, mem
      ensures rsp == l.UnextendedSp()
      ensures forall i | l.callerSp <= i < mem.Length :: mem[i] == old(mem[i])
    {
      SumMonotone(l.u.sizes, l.u.Base(), |l.u.sizes|);
      assert Sum(l.u.sizes, l.u.Base()) == if l.u.newAdapter then l.u.sizes[0] else 0;
      if l.u.newAdapter {
        Push(l.u.pcs[0]);
        rsp := rsp - (l.u.sizes[0] - 1);
      }
    }

    /** The loop that pushes the interpreter frames. */
    method PushFrames(l: Layout, unextendedSp: int)
      requires l.u.Ok() && 2 <= l.Sp(|l.u.sizes| - 1) && l.callerSp <= mem.Length
      requires rsp == l.Sp(l.u.Base() - 1) && rbp == l.u.initialFp && unextendedSp == l.UnextendedSp()
      modifies this, mem
      ensures rsp == l.Sp(|l.u.sizes| - 1) && rbp == l.Fp(|l.u.sizes| - 1)
      ensures Built(l, mem[..], |l.u.sizes|)
      ensures forall i | l.callerSp <= i < mem.Length :: mem[i] == old(mem[i])
    {
      var senderSp := unextendedSp;
      var k := l.u.Base();              // rsi and rcx point to entry k; rdx == |sizes| - k
      while k < |l.u.sizes|
        invariant l.u.Base() <= k <= |l.u.sizes|
        invariant rsp == l.Sp(k - 1) && rbp == l.Fp(k - 1) && senderSp == l.WalkedSp(k - 1)
        invariant Built(l, mem[..], k)
        invariant forall i | l.callerSp <= i < mem.Length :: mem[i] == old(mem[i])
      {
        SumMonotone(l.u.sizes, k + 1, |l.u.sizes|);
        PushFrame(l, k, senderSp);
        senderSp := rsp;
        k := k + 1;
      }
    }

    /** One round of the loop: return address, saved rbp, the frame's words, and the sender's sp. */
    method PushFrame(l: Layout, k: nat, senderSp: int)
      requires l.u.Ok() && l.u.Base() <= k < |l.u.sizes|
      requires 1 <= l.Sp(k) < rsp <= mem.Length
      requires rsp == l.Sp(k - 1) && rbp == l.Fp(k - 1) && senderSp == l.WalkedSp(k - 1)
      requires Built(l, mem[..], k)
      modifies this, mem
      ensures rsp == l.Sp(k) && rbp == l.Fp(k)
      ensures Built(l, mem[..], k + 1)
      ensures forall i | l.Sp(k - 1) <= i < mem.Length :: mem[i] == old(mem[i])
    {
      ghost var m := mem[..];
      var size, pc := l.u.sizes[k], l.u.pcs[k];
      Push(pc);
      Enter();
      rsp := rsp - (size - 2);
      mem[rbp + INTERPRETER_SENDER_SP] := senderSp;
      NextPushSettles(l, m, mem[..], k);
    }

    /** The end of remove_activation: the frame's caller gets back just what the walker reports of it. */
    method RemoveFrame() returns (pc: int)
      requires 1 <= rbp < mem.Length - 1 && 0 <= mem[rbp + INTERPRETER_SENDER_SP]
      modifies this`rsp, this`rbp
      ensures Frame(rsp, rbp, pc) == Sender(mem[..], Frame(old(rsp), old(rbp), 0))
    {
      var senderSp := mem[rbp + INTERPRETER_SENDER_SP];
      rsp := rbp;                       // leave
      rbp := mem[rsp];
      rsp := rsp + 1;
      pc := mem[rsp];                   // popq(ret_addr)
      rsp := senderSp;
    }
  }

  /** sender_for_interpreter_frame. */
  function Sender(m: seq<int>, f: Frame): (s: Frame)
    requires 1 <= f.fp < |m| - 1
  {
    Frame(m[f.fp + INTERPRETER_SENDER_SP], m[f.fp + LINK], m[f.fp + RETURN_ADDR])
  }

  /** The frame below which the stub's frame lies, as the generic walker computes it. */
  function SenderOfStub(m: seq<int>, rbp: int): (s: Frame)
    requires 0 <= rbp < |m| - 1
  {
    Frame(rbp + SENDER_SP, m[rbp + LINK], m[rbp + RETURN_ADDR])
  }

  /** n steps of the walk from f, youngest frame first; it stops at a frame pointer outside memory. */
  function Walk(m: seq<int>, f: Frame, n: nat): (fs: seq<Frame>)
    decreases n
  {
    if n == 0 || !(1 <= f.fp < |m| - 1) then [f] else [f] + Walk(m, Sender(m, f), n - 1)
  }

  lemma {:induction false} WalkFrom(l: Layout, m: seq<int>, k: nat)
    requires l.u.Ok() && AllLinked(l, m, |l.u.sizes|) && l.u.Base() <= k <= |l.u.sizes|
    ensures var n := k - l.u.Base();
            var fs := Walk(m, l.Reported(k - 1), n);
            |fs| == n + 1 && forall i | 0 <= i <= n :: fs[i] == l.Reported(k - 1 - i)
    decreases k
  {
    if k > l.u.Base() {
      assert l.Linked(m, k - 1);
      assert Sender(m, l.Reported(k - 1)) == l.Reported(k - 2);
      WalkFrom(l, m, k - 1);
    }
  }

  /** fs is the described frames, youngest first, and the caller with its unextended sp. */
  predicate Recovers(l: Layout, fs: seq<Frame>)
    requires l.u.Ok()
  {
    var n := |l.u.sizes| - l.u.Base();
    && |fs| == n + 1
    && forall i | 0 <= i <= n :: fs[i] == l.FrameAt(|l.u.sizes| - 1 - i)
  }

  /** Every frame keeps its link to its sender. */
  predicate AllKeep(l: Layout)
    requires l.u.Ok()
  {
    forall k | l.u.Base() <= k < |l.u.sizes| :: l.Keeps(k)
  }

  /** The walk finds the described frames just if every frame keeps its link. */
  lemma RecoversIffKept(l: Layout, fs: seq<Frame>)
    requires l.u.Ok() && |fs| == |l.u.sizes| - l.u.Base() + 1
    requires forall i | 0 <= i < |fs| :: fs[i] == l.Reported(|l.u.sizes| - 1 - i)
    ensures Recovers(l, fs) <==> AllKeep(l)
  {
    var last := |l.u.sizes| - 1;
    if Recovers(l, fs) {
      forall k | l.u.Base() <= k < |l.u.sizes| ensures l.Keeps(k) {
        assert fs[last - (k - 1)] == l.FrameAt(k - 1);
      }
    }
    if AllKeep(l) {
      forall i | 0 <= i < |fs| ensures fs[i] == l.FrameAt(last - i) {
        if i > 0 { assert l.Keeps(last - i + 1); }
      }
    }
  }

  /** The deoptimizer's frames are found again whatever their pcs are, if and only if each has three
      words. */
  lemma ThreeWordsForAllPcs(u: UnrollBlock, callerSp: int)
    requires u.Ok()
    ensures (forall pcs: seq<int> | |pcs| == |u.pcs| :: AllKeep(Layout(u.(pcs := pcs), callerSp))) <==>
            forall k | u.Base() <= k < |u.sizes| :: 3 <= u.sizes[k]
  {
    if k :| u.Base() <= k < |u.sizes| && u.sizes[k] == 2 {
      var l := Layout(u, callerSp);
      var bad := l.WalkedSp(k - 1) + 1;
      var pcs := seq(|u.pcs|, _ => bad);
      var lost := Layout(u.(pcs := pcs), callerSp);
      assert lost.WalkedSp(k - 1) == l.WalkedSp(k - 1);
      assert !lost.Keeps(k);
    } else {
      forall pcs: seq<int> | |pcs| == |u.pcs| ensures AllKeep(Layout(u.(pcs := pcs), callerSp)) {}
    }
  }

  /** Unrolling and then walking from the stub: if every frame keeps its link, and only then, the walk
      finds exactly the interpreter frames that the unroll block describes, youngest first, and ends
      at the caller with its unextended sp, its frame pointer and the pc it is to continue at.  The
      stack pointer moved by the sizes of all frames and the caller adjustment. */
  method UnrollThenWalk(s: Stack, u: UnrollBlock) returns (l: Layout, fs: seq<Frame>)
    requires u.Ok()
    requires s.rsp + u.deoptimizedFrame + u.adapter + 1 <= s.mem.Length
    requires Sum(u.sizes, |u.sizes|) + u.callerAdjustment + 2 <= s.rsp + u.deoptimizedFrame + u.adapter + 1
    modifies s, s.mem
    ensures l == Layout(u, old(s.rsp) + u.deoptimizedFrame + u.adapter + 1)
    ensures AllLinked(l, s.mem[..], |u.sizes|)
    ensures Recovers(l, fs) <==> AllKeep(l)
    ensures l.callerSp - (s.rsp + SENDER_SP) == Sum(u.sizes, |u.sizes|) + u.callerAdjustment
  {
    l := s.Unroll(u);
    WalkFrom(l, s.mem[..], |u.sizes|);
    fs := Walk(s.mem[..], SenderOfStub(s.mem[..], s.rbp), |u.sizes| - u.Base());
    RecoversIffKept(l, fs);
  }

  /** Returning through all frames that keep their links ends where the caller was. */
  method ReturnFromAll(s: Stack, l: Layout) returns (pc: int)
    requires l.u.Ok() && AllLinked(l, s.mem[..], |l.u.sizes|) && AllKeep(l)
    requires s.rbp == l.Fp(|l.u.sizes| - 1) && 0 <= l.Sp(|l.u.sizes| - 1)
    modifies s`rsp, s`rbp
    ensures Frame(s.rsp, s.rbp, pc) == Frame(l.UnextendedSp(), l.u.initialFp, l.u.pcs[l.u.Base()])
  {
    var k := |l.u.sizes|;
    pc := l.u.pcs[k];
    while l.u.Base() < k
      invariant l.u.Base() <= k <= |l.u.sizes|
      invariant s.rbp == l.Fp(k - 1) && pc == l.u.pcs[k]
      invariant k < |l.u.sizes| ==> s.rsp == l.WalkedSp(k - 1)
    {
      assert l.Linked(s.mem[..], k - 1) && l.Keeps(k - 1);
      SpAbove(l, k - 2);
      pc := s.RemoveFrame();
      k := k - 1;
    }
  }

  lemma SpAbove(l: Layout, k: int)
    requires l.u.Ok() && l.u.Base() - 1 <= k < |l.u.sizes|
    ensures l.Sp(|l.u.sizes| - 1) <= l.WalkedSp(k)
  {
    SumMonotone(l.u.sizes, k + 1, |l.u.sizes|);
    SumMonotone(l.u.sizes, l.u.Base(), |l.u.sizes|);
  }

  /** Two frames, of which the older has two words: the walk takes the younger one's pc for an sp. */
  lemma TwoWordFrameIsLost()
    ensures var u := UnrollBlock(4, 0, false, 0, 100, [2, 3], [7, 8, 9]);
            u.Ok() && !AllKeep(Layout(u, 50))
  {
    var l := Layout(UnrollBlock(4, 0, false, 0, 100, [2, 3], [7, 8, 9]), 50);
    assert !l.Keeps(0);
  }
}
