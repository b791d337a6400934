/** The slow signature handler: SlowSignatureHandler fills a frame of its stub (interpreterRT_amd64.cpp),
    and the stub reloads the argument registers from it (interpreter_amd64.cpp,
    generate_slow_signature_handler). The branches for Windows are not part of this model. */
module SlowSignature {
  import opened CallingConvention
  import opened SignatureHandlers

  /** The frame, as word offsets from rsp: 5 integer arguments, the identifiers of the doubles, 8 floating
      point arguments, the return address, the stack arguments. */
  const FP_IDS: nat := 5
  const FP_ARGS: nat := 6
  const RETURN: nat := 14
  const STACK_ARGS: nat := 15

  /** The frame word that a place is filled through. */
  function FrameWord(loc: Loc): (w: nat)
    requires loc.IntReg? ==> loc.n >= 1
  {
    match loc
    case IntReg(r) => r - 1
    case FpReg(r) => FP_ARGS + r
    case Slot(k) => STACK_ARGS + k
  }

  /** A jint, sign extended to a word. */
  function Extended(word: nat): (w: nat) {
    var low := word % 0x1_0000_0000;
    if low < 0x8000_0000 then low else low + 0xFFFF_FFFF_0000_0000
  }

  /** What the routine stores for argument n. */
  function Stored(l: Locals, isStatic: bool, args: seq<Kind>, n: nat): (v: nat)
    requires Covers(l, isStatic, args) && n < |args|
  {
    LocalInRange(l, isStatic, args, n);
    match args[n]
    case Int => Extended(l.words[Local(args, n)])
    case Float => Extended(l.words[Local(args, n)])
    case Long => l.words[Local(args, n) + 1]
    case Double => l.words[Local(args, n) + 1]
    case Object => Handle(l, Local(args, n))
  }

  /** Bit k of a word. */
  predicate Bit(ids: nat, k: nat) { if k == 0 then ids % 2 == 1 else Bit(ids / 2, k - 1) }

  /** ids | (1 << k). */
  function SetBit(ids: nat, k: nat): (r: nat) {
    if k == 0 then ids / 2 * 2 + 1 else ids % 2 + 2 * SetBit(ids / 2, k - 1)
  }

  lemma {:induction false} SetBitSets(ids: nat, k: nat, j: nat)
    ensures Bit(SetBit(ids, k), j) <==> j == k || Bit(ids, j)
  {
    if k > 0 && j > 0 {
      SetBitSets(ids / 2, k - 1, j - 1);
      assert SetBit(ids, k) / 2 == SetBit(ids / 2, k - 1);
    } else if k == 0 {
      assert SetBit(ids, k) / 2 == ids / 2;
    }
  }

  lemma {:induction false} ZeroHasNoBits(k: nat)
    ensures !Bit(0, k)
  {
    if k > 0 { ZeroHasNoBits(k - 1); }
  }

  /** The frame words of different arguments are different, and none is that of the identifiers or
      the return address. */
  lemma FrameWordsDiffer(isStatic: bool, args: seq<Kind>, m: nat, n: nat)
    requires m <= n < |args|
    ensures var v, w := FrameWord(Place(isStatic, args, m)), FrameWord(Place(isStatic, args, n));
            (m < n ==> v != w) && w != FP_IDS && w != RETURN
    ensures FrameWord(Place(isStatic, args, n)) < STACK_ARGS + Local(args, |args|)
  {
    PlaceInRange(isStatic, args, m);
    PlaceInRange(isStatic, args, n);
    if m < n { PlacesDiffer(isStatic, args, m, n); }
  }

  /** Argument i goes to an xmm register, and only a double sets its bit. */
  predicate IdOk(isStatic: bool, args: seq<Kind>, i: nat, ids: nat)
    requires i < |args|
  {
    Place(isStatic, args, i).FpReg? ==> (Bit(ids, Place(isStatic, args, i).n) <==> args[i].Double?)
  }

  /** Argument i is in its word of the frame f. */
  predicate Filled(l: Locals, isStatic: bool, args: seq<Kind>, i: nat, f: seq<nat>)
    requires Covers(l, isStatic, args) && i < |args| && STACK_ARGS + Local(args, |args|) <= |f|
  {
    FrameWordsDiffer(isStatic, args, i, i);
    f[FrameWord(Place(isStatic, args, i))] == Stored(l, isStatic, args, i)
  }

  /** The frame after the first n arguments. */
  predicate FrameOk(l: Locals, isStatic: bool, args: seq<Kind>, n: nat, f: seq<nat>)
    requires Covers(l, isStatic, args) && n <= |args|
  {
    && STACK_ARGS + Local(args, |args|) <= |f|
    && (forall i | 0 <= i < n :: Filled(l, isStatic, args, i, f))
    && (forall i | 0 <= i < n :: IdOk(isStatic, args, i, f[FP_IDS]))
    && (forall k | NumFp(args, n) <= k < 8 :: !Bit(f[FP_IDS], k))
  }

  /** The word that argument n goes through, after it is stored. */
  function StoredFrame(l: Locals, isStatic: bool, args: seq<Kind>, n: nat, f: seq<nat>): (r: seq<nat>)
    requires Covers(l, isStatic, args) && n < |args| && STACK_ARGS + Local(args, |args|) <= |f|
    ensures |r| == |f| && r[RETURN] == f[RETURN] && r[FP_IDS] == f[FP_IDS]
  {
    FrameWordsDiffer(isStatic, args, n, n);
    f[FrameWord(Place(isStatic, args, n)) := Stored(l, isStatic, args, n)]
  }

  lemma StoreFills(l: Locals, isStatic: bool, args: seq<Kind>, n: nat, f: seq<nat>, i: nat)
    requires Covers(l, isStatic, args) && i <= n < |args| && STACK_ARGS + Local(args, |args|) <= |f|
    requires i < n ==> Filled(l, isStatic, args, i, f)
    ensures Filled(l, isStatic, args, i, StoredFrame(l, isStatic, args, n, f))
  {
    FrameWordsDiffer(isStatic, args, i, n);
    FrameWordsDiffer(isStatic, args, i, i);
  }

  /** An argument that sets no bit. */
  lemma StoreKeeps(l: Locals, isStatic: bool, args: seq<Kind>, n: nat, f: seq<nat>)
    requires Covers(l, isStatic, args) && n < |args| && FrameOk(l, isStatic, args, n, f)
    requires !(args[n].Double? && NumFp(args, n) < 8)
    ensures FrameOk(l, isStatic, args, n + 1, StoredFrame(l, isStatic, args, n, f))
  {
    var r := StoredFrame(l, isStatic, args, n, f);
    forall i | 0 <= i < n + 1 ensures Filled(l, isStatic, args, i, r) { StoreFills(l, isStatic, args, n, f, i); }
    if IsFp(args[n]) { FpStep(isStatic, args, n); } else { IntStep(isStatic, args, n); }
  }

  /** A double in a register. */
  lemma StoreDoubleKeeps(l: Locals, isStatic: bool, args: seq<Kind>, n: nat, f: seq<nat>)
    requires Covers(l, isStatic, args) && n < |args| && FrameOk(l, isStatic, args, n, f)
    requires args[n].Double? && NumFp(args, n) < 8
    ensures FrameOk(l, isStatic, args, n + 1, StoredFrame(l, isStatic, args, n, f)[FP_IDS := SetBit(f[FP_IDS], NumFp(args, n))])
  {
    var r := StoredFrame(l, isStatic, args, n, f);
    var ids := SetBit(f[FP_IDS], NumFp(args, n));
    var now := r[FP_IDS := ids];
    FpStep(isStatic, args, n);
    forall i | 0 <= i < n + 1 ensures Filled(l, isStatic, args, i, now) {
      StoreFills(l, isStatic, args, n, f, i);
      FrameWordsDiffer(isStatic, args, i, i);
    }
    forall i | 0 <= i < n + 1 ensures IdOk(isStatic, args, i, ids) {
      FrameWordsDiffer(isStatic, args, i, n);
      if Place(isStatic, args, i).FpReg? { SetBitSets(f[FP_IDS], NumFp(args, n), Place(isStatic, args, i).n); }
      assert i < n ==> IdOk(isStatic, args, i, f[FP_IDS]);
    }
    forall k: nat | NumFp(args, n + 1) <= k < 8 ensures !Bit(ids, k) { SetBitSets(f[FP_IDS], NumFp(args, n), k); }
  }

  /** Where an integer or an object is stored, and what. */
  lemma IntegerStored(l: Locals, isStatic: bool, args: seq<Kind>, n: nat, f: seq<nat>)
    requires Covers(l, isStatic, args) && n < |args| && !IsFp(args[n]) && STACK_ARGS + Local(args, |args|) <= |f|
    ensures var from, c := Local(args, n), NumInt(isStatic, args, n);
            var word := if c < 5 then c else STACK_ARGS + OnStack(isStatic, args, n);
            && from + Words(args[n]) <= |l.words| && word < |f|
            && StoredFrame(l, isStatic, args, n, f) ==
               f[word := if args[n].Int? then Extended(l.words[from])
                         else if args[n].Long? then l.words[from + 1]
                         else Handle(l, from)]
  {
    IntStep(isStatic, args, n);
    LocalInRange(l, isStatic, args, n);
    FrameWordsDiffer(isStatic, args, n, n);
  }

  /** Where a floating point argument is stored, and what. */
  lemma FloatingStored(l: Locals, isStatic: bool, args: seq<Kind>, n: nat, f: seq<nat>)
    requires Covers(l, isStatic, args) && n < |args| && IsFp(args[n]) && STACK_ARGS + Local(args, |args|) <= |f|
    ensures var from, c := Local(args, n), NumFp(args, n);
            var word := if c < 8 then FP_ARGS + c else STACK_ARGS + OnStack(isStatic, args, n);
            && from + Words(args[n]) <= |l.words| && word < |f| && word != RETURN
            && StoredFrame(l, isStatic, args, n, f) ==
               f[word := if args[n].Float? then Extended(l.words[from]) else l.words[from + 1]]
  {
    FpStep(isStatic, args, n);
    LocalInRange(l, isStatic, args, n);
    FrameWordsDiffer(isStatic, args, n, n);
  }

  class SlowSignatureHandler {
    const frame: array<nat>                // the stub's frame, from rsp up
    const isStatic: bool
    var from: nat                          // the local that _from points to
    var to: nat
    var intArgs: nat
    var fpArgs: nat
    var numIntArgs: nat
    var numFpArgs: nat

    /** After the first n arguments. */
    predicate At(l: Locals, args: seq<Kind>, n: nat)
      requires Covers(l, isStatic, args) && n <= |args|
      reads this, frame
    {
      && from == Local(args, n)
      && numIntArgs == NumInt(isStatic, args, n) && intArgs == numIntArgs
      && numFpArgs == NumFp(args, n) && fpArgs == FP_ARGS + numFpArgs
      && to == STACK_ARGS + OnStack(isStatic, args, n)
      && FrameOk(l, isStatic, args, n, frame[..])
    }

    /** The frame is that of generate_slow_signature_handler: 14 words, the return address, and the
        parameter words. */
    constructor (l: Locals, isStatic: bool, args: seq<Kind>, frame: array<nat>)
      requires Covers(l, isStatic, args) && STACK_ARGS + Local(args, |args|) <= frame.Length
      modifies frame
      ensures this.frame == frame && this.isStatic == isStatic && At(l, args, 0)
      ensures frame[RETURN] == old(frame[RETURN])
    {
      this.frame, this.isStatic := frame, isStatic;
      from, to := 0, STACK_ARGS;
      intArgs := STACK_ARGS - if isStatic then 14 else 15;
      fpArgs := STACK_ARGS - 9;
      numIntArgs := if isStatic then 1 else 0;
      numFpArgs := 0;
      new;
      frame[STACK_ARGS - 10] := 0;
      forall k | 0 <= k < 8 ensures !Bit(0, k) { ZeroHasNoBits(k); }
    }

    /** pass_int, pass_long or pass_object. */
    method PassInteger(l: Locals, args: seq<Kind>, n: nat)
      requires Covers(l, isStatic, args) && n < |args| && !IsFp(args[n]) && At(l, args, n)
      modifies this, frame
      ensures At(l, args, n + 1) && frame[RETURN] == old(frame[RETURN])
    {
      ghost var f := frame[..];
      IntegerStored(l, isStatic, args, n, f);
      IntStep(isStatic, args, n);
      StoreKeeps(l, isStatic, args, n, f);
      var v := if args[n].Int? then Extended(l.words[from])
               else if args[n].Long? then l.words[from + 1]
               else Handle(l, from);
      if numIntArgs < 5 {
        frame[intArgs] := v;
        intArgs, numIntArgs := intArgs + 1, numIntArgs + 1;
      } else {
        frame[to] := v;
        to := to + 1;
      }
      from := from + Words(args[n]);
      assert frame[..] == StoredFrame(l, isStatic, args, n, f);
    }

    /** pass_float or pass_double. */
    method PassFloating(l: Locals, args: seq<Kind>, n: nat)
      requires Covers(l, isStatic, args) && n < |args| && IsFp(args[n]) && At(l, args, n)
      modifies this, frame
      ensures At(l, args, n + 1) && frame[RETURN] == old(frame[RETURN])
    {
      ghost var f := frame[..];
      FloatingStored(l, isStatic, args, n, f);
      FpStep(isStatic, args, n);
      var v := if args[n].Float? then Extended(l.words[from]) else l.words[from + 1];
      if numFpArgs < 8 {
        frame[fpArgs] := v;
        fpArgs := fpArgs + 1;
        assert frame[..] == StoredFrame(l, isStatic, args, n, f);
        if args[n].Double? {
          frame[FP_IDS] := SetBit(frame[FP_IDS], numFpArgs);       // mark as double
          StoreDoubleKeeps(l, isStatic, args, n, f);
        } else {
          StoreKeeps(l, isStatic, args, n, f);
        }
        numFpArgs := numFpArgs + 1;
      } else {
        frame[to] := v;
        to := to + 1;
        assert frame[..] == StoredFrame(l, isStatic, args, n, f);
        StoreKeeps(l, isStatic, args, n, f);
      }
      from := from + Words(args[n]);
    }

    /** iterate: the receiver, then the parameters of the signature. */
    method Iterate(l: Locals, args: seq<Kind>)
      requires Covers(l, isStatic, args) && At(l, args, 0)
      modifies this, frame
      ensures At(l, args, |args|) && frame[RETURN] == old(frame[RETURN])
    {
      var n := 0;
      while n < |args|
        invariant 0 <= n <= |args| && At(l, args, n) && frame[RETURN] == old(frame[RETURN])
      {
        if IsFp(args[n]) { PassFloating(l, args, n); } else { PassInteger(l, args, n); }
        n := n + 1;
      }
    }
  }

  // ----- The reload half of the stub

  /** The code behind the call: xmm registers by their identifiers, then rarg1 unless the method is static,
      then rarg2 to rarg5; stack arguments are where they are. */
  method Reload(isStatic: bool, f: seq<nat>, m0: Machine) returns (m: Machine)
    requires |f| >= STACK_ARGS && forall k | 0 <= k < |f| - STACK_ARGS :: Get(m0, Slot(k)) == f[STACK_ARGS + k]
    ensures forall r | 0 <= r < 8 :: Get(m, FpReg(r)) == if Bit(f[FP_IDS], r) then f[FP_ARGS + r] else f[FP_ARGS + r] % 0x1_0000_0000
    ensures forall r | 2 <= r < 6 :: Get(m, IntReg(r)) == f[r - 1]
    ensures Get(m, IntReg(1)) == if isStatic then Get(m0, IntReg(1)) else f[0]
    ensures forall k | 0 <= k < |f| - STACK_ARGS :: Get(m, Slot(k)) == f[STACK_ARGS + k]
  {
    m := m0;
    var i := 0;
    while i < 8
      invariant 0 <= i <= 8
      invariant forall r | 0 <= r < i :: Get(m, FpReg(r)) == if Bit(f[FP_IDS], r) then f[FP_ARGS + r] else f[FP_ARGS + r] % 0x1_0000_0000
      invariant Get(m, IntReg(1)) == Get(m0, IntReg(1))
      invariant forall k | 0 <= k < |f| - STACK_ARGS :: Get(m, Slot(k)) == f[STACK_ARGS + k]
    {
      if Bit(f[FP_IDS], i) {
        m := m[FpReg(i) := f[FP_ARGS + i]];                       // movlpd
      } else {
        m := m[FpReg(i) := f[FP_ARGS + i] % 0x1_0000_0000];       // movss
      }
      i := i + 1;
    }
    if !isStatic { m := m[IntReg(1) := f[0]]; }             // cmovq
    m := m[IntReg(2) := f[1]][IntReg(3) := f[2]][IntReg(4) := f[3]][IntReg(5) := f[4]];
  }

  /** The slow handler as a whole passes the arguments as the ABI wants them, and comes back to its
      return address, whatever call_VM has left in the registers. */
  method SlowHandler(l: Locals, isStatic: bool, args: seq<Kind>, frame: array<nat>, left: Machine) returns (m: Machine)
    requires Covers(l, isStatic, args) && STACK_ARGS + Local(args, |args|) <= frame.Length
    modifies frame
    ensures frame[RETURN] == old(frame[RETURN])
    ensures AllHeld(l, isStatic, args, |args|, m)
  {
    var handler := new SlowSignatureHandler(l, isStatic, args, frame);
    handler.Iterate(l, args);
    var f := frame[..];
    m := Reload(isStatic, f, WithStack(left, f, |f| - STACK_ARGS));
    forall i | 0 <= i < |args| ensures HeldAt(l, isStatic, args, i, m) {
      ReloadHolds(l, isStatic, args, i, f, m);
    }
  }

  /** The machine whose stack argument area is the end of the frame. */
  function WithStack(m: Machine, f: seq<nat>, n: nat): (r: Machine)
    requires STACK_ARGS + n <= |f|
    ensures forall k | 0 <= k < n :: Get(r, Slot(k)) == f[STACK_ARGS + k]
  {
    if n == 0 then m else WithStack(m, f, n - 1)[Slot(n - 1) := f[STACK_ARGS + n - 1]]
  }

  lemma ExtendedLow(word: nat)
    ensures Extended(word) % 0x1_0000_0000 == word % 0x1_0000_0000
  {
  }

  lemma ReloadHolds(l: Locals, isStatic: bool, args: seq<Kind>, i: nat, f: seq<nat>, m: Machine)
    requires Covers(l, isStatic, args) && i < |args| && FrameOk(l, isStatic, args, |args|, f)
    requires forall r | 0 <= r < 8 :: Get(m, FpReg(r)) == if Bit(f[FP_IDS], r) then f[FP_ARGS + r] else f[FP_ARGS + r] % 0x1_0000_0000
    requires forall r | 2 <= r < 6 :: Get(m, IntReg(r)) == f[r - 1]
    requires !isStatic ==> Get(m, IntReg(1)) == f[0]
    requires forall k | 0 <= k < |f| - STACK_ARGS :: Get(m, Slot(k)) == f[STACK_ARGS + k]
    ensures HeldAt(l, isStatic, args, i, m)
  {
    LocalInRange(l, isStatic, args, i);
    FrameWordsDiffer(isStatic, args, i, i);
    PlaceInRange(isStatic, args, i);
    assert Filled(l, isStatic, args, i, f) && IdOk(isStatic, args, i, f[FP_IDS]);
    ExtendedLow(l.words[Local(args, i)]);
  }

  /** What generate_native_entry does behind the signature handler: a static method gets a handle of its
      mirror in rarg1. */
  function PassMirror(isStatic: bool, m: Machine, mirror: nat): (r: Machine) {
    if isStatic then m[IntReg(1) := mirror] else m
  }

  /** The mirror overwrites no argument. */
  lemma MirrorKeepsArguments(l: Locals, isStatic: bool, args: seq<Kind>, m: Machine, mirror: nat)
    requires Covers(l, isStatic, args) && AllHeld(l, isStatic, args, |args|, m)
    ensures AllHeld(l, isStatic, args, |args|, PassMirror(isStatic, m, mirror))
    ensures isStatic ==> Get(PassMirror(isStatic, m, mirror), IntReg(1)) == mirror
  {
    var r := PassMirror(isStatic, m, mirror);
    forall i | 0 <= i < |args| ensures HeldAt(l, isStatic, args, i, r) {
      assert HeldAt(l, isStatic, args, i, m);
      assert isStatic ==> Place(isStatic, args, i) != IntReg(1);
    }
  }

  /** The generated and the slow handler agree on every argument of every native method, whatever the
      registers and the stack held before. */
  method HandlersAgree(l: Locals, isStatic: bool, types: seq<Kind>, frame: array<nat>, m0: Machine, left: Machine)
    returns (fast: Machine, slow: Machine)
    requires Covers(l, isStatic, Args(isStatic, types)) && STACK_ARGS + Local(Args(isStatic, types), |Args(isStatic, types)|) <= frame.Length
    modifies frame
    ensures var args := Args(isStatic, types);
            && AllHeld(l, isStatic, args, |args|, fast) && AllHeld(l, isStatic, args, |args|, slow)
            && forall i | 0 <= i < |args| :: Same(args[i], Get(fast, Place(isStatic, args, i)), Get(slow, Place(isStatic, args, i)))
  {
    var args := Args(isStatic, types);
    var g := new SignatureHandlerGenerator(isStatic, args);
    g.Generate(isStatic, args);
    GeneratedCodePasses(l, isStatic, args, g.moves, |args|, m0);
    fast := Run(l, g.moves, m0);
    slow := SlowHandler(l, isStatic, args, frame, left);
    forall i | 0 <= i < |args|
      ensures Same(args[i], Get(fast, Place(isStatic, args, i)), Get(slow, Place(isStatic, args, i)))
    {
      assert HeldAt(l, isStatic, args, i, fast) && HeldAt(l, isStatic, args, i, slow);
    }
  }

  /** Equal up to the argument's width. */
  predicate Same(k: Kind, a: nat, b: nat) {
    if k.Int? || k.Float? then a % 0x1_0000_0000 == b % 0x1_0000_0000 else a == b
  }
}
