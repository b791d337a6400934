/** The two ways to move a native method's arguments from the Java locals to where the C function
    expects them: generated code (interpreterRT_amd64.cpp, SignatureHandlerGenerator), and a runtime
    routine with a reload stub (SlowSignatureHandler; interpreter_amd64.cpp,
    generate_slow_signature_handler). The branches for Windows are not part of this model. */
module SignatureHandlers {
  import opened CallingConvention

  // ----- Generated code

  /** One argument's instructions: a 32-bit or 64-bit move, the address of a local, or that address
      unless the local is null. */
  datatype Move =
    | Mov32(dst: Loc, local: nat)
    | Mov64(dst: Loc, local: nat)
    | Lea(dst: Loc, local: nat)
    | LeaOrNull(dst: Loc, local: nat)

  type Machine = map<Loc, nat>

  function Get(m: Machine, loc: Loc): (v: nat) { if loc in m then m[loc] else 0 }

  predicate MoveOk(l: Locals, mv: Move) { mv.local < |l.words| }

  /** movl clears the upper half of a register and leaves that of a stack slot alone; movss and
      movlpd are the same two moves into an xmm register. */
  function Exec(l: Locals, mv: Move, m: Machine): (r: Machine)
    requires ValidLocals(l) && MoveOk(l, mv)
  {
    match mv
    case Mov32(dst, i) =>
      var low := l.words[i] % 0x1_0000_0000;
      m[dst := if dst.Slot? then Get(m, dst) / 0x1_0000_0000 * 0x1_0000_0000 + low else low]
    case Mov64(dst, i) => m[dst := l.words[i]]
    case Lea(dst, i) => m[dst := l.from - 8 * i]
    case LeaOrNull(dst, i) => m[dst := Handle(l, i)]
  }

  function Run(l: Locals, moves: seq<Move>, m: Machine): (r: Machine)
    requires ValidLocals(l) && forall i | 0 <= i < |moves| :: MoveOk(l, moves[i])
  {
    if moves == [] then m else Exec(l, moves[|moves| - 1], Run(l, moves[..|moves| - 1], m))
  }

  /** The stack word at this offset from to(), above the return address. */
  function SlotAt(offset: nat): (loc: Loc) { Slot(if offset >= 8 then (offset - 8) / 8 else 0) }

  lemma SlotOffset(k: nat)
    ensures SlotAt(8 + 8 * k) == Slot(k)
  {
  }

  /** What the generated code for argument n is. */
  predicate IsMoveFor(mv: Move, isStatic: bool, args: seq<Kind>, n: nat)
    requires n < |args|
  {
    && mv.dst == Place(isStatic, args, n)
    && match args[n]
       case Int => mv.Mov32? && mv.local == Local(args, n)
       case Float => mv.Mov32? && mv.local == Local(args, n)
       case Long => mv.Mov64? && mv.local == Local(args, n) + 1
       case Double => mv.Mov64? && mv.local == Local(args, n) + 1
       case Object => mv.local == Local(args, n) && (mv.LeaOrNull? || (mv.Lea? && !isStatic && n == 0))
  }

  /** What pass_int, pass_long and pass_object emit. */
  function IntegerMove(k: Kind, dst: Loc, offset: nat, first: bool): (mv: Move)
    requires !IsFp(k)
  {
    if k.Int? then Mov32(dst, offset)
    else if k.Long? then Mov64(dst, offset + 1)
    else if first then Lea(dst, offset)
    else LeaOrNull(dst, offset)
  }

  /** Only the receiver is the first integer argument of all. */
  lemma OnlyReceiverIsFirst(isStatic: bool, args: seq<Kind>, n: nat)
    requires n < |args| && (!isStatic ==> args[0] == Object) && NumInt(isStatic, args, n) == 0
    ensures !isStatic && n == 0
  {
    if n > 0 { CountsGrow(args, 1, n); }
  }

  class SignatureHandlerGenerator {
    var numIntArgs: nat
    var numFpArgs: nat
    var stackOffset: nat
    var offset: nat                        // NativeSignatureIterator::offset()
    var moves: seq<Move>                   // the code

    /** The counters after the first n arguments. */
    predicate At(isStatic: bool, args: seq<Kind>, n: nat)
      requires n <= |args|
      reads this
    {
      && numIntArgs == NumInt(isStatic, args, n)
      && numFpArgs == NumFp(args, n)
      && stackOffset == 8 + 8 * OnStack(isStatic, args, n)
      && offset == Local(args, n)
      && |moves| == n
      && forall i | 0 <= i < n :: IsMoveFor(moves[i], isStatic, args, i)
    }

    constructor (isStatic: bool, args: seq<Kind>)
      ensures At(isStatic, args, 0)
    {
      numIntArgs := if isStatic then 1 else 0;
      numFpArgs, stackOffset, offset, moves := 0, 8, 0, [];
    }

    /** The next integer register, or the next stack word. */
    method NextInt() returns (dst: Loc)
      modifies this`numIntArgs, this`stackOffset
      ensures if old(numIntArgs) < 5
              then dst == IntReg(old(numIntArgs) + 1) && numIntArgs == old(numIntArgs) + 1 && stackOffset == old(stackOffset)
              else dst == SlotAt(old(stackOffset)) && numIntArgs == old(numIntArgs) && stackOffset == old(stackOffset) + 8
    {
      match numIntArgs {
        case 0 => dst := IntReg(1); numIntArgs := numIntArgs + 1;
        case 1 => dst := IntReg(2); numIntArgs := numIntArgs + 1;
        case 2 => dst := IntReg(3); numIntArgs := numIntArgs + 1;
        case 3 => dst := IntReg(4); numIntArgs := numIntArgs + 1;
        case 4 => dst := IntReg(5); numIntArgs := numIntArgs + 1;
        case _ => dst := SlotAt(stackOffset); stackOffset := stackOffset + 8;
      }
    }

    /** The next xmm register, or the next stack word. */
    method NextFp() returns (dst: Loc)
      modifies this`numFpArgs, this`stackOffset
      ensures if old(numFpArgs) < 8
              then dst == FpReg(old(numFpArgs)) && numFpArgs == old(numFpArgs) + 1 && stackOffset == old(stackOffset)
              else dst == SlotAt(old(stackOffset)) && numFpArgs == old(numFpArgs) && stackOffset == old(stackOffset) + 8
    {
      if numFpArgs < 8 {
        dst := FpReg(numFpArgs);
        numFpArgs := numFpArgs + 1;
      } else {
        dst := SlotAt(stackOffset);
        stackOffset := stackOffset + 8;
      }
    }

    /** pass_int, pass_long or pass_object. */
    method PassInteger(isStatic: bool, args: seq<Kind>, n: nat)
      requires n < |args| && !IsFp(args[n]) && At(isStatic, args, n)
      requires !isStatic ==> args[0] == Object
      modifies this
      ensures At(isStatic, args, n + 1)
    {
      IntStep(isStatic, args, n);
      SlotOffset(OnStack(isStatic, args, n));
      var first := numIntArgs == 0;
      if first { OnlyReceiverIsFirst(isStatic, args, n); }
      var dst := NextInt();
      moves := moves + [IntegerMove(args[n], dst, offset, first)];
      offset := offset + Words(args[n]);
    }

    /** pass_float or pass_double. */
    method PassFloating(isStatic: bool, args: seq<Kind>, n: nat)
      requires n < |args| && IsFp(args[n]) && At(isStatic, args, n)
      modifies this
      ensures At(isStatic, args, n + 1)
    {
      FpStep(isStatic, args, n);
      SlotOffset(OnStack(isStatic, args, n));
      var dst := NextFp();
      moves := moves + [if args[n].Float? then Mov32(dst, offset) else Mov64(dst, offset + 1)];
      offset := offset + Words(args[n]);
    }

    /** generate(fingerprint). */
    method Generate(isStatic: bool, args: seq<Kind>)
      requires At(isStatic, args, 0) && (!isStatic ==> args != [] && args[0] == Object)
      modifies this
      ensures At(isStatic, args, |args|)
    {
      var n := 0;
      while n < |args|
        invariant 0 <= n <= |args| && At(isStatic, args, n)
      {
        if IsFp(args[n]) { PassFloating(isStatic, args, n); } else { PassInteger(isStatic, args, n); }
        n := n + 1;
      }
    }
  }

  /** The locals that a method's arguments lie in. */
  predicate Covers(l: Locals, isStatic: bool, args: seq<Kind>) {
    && ValidLocals(l) && Local(args, |args|) <= |l.words|
    && (!isStatic ==> args != [] && args[0] == Object && l.words[0] != 0)      // the receiver is not null
  }

  lemma LocalInRange(l: Locals, isStatic: bool, args: seq<Kind>, n: nat)
    requires Covers(l, isStatic, args) && n < |args|
    ensures Local(args, n) + Words(args[n]) <= |l.words|
  {
    CountsGrow(args, n + 1, |args|);
  }

  /** Each argument's place holds its value, all at once. */
  predicate AllHeld(l: Locals, isStatic: bool, args: seq<Kind>, n: nat, m: Machine)
    requires Covers(l, isStatic, args) && n <= |args|
  {
    forall i | 0 <= i < n :: HeldAt(l, isStatic, args, i, m)
  }

  predicate HeldAt(l: Locals, isStatic: bool, args: seq<Kind>, i: nat, m: Machine)
    requires Covers(l, isStatic, args) && i < |args|
  {
    LocalInRange(l, isStatic, args, i);
    Holds(args[i], Get(m, Place(isStatic, args, i)), Value(l, args, i))
  }

  /** Running the generated code passes the arguments as the ABI wants them. */
  lemma {:induction false} GeneratedCodePasses(l: Locals, isStatic: bool, args: seq<Kind>, moves: seq<Move>, n: nat, m: Machine)
    requires Covers(l, isStatic, args) && n <= |args| && |moves| == n
    requires forall i | 0 <= i < n :: IsMoveFor(moves[i], isStatic, args, i)
    ensures forall i | 0 <= i < n :: MoveOk(l, moves[i])
    ensures AllHeld(l, isStatic, args, n, Run(l, moves, m))
  {
    forall i | 0 <= i < n ensures MoveOk(l, moves[i]) { LocalInRange(l, isStatic, args, i); }
    if n > 0 {
      var rest := Run(l, moves[..n - 1], m);
      GeneratedCodePasses(l, isStatic, args, moves[..n - 1], n - 1, m);
      var now := Run(l, moves, m);
      forall i | 0 <= i < n ensures HeldAt(l, isStatic, args, i, now) {
        if i < n - 1 {
          assert HeldAt(l, isStatic, args, i, rest);
          StaysHeld(l, isStatic, args, i, n - 1, moves[n - 1], rest);
        } else {
          MoveHolds(l, isStatic, args, i, moves[i], rest);
        }
      }
    }
  }

  lemma StaysHeld(l: Locals, isStatic: bool, args: seq<Kind>, i: nat, n: nat, mv: Move, m: Machine)
    requires Covers(l, isStatic, args) && i < n < |args| && MoveOk(l, mv) && mv.dst == Place(isStatic, args, n)
    requires HeldAt(l, isStatic, args, i, m)
    ensures HeldAt(l, isStatic, args, i, Exec(l, mv, m))
  {
    PlacesDiffer(isStatic, args, i, n);
    assert Get(Exec(l, mv, m), Place(isStatic, args, i)) == Get(m, Place(isStatic, args, i));
  }

  lemma MoveHolds(l: Locals, isStatic: bool, args: seq<Kind>, i: nat, mv: Move, m: Machine)
    requires Covers(l, isStatic, args) && i < |args| && IsMoveFor(mv, isStatic, args, i) && MoveOk(l, mv)
    ensures HeldAt(l, isStatic, args, i, Exec(l, mv, m))
  {
    LocalInRange(l, isStatic, args, i);
  }
}
