/** Where the arguments of a native method go: section 3.2.3 of the System V AMD64 ABI, for the JNI
    function type (JNIEnv*, [jclass,] arguments...), and what their values are. */
module CallingConvention {

  /** The argument kinds of NativeSignatureIterator; sub-word integers are passed as Int. */
  datatype Kind = Int | Long | Float | Double | Object

  /** An integer argument register rarg0..rarg5, xmm0..xmm7, or an eightbyte of the stack
      argument area. */
  datatype Loc = IntReg(n: nat) | FpReg(n: nat) | Slot(n: nat)

  predicate IsFp(k: Kind) { k.Float? || k.Double? }

  /** The Java locals an argument takes. */
  function Words(k: Kind): (n: nat) { if k.Long? || k.Double? then 2 else 1 }

  /** Arguments of INTEGER class and of SSE class among the first n. */
  function Ints(args: seq<Kind>, n: nat): (c: nat)
    requires n <= |args|
    ensures c <= n
  {
    if n == 0 then 0 else Ints(args, n - 1) + if IsFp(args[n - 1]) then 0 else 1
  }

  function Fps(args: seq<Kind>, n: nat): (c: nat)
    requires n <= |args|
    ensures c + Ints(args, n) == n
  {
    if n == 0 then 0 else Fps(args, n - 1) + if IsFp(args[n - 1]) then 1 else 0
  }

  /** The first local of argument n, and with n == |args| the size of all parameters. */
  function Local(args: seq<Kind>, n: nat): (l: nat)
    requires n <= |args|
  {
    if n == 0 then 0 else Local(args, n - 1) + Words(args[n - 1])
  }

  function Over(n: nat, limit: nat): (k: nat) { if n > limit then n - limit else 0 }

  /** The JNI environment, and the class mirror of a static method, take the first integer registers. */
  function Hidden(isStatic: bool): (n: nat) { if isStatic then 2 else 1 }

  /** How many eightbytes the first n arguments take on the stack. */
  function OnStack(isStatic: bool, args: seq<Kind>, n: nat): (k: nat)
    requires n <= |args|
  {
    Over(Hidden(isStatic) + Ints(args, n), 6) + Over(Fps(args, n), 8)
  }

  /** Where argument n goes: the next free register of its class, and the stack when there is none. */
  function Place(isStatic: bool, args: seq<Kind>, n: nat): (loc: Loc)
    requires n < |args|
  {
    var ints, fps := Hidden(isStatic) + Ints(args, n), Fps(args, n);
    if IsFp(args[n]) then if fps < 8 then FpReg(fps) else Slot(OnStack(isStatic, args, n))
    else if ints < 6 then IntReg(ints)
    else Slot(OnStack(isStatic, args, n))
  }

  /** The arguments of a method: a receiver in front unless it is static. */
  function Args(isStatic: bool, types: seq<Kind>): (args: seq<Kind>) {
    if isStatic then types else [Object] + types
  }

  // ----- Values

  /** The Java locals: local l holds the word locals[l] at the address from - 8 * l. */
  datatype Locals = Locals(words: seq<nat>, from: nat)

  predicate ValidLocals(l: Locals) {
    (forall i | 0 <= i < |l.words| :: l.words[i] < 0x1_0000_0000_0000_0000) && 8 * |l.words| <= l.from < 0x1_0000_0000_0000_0000
  }

  /** The address of a non-null local, which is how an object is passed. */
  function Handle(l: Locals, i: nat): (a: nat)
    requires i < |l.words| && ValidLocals(l)
  {
    if l.words[i] == 0 then 0 else l.from - 8 * i
  }

  /** The value of argument n. */
  function Value(l: Locals, args: seq<Kind>, n: nat): (v: nat)
    requires n < |args| && ValidLocals(l) && Local(args, n) + Words(args[n]) <= |l.words|
  {
    var i := Local(args, n);
    match args[n]
    case Int => l.words[i] % 0x1_0000_0000
    case Float => l.words[i] % 0x1_0000_0000
    case Long => l.words[i + 1]
    case Double => l.words[i + 1]
    case Object => Handle(l, i)
  }

  /** A register or slot holds an argument, up to the argument's width. */
  predicate Holds(k: Kind, got: nat, v: nat) {
    if k.Int? || k.Float? then got % 0x1_0000_0000 == v else got == v
  }

  // ----- Facts about places

  lemma {:induction false} CountsGrow(args: seq<Kind>, m: nat, n: nat)
    requires m <= n <= |args|
    ensures Ints(args, m) <= Ints(args, n) && Fps(args, m) <= Fps(args, n) && Local(args, m) <= Local(args, n)
    decreases n
  {
    if m < n { CountsGrow(args, m, n - 1); }
  }

  /** Different arguments go to different places. */
  lemma PlacesDiffer(isStatic: bool, args: seq<Kind>, m: nat, n: nat)
    requires m < n < |args|
    ensures Place(isStatic, args, m) != Place(isStatic, args, n)
  {
    CountsGrow(args, m + 1, n);
  }

  /** The stack arguments fit in the parameter words that the native entry reserves. */
  lemma {:induction false} StackFits(isStatic: bool, args: seq<Kind>, n: nat)
    requires n <= |args|
    ensures OnStack(isStatic, args, n) <= Local(args, n)
  {
    if n > 0 { StackFits(isStatic, args, n - 1); }
  }

  /** A stack argument lies below the count of stack arguments that include it. */
  lemma PlaceInRange(isStatic: bool, args: seq<Kind>, n: nat)
    requires n < |args|
    ensures match Place(isStatic, args, n)
            case IntReg(r) => Hidden(isStatic) <= r < 6
            case FpReg(r) => r < 8
            case Slot(k) => k < OnStack(isStatic, args, n + 1) <= Local(args, |args|)
  {
    StackFits(isStatic, args, n + 1);
    CountsGrow(args, n + 1, |args|);
  }

  // ----- Counting the way the handlers do

  /** _num_int_args after n arguments: it counts the class mirror and stops at five. */
  function NumInt(isStatic: bool, args: seq<Kind>, n: nat): (c: nat)
    requires n <= |args|
    ensures c <= 5
  {
    var ints := Hidden(isStatic) + Ints(args, n);
    if ints < 6 then ints - 1 else 5
  }

  /** _num_fp_args after n arguments: it stops at eight. */
  function NumFp(args: seq<Kind>, n: nat): (c: nat)
    requires n <= |args|
    ensures c <= 8
  {
    if Fps(args, n) < 8 then Fps(args, n) else 8
  }

  lemma IntStep(isStatic: bool, args: seq<Kind>, n: nat)
    requires n < |args| && !IsFp(args[n])
    ensures NumFp(args, n + 1) == NumFp(args, n)
    ensures var c := NumInt(isStatic, args, n);
            if c < 5 then
              && Place(isStatic, args, n) == IntReg(c + 1) && NumInt(isStatic, args, n + 1) == c + 1
              && OnStack(isStatic, args, n + 1) == OnStack(isStatic, args, n)
            else
              && Place(isStatic, args, n) == Slot(OnStack(isStatic, args, n)) && NumInt(isStatic, args, n + 1) == c
              && OnStack(isStatic, args, n + 1) == OnStack(isStatic, args, n) + 1
  {
  }

  lemma FpStep(isStatic: bool, args: seq<Kind>, n: nat)
    requires n < |args| && IsFp(args[n])
    ensures NumInt(isStatic, args, n + 1) == NumInt(isStatic, args, n)
    ensures var c := NumFp(args, n);
            if c < 8 then
              && Place(isStatic, args, n) == FpReg(c) && NumFp(args, n + 1) == c + 1
              && OnStack(isStatic, args, n + 1) == OnStack(isStatic, args, n)
            else
              && Place(isStatic, args, n) == Slot(OnStack(isStatic, args, n)) && NumFp(args, n + 1) == c
              && OnStack(isStatic, args, n + 1) == OnStack(isStatic, args, n) + 1
  {
  }
}
