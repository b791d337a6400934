/** The fast JNI field getters (jniFastGetField_amd64.cpp) against safepoints and mutators.

    A getter reads the safepoint counter, the handle, the field and the counter again. The runtime
    moves objects only while the counter is odd (share/vm/runtime/safepoint.cpp); mutators write
    fields at any time. Loads happen in program order, which the source enforces by data
    dependencies; start, truth and finish record a getter's history and are read by no step. */
module FastGetField {
  import opened Options

  datatype FieldType = Boolean | Byte | Char | Short | Int | Long | Float | Double

  function Width(ty: FieldType): (n: nat) {
    match ty case Boolean => 1 case Byte => 1 case Char => 2 case Short => 2 case Int => 4 case Float => 4 case _ => 8
  }

  /** Byte memory; a load from an unmapped byte faults. */
  type Memory = map<int, nat>

  function Raw(mem: Memory, a: int, n: nat): (v: Option<nat>)
    decreases n
  {
    if n == 0 then Some(0)
    else if a !in mem || Raw(mem, a + 1, n - 1) == None then None
    else Some(mem[a] % 0x100 + 0x100 * Raw(mem, a + 1, n - 1).value)
  }

  /** movzbl, movsbl, movzwl, movswl, movl, movq, movss and movlpd. */
  function Load(mem: Memory, a: int, ty: FieldType): (v: Option<int>) {
    match Raw(mem, a, Width(ty))
    case None => None
    case Some(u) => Some(
      if ty.Byte? && u >= 0x80 then u - 0x100
      else if ty.Short? && u >= 0x8000 then u - 0x1_0000
      else u)
  }

  datatype Pc = HasCounter | HasHandle | HasObject | HasField | Fast(v: int) | Slow

  /** One call of a getter: the handle h, the field offset, the registers rcounter, robj and rax;
      the counter at its first and last load and the field's value when it was loaded. */
  datatype Getter = Getter(pc: Pc, h: nat, off: nat, ty: FieldType, rcounter: nat, robj: int, rax: int,
                           start: nat, truth: Option<int>, finish: nat)

  datatype State = State(counter: nat, mem: Memory, handles: map<nat, int>, getters: map<nat, Getter>)

  /** Where the object of a handle is now. */
  function Object(s: State, h: nat): (a: int) { if h in s.handles then s.handles[h] else 0 }

  /** The value of a field in the current location of the handle's object. */
  function Field(s: State, g: Getter): (v: Option<int>) { Load(s.mem, Object(s, g.h) + g.off, g.ty) }

  /** What a 32-bit load sees of the counter. */
  function Low(counter: nat): (c: nat) { counter % 0x1_0000_0000 }

  datatype Step =
    | Call(t: nat, h: nat, id: nat, ty: FieldType)   // a fresh call t; the field id holds offset << 2
    | Go(t: nat)                                     // the next instruction of call t
    | BeginSafepoint
    | EndSafepoint
    | Move(handles: map<nat, int>, mem: Memory)      // the collector moves objects and rewrites handles
    | Write(mem: Memory)                             // mutators change memory in any way, but no handle

  predicate Enabled(s: State, e: Step) {
    match e
    case Call(t, _, _, _) => t !in s.getters
    case Go(t) => t in s.getters && !s.getters[t].pc.Fast? && !s.getters[t].pc.Slow?
    case BeginSafepoint => s.counter % 2 == 0
    case EndSafepoint => s.counter % 2 == 1
    case Move(_, _) => s.counter % 2 == 1
    case Write(_) => true
  }

  function Next(s: State, g: Getter): (r: Getter) {
    match g.pc
    case HasCounter => if g.rcounter % 2 == 1 then g.(pc := Slow) else g.(pc := HasHandle)
    case HasHandle => g.(pc := HasObject, robj := Object(s, g.h))
    case HasObject =>
      (match Load(s.mem, g.robj + g.off, g.ty)
       case None => g.(pc := Slow)                   // the fault handler resumes at the slow case
       case Some(v) => g.(pc := HasField, rax := v, truth := Field(s, g)))
    case HasField =>
      if Low(s.counter) == g.rcounter then g.(pc := Fast(g.rax), finish := s.counter)
      else g.(pc := Slow, finish := s.counter)
    case _ => g
  }

  function Apply(s: State, e: Step): (r: State)
    requires Enabled(s, e)
  {
    match e
    case Call(t, h, id, ty) =>
      s.(getters := s.getters[t := Getter(HasCounter, h, id / 4, ty, Low(s.counter), 0, 0, s.counter, None, 0)])
    case Go(t) => s.(getters := s.getters[t := Next(s, s.getters[t])])
    case BeginSafepoint => s.(counter := s.counter + 1)
    case EndSafepoint => s.(counter := s.counter + 1)
    case Move(handles, mem) => s.(handles := handles, mem := mem)
    case Write(mem) => s.(mem := mem)
  }

  predicate IsRun(s: State, es: seq<Step>)
    decreases |es|
  {
    es == [] || (Enabled(s, es[0]) && IsRun(Apply(s, es[0]), es[1..]))
  }

  function Final(s: State, es: seq<Step>): (r: State)
    requires IsRun(s, es)
    decreases |es|
  {
    if es == [] then s else Final(Apply(s, es[0]), es[1..])
  }

  // ----- The invariant

  predicate GetterOk(s: State, g: Getter) {
    && g.rcounter == Low(g.start) && g.start <= s.counter
    && (g.pc.HasHandle? || g.pc.HasObject? || g.pc.HasField? || g.pc.Fast? ==> g.start % 2 == 0)
    && (g.pc.HasObject? && s.counter == g.start ==> g.robj == Object(s, g.h))
    && (g.pc.HasField? && s.counter == g.start ==> g.truth == Some(g.rax))
    && (g.pc.Fast? ==> g.start <= g.finish <= s.counter && Low(g.finish) == Low(g.start))
    && (g.pc.Fast? && g.finish == g.start ==> g.truth == Some(g.pc.v))
  }

  predicate Inv(s: State) { forall t | t in s.getters :: GetterOk(s, s.getters[t]) }

  lemma StepKeepsInv(s: State, e: Step)
    requires Inv(s) && Enabled(s, e)
    ensures Inv(Apply(s, e))
  {
    var r := Apply(s, e);
    forall t | t in r.getters ensures GetterOk(r, r.getters[t]) {
      if t in s.getters {
        assert GetterOk(s, s.getters[t]);
        if e.Go? && e.t == t { NextIsOk(s, s.getters[t]); }
      }
    }
  }

  lemma NextIsOk(s: State, g: Getter)
    requires GetterOk(s, g)
    ensures GetterOk(s, Next(s, g))
  {
  }

  lemma {:induction false} RunKeepsInv(s: State, es: seq<Step>)
    requires Inv(s) && IsRun(s, es)
    ensures Inv(Final(s, es))
    decreases |es|
  {
    if es != [] {
      StepKeepsInv(s, es[0]);
      RunKeepsInv(Apply(s, es[0]), es[1..]);
    }
  }

  /** Whatever safepoints, moves and writes happen: what a fast getter returns is the value that the field
      had, in the object's location at the time, when it was loaded; if fewer than 2^32 counter
      increments fell into the call. */
  lemma FastIsTrue(s: State, es: seq<Step>, t: nat)
    requires s.getters == map[] && IsRun(s, es)
    requires t in Final(s, es).getters && Final(s, es).getters[t].pc.Fast?
    ensures var g := Final(s, es).getters[t];
            && g.start <= g.finish && g.start % 2 == 0
            && (g.finish - g.start < 0x1_0000_0000 ==> g.finish == g.start && g.truth == Some(g.pc.v))
  {
    RunKeepsInv(s, es);
    assert GetterOk(Final(s, es), Final(s, es).getters[t]);
  }

  /** A getter that could load the field takes the fast path just if no increment fell into the call, as
      long as there were fewer than 2^32. */
  lemma FastExactly(s: State, g: Getter)
    requires GetterOk(s, g) && g.pc.HasField? && s.counter - g.start < 0x1_0000_0000
    ensures Next(s, g).pc == if s.counter == g.start then Fast(g.rax) else Slow
    ensures Next(s, g).pc.Fast? ==> g.truth == Some(g.rax)
  {
  }

  // ----- The bound is sharp

  /** n safepoints in which nothing happens. */
  function Idle(n: nat): (es: seq<Step>)
    ensures |es| == 2 * n
  {
    if n == 0 then [] else [BeginSafepoint, EndSafepoint] + Idle(n - 1)
  }

  lemma {:induction false} IdleRuns(s: State, n: nat)
    requires s.counter % 2 == 0
    ensures IsRun(s, Idle(n)) && Final(s, Idle(n)) == s.(counter := s.counter + 2 * n)
    decreases n
  {
    if n > 0 {
      var s1 := Apply(s, BeginSafepoint);
      var s2 := Apply(s1, EndSafepoint);
      IdleRuns(s2, n - 1);
      var es := Idle(n);
      assert es[0] == BeginSafepoint && es[1..][0] == EndSafepoint && es[1..][1..] == Idle(n - 1);
    }
  }

  lemma {:induction false} RunsCompose(s: State, a: seq<Step>, b: seq<Step>)
    requires IsRun(s, a) && IsRun(Final(s, a), b)
    ensures IsRun(s, a + b) && Final(s, a + b) == Final(Final(s, a), b)
    decreases |a|
  {
    if a == [] {
      assert a + b == b;
    } else {
      RunsCompose(Apply(s, a[0]), a[1..], b);
      assert (a + b)[0] == a[0] && (a + b)[1..] == a[1..] + b;
    }
  }

  /** With 2^32 increments, among them a move of the object, a getter takes the fast path and returns a
      value that the field does not have. */
  lemma CounterWraps(n: nat)
    requires 2 + 2 * n == 0x1_0000_0000
    ensures var s := State(0, map[16 := 7], map[1 := 16], map[]);
            var es := MoveMeanwhile() + Idle(n) + [Go(0), Go(0)];
            && IsRun(s, es) && 0 in Final(s, es).getters
            && var g := Final(s, es).getters[0];
               g.pc == Fast(7) && g.truth == Some(8) && g.finish - g.start == 0x1_0000_0000
  {
    var s := State(0, map[16 := 7], map[1 := 16], map[]);
    ObjectMoves(s);
    IdleRuns(Final(s, MoveMeanwhile()), n);
    RunsCompose(s, MoveMeanwhile(), Idle(n));
    StaleLoad(Final(s, MoveMeanwhile() + Idle(n)));
    RunsCompose(s, MoveMeanwhile() + Idle(n), [Go(0), Go(0)]);
  }

  function ReadHandle(): (es: seq<Step>) { [Call(0, 1, 0, Byte), Go(0), Go(0)] }

  function MoveAndWrite(): (es: seq<Step>) {
    [BeginSafepoint, Move(map[1 := 32], map[16 := 7, 32 := 7]), EndSafepoint, Write(map[16 := 7, 32 := 8])]
  }

  function MoveMeanwhile(): (es: seq<Step>) { ReadHandle() + MoveAndWrite() }

  /** A getter has read the handle when the object moves and its field is written. */
  lemma ObjectMoves(s: State)
    requires s == State(0, map[16 := 7], map[1 := 16], map[])
    ensures IsRun(s, MoveMeanwhile())
    ensures Final(s, MoveMeanwhile()) ==
            State(2, map[16 := 7, 32 := 8], map[1 := 32], map[0 := Getter(HasObject, 1, 0, Byte, 0, 16, 0, 0, None, 0)])
  {
    HandleIsRead(s);
    var s3 := Final(s, ReadHandle());
    var es := MoveAndWrite();
    var s4 := Apply(s3, es[0]);
    var s5 := Apply(s4, es[1]);
    var s6 := Apply(s5, es[2]);
    var s7 := Apply(s6, es[3]);
    assert es[4..] == [] && IsRun(s7, es[4..]) && Final(s7, es[4..]) == s7;
    OneStep(s6, es, 3);
    OneStep(s5, es, 2);
    OneStep(s4, es, 1);
    OneStep(s3, es, 0);
    assert es[0..] == es;
    RunsCompose(s, ReadHandle(), es);
  }

  lemma HandleIsRead(s: State)
    requires s == State(0, map[16 := 7], map[1 := 16], map[])
    ensures IsRun(s, ReadHandle())
    ensures Final(s, ReadHandle()) ==
            State(0, map[16 := 7], map[1 := 16], map[0 := Getter(HasObject, 1, 0, Byte, 0, 16, 0, 0, None, 0)])
  {
    var es := ReadHandle();
    var s1 := Apply(s, es[0]);
    var s2 := Apply(s1, es[1]);
    var s3 := Apply(s2, es[2]);
    assert s3.getters == map[0 := Getter(HasObject, 1, 0, Byte, 0, 16, 0, 0, None, 0)];
    assert es[3..] == [] && IsRun(s3, es[3..]) && Final(s3, es[3..]) == s3;
    OneStep(s2, es, 2);
    OneStep(s1, es, 1);
    OneStep(s, es, 0);
    assert es[0..] == es;
  }

  lemma OneStep(s: State, es: seq<Step>, k: nat)
    requires k < |es| && Enabled(s, es[k]) && IsRun(Apply(s, es[k]), es[k + 1..])
    ensures IsRun(s, es[k..]) && Final(s, es[k..]) == Final(Apply(s, es[k]), es[k + 1..])
  {
    assert es[k..][0] == es[k] && es[k..][1..] == es[k + 1..];
  }

  /** It loads from the old location, and the counter looks the same again. */
  lemma StaleLoad(s: State)
    requires s == State(0x1_0000_0000, map[16 := 7, 32 := 8], map[1 := 32],
                        map[0 := Getter(HasObject, 1, 0, Byte, 0, 16, 0, 0, None, 0)])
    ensures IsRun(s, [Go(0), Go(0)])
    ensures Final(s, [Go(0), Go(0)]).getters ==
            map[0 := Getter(Fast(7), 1, 0, Byte, 0, 16, 7, 0, Some(8), 0x1_0000_0000)]
  {
    var es := [Go(0), Go(0)];
    assert Raw(s.mem, 17, 0) == Some(0) && Raw(s.mem, 33, 0) == Some(0);
    assert Load(s.mem, 16, Byte) == Some(7) && Load(s.mem, 32, Byte) == Some(8);
    var s1 := Apply(s, Go(0));
    assert s1.getters[0] == Getter(HasField, 1, 0, Byte, 0, 16, 7, 0, Some(8), 0);
    var s2 := Apply(s1, Go(0));
    assert IsRun(s2, es[2..]) && Final(s2, es[2..]) == s2;
    OneStep(s1, es, 1);
    OneStep(s, es, 0);
    assert es[0..] == es;
  }

  /** A run in which call t, with at most d increments of the counter between its two loads, returns
      something else than the field's value. */
  ghost predicate Stale(s: State, es: seq<Step>, t: nat, d: nat) {
    && s.getters == map[] && IsRun(s, es) && t in Final(s, es).getters
    && var g := Final(s, es).getters[t];
       g.pc.Fast? && g.finish - g.start <= d && g.truth != Some(g.pc.v)
  }

  /** There is one just if 2^32 increments are allowed. */
  lemma StaleIffWrapped(d: nat)
    ensures (exists s: State, es: seq<Step>, t: nat :: Stale(s, es, t, d)) <==> d >= 0x1_0000_0000
  {
    if d >= 0x1_0000_0000 {
      var n := 0x7FFF_FFFF;
      CounterWraps(n);
      assert Stale(State(0, map[16 := 7], map[1 := 16], map[]), MoveMeanwhile() + Idle(n) + [Go(0), Go(0)], 0, d);
    } else {
      forall s: State, es: seq<Step>, t: nat ensures !Stale(s, es, t, d) {
        if s.getters == map[] && IsRun(s, es) && t in Final(s, es).getters && Final(s, es).getters[t].pc.Fast? {
          FastIsTrue(s, es, t);
        }
      }
    }
  }

  // ----- The fault handler's table

  /** speculative_load_pclist, slowcase_entry_pclist and count. */
  class PcLists {
    var loads: seq<int>
    var slows: seq<int>

    predicate Valid()
      reads this
    {
      |loads| == |slows| && forall i, j | 0 <= i < j < |loads| :: loads[i] != loads[j]
    }

    constructor ()
      ensures Valid() && loads == []
    {
      loads, slows := [], [];
    }

    /** What generating a getter records: its speculative load and its slow case. */
    method Record(load: int, slow: int)
      requires Valid() && load !in loads
      modifies this
      ensures Valid() && loads == old(loads) + [load] && slows == old(slows) + [slow]
    {
      loads, slows := loads + [load], slows + [slow];
    }

    /** find_slowcase_pc: a fault at a getter's speculative load resumes at that getter's slow case. */
    method FindSlowcasePc(pc: int) returns (slow: int)
      requires Valid()
      ensures forall i | 0 <= i < |loads| :: loads[i] == pc ==> slow == slows[i]
      ensures pc !in loads ==> slow == -1
    {
      var i := 0;
      while i < |loads|
        invariant 0 <= i <= |loads| && forall j | 0 <= j < i :: loads[j] != pc
      {
        if loads[i] == pc { return slows[i]; }
        i := i + 1;
      }
      return -1;
    }
  }
}
