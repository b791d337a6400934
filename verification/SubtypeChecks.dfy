/** The subtype check of interp_masm_amd64.cpp (gen_subtype_check), which consults the tables of
    Subtypes and caches its last success in the one word of a class that changes. */
module SubtypeChecks {
  import opened Options
  import opened Subtypes

  /** super_check_offset: a slot of the display, or the cache. */
  datatype Offset = Slot(d: nat) | Cache

  function CheckOffset(w: World, s: Type): (o: Offset)
    requires w.Ok() && w.Has(s)
  {
    if Primary(w, s) then Slot(Depth(w, s)) else Cache
  }

  datatype Pc = Compare | Scan | Update | Done(answer: bool)

  /** A check in progress: Rsub_klass, rax and the next instruction to touch shared memory. */
  datatype Check = Check(sub: Type, sup: Type, pc: Pc)

  /** The one mutable word of every class, where nothing stands for NULL, and the checks of all threads. */
  datatype State = State(cache: map<Type, Type>, checks: seq<Check>)

  /** repne_scan: rcx words are compared until one is equal; Z is what the last comparison left. */
  function RepneScan(words: seq<Type>, rax: Type, z: bool): (r: bool)
    decreases |words|
  {
    if words == [] then z
    else if words[0] == rax then true
    else RepneScan(words[1..], rax, false)
  }

  /** Z ends up set just if the word is there, since the addition in front has cleared it. */
  lemma {:induction false} ScanFinds(words: seq<Type>, rax: Type)
    ensures RepneScan(words, rax, false) <==> rax in words
    decreases |words|
  {
    if words != [] {
      ScanFinds(words[1..], rax);
      assert words == [words[0]] + words[1..];
    }
  }

  datatype Step = Begin(sub: Type, sup: Type) | Go(t: nat)

  predicate Enabled(w: World, s: State, e: Step) {
    match e
    case Begin(sub, sup) => w.Has(sub) && w.Has(sup)
    case Go(t) => t < |s.checks| && !s.checks[t].pc.Done? && w.Has(s.checks[t].sub) && w.Has(s.checks[t].sup)
  }

  /** The word at an offset of a class. */
  function WordAt(w: World, s: State, sub: Type, o: Offset): (x: Option<Type>)
    requires w.Ok() && w.Has(sub)
    requires o.Slot? ==> o.d < LIMIT
  {
    match o
    case Slot(d) => Display(w, sub)[d]
    case Cache => if sub in s.cache then Some(s.cache[sub]) else None
  }

  function Next(w: World, s: State, c: Check): (pc: Pc)
    requires w.Ok() && w.Has(c.sub) && w.Has(c.sup)
  {
    match c.pc
    case Compare =>
      var o := CheckOffset(w, c.sup);
      if WordAt(w, s, c.sub, o) == Some(c.sup) then Done(true)      // immediate positive hit
      else if o != Cache then Done(false)                           // immediate negative hit
      else if c.sub == c.sup then Done(true)
      else Scan
    case Scan => if RepneScan(Secondaries(w, c.sub), c.sup, false) then Update else Done(false)
    case Update => Done(true)
    case Done(b) => Done(b)
  }

  function Apply(w: World, s: State, e: Step): (r: State)
    requires w.Ok() && Enabled(w, s, e)
  {
    match e
    case Begin(sub, sup) => s.(checks := s.checks + [Check(sub, sup, Compare)])
    case Go(t) =>
      var c := s.checks[t];
      State(if c.pc.Update? then s.cache[c.sub := c.sup] else s.cache,
            s.checks[t := c.(pc := Next(w, s, c))])
  }

  // ----- Any history of checks by any threads

  predicate CheckOk(w: World, c: Check)
    requires w.Ok()
  {
    && w.Has(c.sub) && w.Has(c.sup)
    && (c.pc.Scan? ==> !Primary(w, c.sup) && c.sub != c.sup)
    && (c.pc.Update? ==> IsSecondary(w, c.sub, c.sup))
    && (c.pc.Done? ==> (c.pc.answer <==> SubType(w, c.sub, c.sup)))
  }

  predicate IsSecondary(w: World, t: Type, s: Type)
    requires w.Ok()
  {
    w.Has(t) && w.Has(s) && s in Secondaries(w, t) && SubType(w, t, s)
  }

  /** A cache only ever holds a true secondary supertype. */
  predicate CachesOk(w: World, cache: map<Type, Type>)
    requires w.Ok()
  {
    forall t | t in cache :: IsSecondary(w, t, cache[t])
  }

  predicate Inv(w: World, s: State)
    requires w.Ok()
  {
    CachesOk(w, s.cache) && forall t | 0 <= t < |s.checks| :: CheckOk(w, s.checks[t])
  }

  lemma NextIsOk(w: World, s: State, c: Check)
    requires w.Ok() && CachesOk(w, s.cache) && CheckOk(w, c)
    ensures CheckOk(w, c.(pc := Next(w, s, c)))
  {
    ScanFinds(Secondaries(w, c.sub), c.sup);
    if Primary(w, c.sup) {
      DisplayMeans(w, c.sub, c.sup);
    } else if c.sub != c.sup {
      SecondariesMean(w, c.sub, c.sup);
    } else {
      Reflexive(w, c.sub);
    }
  }

  lemma StepKeepsInv(w: World, s: State, e: Step)
    requires w.Ok() && Inv(w, s) && Enabled(w, s, e)
    ensures Inv(w, Apply(w, s, e))
  {
    var r := Apply(w, s, e);
    if e.Go? { NextIsOk(w, s, s.checks[e.t]); }
    forall t | 0 <= t < |r.checks| ensures CheckOk(w, r.checks[t]) {
      if t < |s.checks| { assert CheckOk(w, s.checks[t]); }
    }
  }

  predicate IsRun(w: World, s: State, es: seq<Step>)
    requires w.Ok()
    decreases |es|
  {
    es == [] || (Enabled(w, s, es[0]) && IsRun(w, Apply(w, s, es[0]), es[1..]))
  }

  function Final(w: World, s: State, es: seq<Step>): (r: State)
    requires w.Ok() && IsRun(w, s, es)
    decreases |es|
  {
    if es == [] then s else Final(w, Apply(w, s, es[0]), es[1..])
  }

  lemma {:induction false} RunKeepsInv(w: World, s: State, es: seq<Step>)
    requires w.Ok() && Inv(w, s) && IsRun(w, s, es)
    ensures Inv(w, Final(w, s, es))
    decreases |es|
  {
    if es != [] {
      StepKeepsInv(w, s, es[0]);
      RunKeepsInv(w, Apply(w, s, es[0]), es[1..]);
    }
  }

  /** After any history of checks by any threads, from empty caches: every answer is the subtype
      relation's, and every cache holds a secondary supertype of its class. */
  lemma AnswersAreRight(w: World, s: State, es: seq<Step>)
    requires w.Ok() && s == State(map[], []) && IsRun(w, s, es)
    ensures forall c | c in Final(w, s, es).checks && c.pc.Done? ::
              w.Has(c.sub) && w.Has(c.sup) && (c.pc.answer <==> SubType(w, c.sub, c.sup))
    ensures forall t | t in Final(w, s, es).cache :: IsSecondary(w, t, Final(w, s, es).cache[t])
  {
    RunKeepsInv(w, s, es);
  }
}
