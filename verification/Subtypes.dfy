/** Fast subtype checks: the tables of share/vm/oops (klass.cpp, initialize_supers, and
    compute_secondary_supers of instanceKlass.cpp, arrayKlass.cpp and objArrayKlass.cpp), and the code
    that consults them (interp_masm_amd64.cpp, gen_subtype_check), against the subtype relation of
    classes, interfaces and arrays of any dimension. */
module Subtypes {
  import opened Options

  /** A class or interface; types are numbered in the order they are loaded, 0 is Object. */
  datatype Class = Class(isInterface: bool, super: Option<nat>, locals: seq<nat>)

  /** Klass::primary_super_limit(). */
  const LIMIT: nat := 8

  predicate Hierarchy(h: seq<Class>) {
    && h != [] && h[0] == Class(false, None, [])
    && forall k | 1 <= k < |h| :: ClassOk(h, k)
  }

  predicate ClassOk(h: seq<Class>, k: nat)
    requires 1 <= k < |h|
  {
    && h[k].super.Some? && h[k].super.value < k && !h[h[k].super.value].isInterface
    && (h[k].isInterface ==> h[k].super == Some(0))
    && forall i | 0 <= i < |h[k].locals| :: h[k].locals[i] < k && h[h[k].locals[i]].isInterface
  }

  // ----- The subtype relation

  /** k is s, or its superclass or one of its interfaces is a subtype of s. */
  predicate Sub(h: seq<Class>, k: nat, s: nat)
    requires Hierarchy(h) && k < |h|
    decreases k, |h[k].locals| + 1
  {
    k == s || (k > 0 && (assert ClassOk(h, k); Sub(h, h[k].super.value, s) || SubLocal(h, k, |h[k].locals|, s)))
  }

  /** One of the first n interfaces that k names is a subtype of s. */
  predicate SubLocal(h: seq<Class>, k: nat, n: nat, s: nat)
    requires Hierarchy(h) && 0 < k < |h| && n <= |h[k].locals|
    decreases k, n
  {
    assert ClassOk(h, k);
    n > 0 && (SubLocal(h, k, n - 1, s) || Sub(h, h[k].locals[n - 1], s))
  }

  // ----- Types with arrays

  /** A class, an array of a primitive type, or an array of references. */
  datatype Type = Cls(k: nat) | Prim(p: nat) | Arr(elem: Type)

  /** The loaded classes, and which of them are Cloneable and Serializable. */
  datatype World = World(h: seq<Class>, cloneable: nat, serializable: nat) {
    predicate Ok() {
      && Hierarchy(h) && cloneable < |h| && serializable < |h|
      && h[cloneable].isInterface && h[cloneable].locals == []
      && h[serializable].isInterface && h[serializable].locals == []
    }

    predicate Has(t: Type) {
      match t
      case Cls(k) => k < |h|
      case Prim(_) => true
      case Arr(e) => Has(e)
    }

    /** What every array is, besides itself. */
    predicate AboveArrays(k: nat) { k == 0 || k == cloneable || k == serializable }
  }

  /** The subtype relation of the Java Virtual Machine Specification (checkcast, section 6.5). */
  predicate SubType(w: World, t: Type, s: Type)
    requires w.Ok() && w.Has(t) && w.Has(s)
  {
    match (t, s)
    case (Cls(k), Cls(j)) => Sub(w.h, k, j)
    case (Prim(p), Prim(q)) => p == q
    case (Prim(_), Cls(j)) => w.AboveArrays(j)
    case (Arr(_), Cls(j)) => w.AboveArrays(j)
    case (Arr(e), Arr(f)) => SubType(w, e, f)
    case _ => false
  }

  // ----- The tables

  function Height(t: Type): (n: nat) {
    match t case Cls(k) => k case Prim(_) => 1 case Arr(e) => Height(e) + 1
  }

  /** super(): that of an array of references is the array of its element's super, or Object. */
  function Super(w: World, t: Type): (s: Option<Type>)
    requires w.Ok() && w.Has(t)
    ensures s.Some? ==> w.Has(s.value) && Height(s.value) < Height(t)
    ensures s.None? <==> t == Cls(0)
  {
    match t
    case Cls(k) => if k == 0 then None else assert ClassOk(w.h, k); Some(Cls(w.h[k].super.value))
    case Prim(_) => Some(Cls(0))
    case Arr(e) => var above := Super(w, e); if above.None? then Some(Cls(0)) else Some(Arr(above.value))
  }

  /** bottom_klass(). */
  function Bottom(t: Type): (b: Type)
    ensures !b.Arr? && (t.Arr? ==> Height(b) < Height(t))
  {
    if t.Arr? then Bottom(t.elem) else t
  }

  lemma BottomIsHad(w: World, t: Type)
    requires w.Has(t)
    ensures w.Has(Bottom(t))
  {
  }

  /** super_depth(): LIMIT for what cannot be a primary super. */
  function Depth(w: World, t: Type): (d: nat)
    requires w.Ok() && w.Has(t)
    ensures d <= LIMIT
    decreases Height(t)
  {
    var above := Super(w, t);
    if above.None? then 0
    else if t.Cls? && w.h[t.k].isInterface then LIMIT
    else if t.Arr? && (BottomIsHad(w, t); Depth(w, Bottom(t)) == LIMIT) then LIMIT
    else if Depth(w, above.value) >= LIMIT - 1 then LIMIT
    else Depth(w, above.value) + 1
  }

  predicate Primary(w: World, t: Type)
    requires w.Ok() && w.Has(t)
  {
    Depth(w, t) < LIMIT
  }

  /** _primary_supers: a copy of the super's, and this type itself at its depth. */
  function Display(w: World, t: Type): (d: seq<Option<Type>>)
    requires w.Ok() && w.Has(t)
    ensures |d| == LIMIT
    decreases Height(t)
  {
    var above := Super(w, t);
    if above.None? then [Some(t)] + seq(LIMIT - 1, _ => None)
    else
      var d := Display(w, above.value);
      if Primary(w, t) then d[..Depth(w, t)] + [Some(t)] + seq(LIMIT - 1 - Depth(w, t), _ => None) else d
  }

  /** The supers that overflow the display, nearest first. */
  function Extras(w: World, t: Type): (e: seq<Type>)
    requires w.Ok() && w.Has(t)
    ensures forall i | 0 <= i < |e| :: w.Has(e[i])
    decreases Height(t)
  {
    var above := Super(w, t);
    if above.None? || Primary(w, above.value) then [] else [above.value] + Extras(w, above.value)
  }

  /** transitive_interfaces(). */
  function Interfaces(h: seq<Class>, k: nat): (e: seq<nat>)
    requires Hierarchy(h) && k < |h|
    decreases k, |h[k].locals| + 1
  {
    if k == 0 then [] else assert ClassOk(h, k); Interfaces(h, h[k].super.value) + LocalInterfaces(h, k, |h[k].locals|)
  }

  function LocalInterfaces(h: seq<Class>, k: nat, n: nat): (e: seq<nat>)
    requires Hierarchy(h) && 0 < k < |h| && n <= |h[k].locals|
    decreases k, n
  {
    assert ClassOk(h, k);
    if n == 0 then [] else LocalInterfaces(h, k, n - 1) + [h[k].locals[n - 1]] + Interfaces(h, h[k].locals[n - 1])
  }

  function Classes(ks: seq<nat>): (ts: seq<Type>) { seq(|ks|, i requires 0 <= i < |ks| => Cls(ks[i])) }

  function Arrays(es: seq<Type>): (ts: seq<Type>) { seq(|es|, i requires 0 <= i < |es| => Arr(es[i])) }

  /** compute_secondary_supers() of instance, primitive array and object array classes. */
  function Computed(w: World, t: Type): (e: seq<Type>)
    requires w.Ok() && w.Has(t)
    decreases t, 0
  {
    match t
    case Cls(k) => Classes(Interfaces(w.h, k))
    case Prim(_) => [Cls(w.cloneable), Cls(w.serializable)]
    case Arr(e) => [Cls(w.cloneable), Cls(w.serializable)] + Arrays(Secondaries(w, e))
  }

  /** The overflowing supers that are no duplicates, nearest last. */
  function Kept(extras: seq<Type>, computed: seq<Type>): (e: seq<Type>)
    ensures |e| <= |extras|
  {
    if extras == [] then []
    else Kept(extras[1..], computed) + if extras[0] in computed then [] else [extras[0]]
  }

  /** _secondary_supers. */
  function Secondaries(w: World, t: Type): (e: seq<Type>)
    requires w.Ok() && w.Has(t)
    decreases t, 1
  {
    Kept(Extras(w, t), Computed(w, t)) + Computed(w, t)
  }

  // ----- What the tables mean

  /** A supertype was loaded before. */
  lemma {:induction false} SubIsOlder(h: seq<Class>, k: nat, s: nat)
    requires Hierarchy(h) && k < |h| && Sub(h, k, s)
    ensures s <= k
    decreases k, |h[k].locals| + 1
  {
    if k != s {
      assert ClassOk(h, k);
      if Sub(h, h[k].super.value, s) { SubIsOlder(h, h[k].super.value, s); } else { SubLocalIsOlder(h, k, |h[k].locals|, s); }
    }
  }

  lemma {:induction false} SubLocalIsOlder(h: seq<Class>, k: nat, n: nat, s: nat)
    requires Hierarchy(h) && 0 < k < |h| && n <= |h[k].locals| && SubLocal(h, k, n, s)
    ensures s <= k
    decreases k, n
  {
    assert ClassOk(h, k);
    if Sub(h, h[k].locals[n - 1], s) { SubIsOlder(h, h[k].locals[n - 1], s); } else { SubLocalIsOlder(h, k, n - 1, s); }
  }

  /** The only class that an interface is a subtype of is Object. */
  lemma {:induction false} ClassesAboveInterface(h: seq<Class>, k: nat, s: nat)
    requires Hierarchy(h) && k < |h| && h[k].isInterface && Sub(h, k, s) && s < |h| && !h[s].isInterface
    ensures s == 0
    decreases k, |h[k].locals| + 1
  {
    assert k > 0 && ClassOk(h, k);
    if Sub(h, 0, s) { } else { ClassesAboveLocal(h, k, |h[k].locals|, s); }
  }

  lemma {:induction false} ClassesAboveLocal(h: seq<Class>, k: nat, n: nat, s: nat)
    requires Hierarchy(h) && 0 < k < |h| && n <= |h[k].locals| && SubLocal(h, k, n, s) && s < |h| && !h[s].isInterface
    ensures s == 0
    decreases k, n
  {
    assert ClassOk(h, k);
    if Sub(h, h[k].locals[n - 1], s) { ClassesAboveInterface(h, h[k].locals[n - 1], s); } else { ClassesAboveLocal(h, k, n - 1, s); }
  }

  lemma {:induction false} EverythingIsObject(h: seq<Class>, k: nat)
    requires Hierarchy(h) && k < |h|
    ensures Sub(h, k, 0)
  {
    if k > 0 {
      assert ClassOk(h, k);
      EverythingIsObject(h, h[k].super.value);
    }
  }

  /** A class is a subtype of another class just through its superclass. */
  lemma ClassSub(h: seq<Class>, k: nat, s: nat)
    requires Hierarchy(h) && 0 < k < |h| && s < |h| && !h[s].isInterface && k != s
    ensures h[k].super.Some? && h[k].super.value < k && (Sub(h, k, s) <==> Sub(h, h[k].super.value, s))
  {
    assert ClassOk(h, k);
    if SubLocal(h, k, |h[k].locals|, s) {
      ClassesAboveLocal(h, k, |h[k].locals|, s);
      EverythingIsObject(h, h[k].super.value);
    }
  }

  /** Not an interface, and not an array of interfaces of any dimension. */
  predicate ClassLike(w: World, t: Type)
    requires w.Ok() && w.Has(t)
  {
    BottomIsHad(w, t);
    Bottom(t).Cls? ==> !w.h[Bottom(t).k].isInterface
  }

  lemma PrimaryIsClassLike(w: World, t: Type)
    requires w.Ok() && w.Has(t) && Primary(w, t)
    ensures ClassLike(w, t)
    decreases Height(t)
  {
    BottomIsHad(w, t);
    if t.Arr? { PrimaryIsClassLike(w, Bottom(t)); }
  }

  lemma {:induction false} SuperIsClassLike(w: World, t: Type)
    requires w.Ok() && w.Has(t) && Super(w, t).Some?
    ensures ClassLike(w, Super(w, t).value)
  {
    match t
    case Cls(k) => assert ClassOk(w.h, k);
    case Prim(_) =>
    case Arr(e) =>
      if Super(w, e).Some? { SuperIsClassLike(w, e); }
  }

  /** A type is a subtype of another one that is no interface just through its super. */
  lemma {:induction false} SuperSub(w: World, t: Type, s: Type)
    requires w.Ok() && w.Has(t) && w.Has(s) && ClassLike(w, s) && t != s
    ensures SubType(w, t, s) <==> Super(w, t).Some? && SubType(w, Super(w, t).value, s)
  {
    match (t, s)
    case (Cls(k), Cls(j)) => if k > 0 { ClassSub(w.h, k, j); }
    case (Arr(e), Arr(f)) => SuperSub(w, e, f);
    case _ =>
  }

  /** A super of a primary type is less deep. */
  lemma {:induction false} DeeperIsNoSuper(w: World, t: Type, s: Type)
    requires w.Ok() && w.Has(t) && w.Has(s) && ClassLike(w, s) && Primary(w, t) && Depth(w, s) > Depth(w, t)
    ensures !SubType(w, t, s)
    decreases Height(t)
  {
    SuperSub(w, t, s);
    if Super(w, t).Some? { DeeperIsNoSuper(w, Super(w, t).value, s); }
  }

  lemma DisplayAt(w: World, t: Type, d: nat)
    requires w.Ok() && w.Has(t) && Super(w, t).Some? && d < LIMIT
    ensures var p := Super(w, t).value;
            && (Primary(w, t) ==> Depth(w, t) == Depth(w, p) + 1)
            && Display(w, t)[d] ==
               if !Primary(w, t) || d < Depth(w, t) then Display(w, p)[d]
               else if d == Depth(w, t) then Some(t) else None
  {
  }

  /** The display of a type, at another type's depth, is that of its super. */
  lemma DisplayOfSuper(w: World, t: Type, s: Type)
    requires w.Ok() && w.Has(t) && w.Has(s) && Primary(w, s) && ClassLike(w, s) && t != s && Super(w, t).Some?
    requires var p := Super(w, t).value; Display(w, p)[Depth(w, s)] == Some(s) <==> SubType(w, p, s)
    ensures Display(w, t)[Depth(w, s)] == Some(s) <==> SubType(w, Super(w, t).value, s)
  {
    var p := Super(w, t).value;
    DisplayAt(w, t, Depth(w, s));
    if Primary(w, t) && Depth(w, s) >= Depth(w, t) {
      DeeperIsNoSuper(w, p, s);
    }
  }

  /** The display holds just the primary supers, each at its depth. */
  lemma {:induction false} DisplayMeans(w: World, t: Type, s: Type)
    requires w.Ok() && w.Has(t) && w.Has(s) && Primary(w, s)
    ensures Display(w, t)[Depth(w, s)] == Some(s) <==> SubType(w, t, s)
    decreases Height(t)
  {
    PrimaryIsClassLike(w, s);
    if t == s {
      Reflexive(w, t);
    } else {
      SuperSub(w, t, s);
      if Super(w, t).Some? {
        DisplayMeans(w, Super(w, t).value, s);
        DisplayOfSuper(w, t, s);
      }
    }
  }

  lemma {:induction false} Reflexive(w: World, t: Type)
    requires w.Ok() && w.Has(t)
    ensures SubType(w, t, t)
  {
    if t.Arr? { Reflexive(w, t.elem); }
  }

  /** The overflowing supers are just the supers that are not primary. */
  lemma {:induction false} ExtrasMean(w: World, t: Type, s: Type)
    requires w.Ok() && w.Has(t) && w.Has(s) && ClassLike(w, s) && !Primary(w, s) && s != t
    ensures s in Extras(w, t) <==> SubType(w, t, s)
    decreases Height(t)
  {
    SuperSub(w, t, s);
    if Super(w, t).Some? {
      var p := Super(w, t).value;
      if Primary(w, p) {
        DeeperIsNoSuper(w, p, s);
      } else if p == s {
        Reflexive(w, p);
      } else {
        ExtrasMean(w, p, s);
      }
    }
  }

  lemma {:induction false} ExtrasAreSupers(w: World, t: Type, s: Type)
    requires w.Ok() && w.Has(t) && s in Extras(w, t)
    ensures w.Has(s) && ClassLike(w, s) && !Primary(w, s) && Height(s) < Height(t)
    decreases Height(t)
  {
    var p := Super(w, t).value;
    SuperIsClassLike(w, t);
    if s != p { ExtrasAreSupers(w, p, s); }
  }

  /** The transitive interfaces are just the interfaces above. */
  lemma {:induction false} InterfacesMean(h: seq<Class>, k: nat, s: nat)
    requires Hierarchy(h) && k < |h|
    ensures s in Interfaces(h, k) <==> s < |h| && h[s].isInterface && s != k && Sub(h, k, s)
    decreases k, |h[k].locals| + 1
  {
    if k > 0 {
      assert ClassOk(h, k);
      InterfacesMean(h, h[k].super.value, s);
      LocalInterfacesMean(h, k, |h[k].locals|, s);
    }
  }

  lemma {:induction false} LocalInterfacesMean(h: seq<Class>, k: nat, n: nat, s: nat)
    requires Hierarchy(h) && 0 < k < |h| && n <= |h[k].locals|
    ensures s in LocalInterfaces(h, k, n) <==> s < |h| && h[s].isInterface && s != k && SubLocal(h, k, n, s)
    decreases k, n
  {
    if n > 0 {
      assert ClassOk(h, k);
      LocalInterfacesMean(h, k, n - 1, s);
      InterfacesMean(h, h[k].locals[n - 1], s);
      if Sub(h, h[k].locals[n - 1], s) { SubIsOlder(h, h[k].locals[n - 1], s); }
    }
  }

  lemma {:induction false} KeptMeans(extras: seq<Type>, computed: seq<Type>, s: Type)
    ensures s in Kept(extras, computed) <==> s in extras && s !in computed
  {
    if extras != [] {
      KeptMeans(extras[1..], computed, s);
      assert extras == [extras[0]] + extras[1..];
    }
  }

  lemma Members(ks: seq<nat>, es: seq<Type>, s: Type)
    ensures s in Classes(ks) <==> s.Cls? && s.k in ks
    ensures s in Arrays(es) <==> s.Arr? && s.elem in es
  {
    if s.Cls? && s.k in ks {
      var i :| 0 <= i < |ks| && ks[i] == s.k;
      assert Classes(ks)[i] == s;
    }
    if s.Arr? && s.elem in es {
      var i :| 0 <= i < |es| && es[i] == s.elem;
      assert Arrays(es)[i] == s;
    }
  }

  /** What is computed are supertypes, and all that are interfaces or arrays of interfaces. */
  lemma {:induction false} ComputedMean(w: World, t: Type, s: Type)
    requires w.Ok() && w.Has(t)
    ensures s in Computed(w, t) ==> w.Has(s) && SubType(w, t, s)
    ensures w.Has(s) && !ClassLike(w, s) && s != t ==> (s in Computed(w, t) <==> SubType(w, t, s))
    decreases t, 0
  {
    match t
    case Cls(k) =>
      Members(Interfaces(w.h, k), [], s);
      if s.Cls? { InterfacesMean(w.h, k, s.k); }
    case Prim(_) =>
    case Arr(e) =>
      Members([], Secondaries(w, e), s);
      if s.Arr? { SecondariesAreSupers(w, e, s.elem); }
  }

  lemma {:induction false} SecondariesAreSupers(w: World, t: Type, s: Type)
    requires w.Ok() && w.Has(t)
    ensures s in Secondaries(w, t) ==> w.Has(s) && SubType(w, t, s)
    ensures w.Has(s) && !ClassLike(w, s) && s != t ==> (s in Secondaries(w, t) <==> SubType(w, t, s))
    decreases t, 1
  {
    ComputedMean(w, t, s);
    KeptMeans(Extras(w, t), Computed(w, t), s);
    if s in Extras(w, t) {
      ExtrasAreSupers(w, t, s);
      ExtrasMean(w, t, s);
    }
  }

  /** The secondary supers decide for whatever is not primary. */
  lemma SecondariesMean(w: World, t: Type, s: Type)
    requires w.Ok() && w.Has(t) && w.Has(s) && !Primary(w, s) && s != t
    ensures s in Secondaries(w, t) <==> SubType(w, t, s)
  {
    SecondariesAreSupers(w, t, s);
    KeptMeans(Extras(w, t), Computed(w, t), s);
    if ClassLike(w, s) { ExtrasMean(w, t, s); }
  }

  // ----- Filling the secondary supers

  /** The contents of an object array without NULLs. */
  predicate Stored(a: seq<Option<Type>>, ts: seq<Type>) {
    |a| == |ts| && forall i | 0 <= i < |ts| :: a[i] == Some(ts[i])
  }

  /** The part of initialize_supers that makes the secondary supers: it leaves room for the
      overflowing supers, fills it from its end with those that are no duplicates, and packs. */
  method InitializeSecondaries(w: World, t: Type) returns (list: array<Option<Type>>)
    requires w.Ok() && w.Has(t)
    ensures Stored(list[..], Secondaries(w, t))
  {
    var computed := Computed(w, t);
    var extras := CountExtras(w, t);
    list := new Option<Type>[extras + |computed|](i => None);
    for i := 0 to |computed|
      invariant forall j | 0 <= j < i :: list[extras + j] == Some(computed[j])
    {
      list[extras + i] := Some(computed[i]);
    }
    var fillp := FillExtras(w, t, list, extras, computed);
    if fillp > 0 {
      list := Pack(list, fillp);
    }
  }

  method CountExtras(w: World, t: Type) returns (extras: nat)
    requires w.Ok() && w.Has(t)
    ensures extras == |Extras(w, t)|
  {
    extras := 0;
    var p := Super(w, t);
    ghost var q := t;
    while p.Some? && !Primary(w, p.value)
      invariant w.Has(q) && p == Super(w, q) && extras + |Extras(w, q)| == |Extras(w, t)|
      decreases Height(q)
    {
      extras := extras + 1;
      q := p.value;
      p := Super(w, p.value);
    }
  }

  /** The overflowing supers up to q have been dealt with, and those in kept are kept. */
  predicate KeptSoFar(w: World, t: Type, q: Type, computed: seq<Type>, kept: seq<Type>, fillp: nat)
    requires w.Ok() && w.Has(t) && w.Has(q)
  {
    && |Extras(w, q)| <= fillp
    && Kept(Extras(w, t), computed) == Kept(Extras(w, q), computed) + kept
  }

  lemma KeepNext(w: World, t: Type, q: Type, computed: seq<Type>, kept: seq<Type>, fillp: nat)
    requires w.Ok() && w.Has(t) && w.Has(q) && KeptSoFar(w, t, q, computed, kept, fillp)
    requires Super(w, q).Some? && !Primary(w, Super(w, q).value)
    ensures var p := Super(w, q).value;
            var one := if p in computed then [] else [p];
            fillp > 0 && KeptSoFar(w, t, p, computed, one + kept, fillp - |one|)
  {
    KeptStep(Extras(w, q), computed, kept);
  }

  lemma KeptStep(extras: seq<Type>, computed: seq<Type>, kept: seq<Type>)
    requires extras != []
    ensures var one := if extras[0] in computed then [] else [extras[0]];
            Kept(extras, computed) + kept == Kept(extras[1..], computed) + (one + kept)
  {
  }

  method FillExtras(w: World, t: Type, list: array<Option<Type>>, extras: nat, computed: seq<Type>)
    returns (fillp: nat)
    requires w.Ok() && w.Has(t)
    requires extras == |Extras(w, t)| && list.Length == extras + |computed|
    requires Stored(list[extras..], computed)
    modifies list
    ensures fillp <= extras && Stored(list[fillp..], Kept(Extras(w, t), computed) + computed)
  {
    fillp := extras;
    var p := Super(w, t);
    ghost var q, kept := t, [];
    while p.Some? && !Primary(w, p.value)
      invariant w.Has(q) && p == Super(w, q) && KeptSoFar(w, t, q, computed, kept, fillp)
      invariant fillp + |kept| == extras && Stored(list[fillp..], kept + computed)
      decreases Height(q)
    {
      KeepNext(w, t, q, computed, kept, fillp);
      fillp, kept := FillOne(list, extras, computed, p.value, fillp, kept);
      q := p.value;
      p := Super(w, p.value);
    }
    assert Kept(Extras(w, t), computed) == kept;
  }

  /** Stores an overflowing super in front of the others, unless it is a duplicate. */
  method FillOne(list: array<Option<Type>>, extras: nat, computed: seq<Type>, p: Type, fillp: nat, ghost kept: seq<Type>)
    returns (now: nat, ghost more: seq<Type>)
    requires 0 < fillp && fillp + |kept| == extras && list.Length == extras + |computed|
    requires Stored(list[fillp..], kept + computed)
    modifies list
    ensures more == (if p in computed then [] else [p]) + kept
    ensures now + |more| == extras && Stored(list[now..], more + computed)
  {
    var dup := IsComputed(list, extras, computed, p, fillp, kept);
    if dup { return fillp, kept; }
    Store(list, fillp, p, kept + computed);
    assert [p] + (kept + computed) == ([p] + kept) + computed;
    return fillp - 1, [p] + kept;
  }

  /** --fillp, and the store there. */
  method Store(list: array<Option<Type>>, fillp: nat, p: Type, ghost behind: seq<Type>)
    requires 0 < fillp <= list.Length && Stored(list[fillp..], behind)
    modifies list
    ensures Stored(list[fillp - 1..], [p] + behind)
  {
    list[fillp - 1] := Some(p);
    assert list[fillp - 1..] == [Some(p)] + list[fillp..];
  }

  /** Scans the computed ones for a duplicate. */
  method IsComputed(list: array<Option<Type>>, extras: nat, computed: seq<Type>, p: Type, ghost fillp: nat, ghost kept: seq<Type>)
    returns (dup: bool)
    requires fillp + |kept| == extras && list.Length == extras + |computed|
    requires Stored(list[fillp..], kept + computed)
    ensures dup <==> p in computed
  {
    forall i | 0 <= i < |computed| ensures list[extras + i] == Some(computed[i]) {
      assert list[fillp..][|kept| + i] == Some((kept + computed)[|kept| + i]);
    }
    var i := extras;
    while i < list.Length && list[i] != Some(p)
      invariant extras <= i <= list.Length && forall j | 0 <= j < i - extras :: computed[j] != p
    {
      i := i + 1;
    }
    dup := i < list.Length;
  }

  method Pack(list: array<Option<Type>>, fillp: nat) returns (packed: array<Option<Type>>)
    requires fillp <= list.Length
    ensures packed[..] == list[fillp..]
  {
    packed := new Option<Type>[list.Length - fillp](i => None);
    for i := 0 to packed.Length
      invariant forall j | 0 <= j < i :: packed[j] == list[j + fillp]
    {
      packed[i] := list[i + fillp];
    }
  }
}
