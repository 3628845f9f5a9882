/** The subtype test of kjvm/trunk/core/vmsupport.c. Classes are indices into a hierarchy. */
module Subtyping {
  import opened Pointers

  datatype Kind = Class | Interface | Primitive | Array(element: nat)

  datatype ClassDesc = ClassDesc(kind: Kind, superclass: int, interfaces: seq<nat>)

  type Hierarchy = seq<ClassDesc>

  /** Superclasses, interfaces and element classes have smaller ranks: the hierarchy has no cycle. */
  ghost predicate Acyclic(h: Hierarchy, rank: seq<nat>) {
    && |rank| == |h|
    && forall c :: 0 <= c < |h| ==> Below(h, rank, c)
  }

  ghost predicate Below(h: Hierarchy, rank: seq<nat>, c: nat)
    requires c < |h| == |rank|
  {
    && (h[c].superclass != NULL ==> 0 <= h[c].superclass < |h| && rank[h[c].superclass] < rank[c])
    && (forall i :: 0 <= i < |h[c].interfaces| ==> h[c].interfaces[i] < |h| && rank[h[c].interfaces[i]] < rank[c])
    && (h[c].kind.Array? ==> h[c].kind.element < |h| && rank[h[c].kind.element] < rank[c])
  }

  /** Every chain of superclasses is one of classes and ends in java.lang.Object. */
  ghost predicate WellFormed(h: Hierarchy, rank: seq<nat>, object': nat) {
    && Acyclic(h, rank) && object' < |h| && h[object'] == ClassDesc(Class, NULL, [])
    && forall c :: 0 <= c < |h| ==> KindOk(h, object', c)
  }

  ghost predicate KindOk(h: Hierarchy, object': nat, c: nat)
    requires c < |h|
  {
    && (forall i :: 0 <= i < |h[c].interfaces| ==> h[c].interfaces[i] < |h| && h[h[c].interfaces[i]].kind == Interface)
    && match h[c].kind
       case Class => c == object' || (0 <= h[c].superclass < |h| && h[h[c].superclass].kind == Class)
       case Interface => h[c].superclass == object'
       case Primitive => h[c].superclass == NULL && h[c].interfaces == []
       case Array(_) => true
  }

  // ------------------------------------------------------------ what the test is about

  /** d is c or above it, by superclass edges. */
  ghost predicate SubclassOf(h: Hierarchy, rank: seq<nat>, c: nat, d: nat)
    requires Acyclic(h, rank) && c < |h|
    decreases if c < |rank| then rank[c] else 0
  {
    assert Below(h, rank, c);
    c == d || (h[c].superclass != NULL && SubclassOf(h, rank, h[c].superclass, d))
  }

  /** d is c or above it, by superclass and interface edges. */
  ghost predicate Reaches(h: Hierarchy, rank: seq<nat>, c: nat, d: nat)
    requires Acyclic(h, rank) && c < |h|
    decreases if c < |rank| then rank[c] else 0
  {
    assert Below(h, rank, c);
    || c == d
    || (h[c].superclass != NULL && Reaches(h, rank, h[c].superclass, d))
    || (exists i :: 0 <= i < |h[c].interfaces| && Reaches(h, rank, h[c].interfaces[i], d))
  }

  /** A value of class s may be assigned to a variable of class t. */
  ghost predicate Assignable(h: Hierarchy, rank: seq<nat>, object': nat, t: nat, s: nat)
    requires Acyclic(h, rank) && s < |h| && t < |h|
    decreases if s < |rank| then rank[s] else 0
  {
    assert Below(h, rank, s) && Below(h, rank, t);
    if t == s then true
    else if h[s].kind.Array? then
      t == object' || (h[t].kind.Array? && Assignable(h, rank, object', h[t].kind.element, h[s].kind.element))
    else SubclassOf(h, rank, s, t) || (h[t].kind == Interface && Reaches(h, rank, s, t))
  }

  // ------------------------------------------------------------ the code

  method IsSubclassOf(h: Hierarchy, ghost rank: seq<nat>, subclass: nat, superclass: nat) returns (r: bool)
    requires Acyclic(h, rank) && subclass < |h|
    ensures r == SubclassOf(h, rank, subclass, superclass)
  {
    if subclass == superclass { return true; }
    var c: int := subclass;
    assert Below(h, rank, subclass);
    c := h[c].superclass;
    while c != NULL
      invariant c == NULL || 0 <= c < |h|
      invariant SubclassOf(h, rank, subclass, superclass) == (c != NULL && SubclassOf(h, rank, c, superclass))
      decreases if c == NULL then 0 else rank[c] + 1
    {
      if c == superclass { return true; }
      assert Below(h, rank, c);
      c := h[c].superclass;
    }
    return false;
  }

  method IsSubinterfaceOf(h: Hierarchy, ghost rank: seq<nat>, subif: nat, superif: nat) returns (r: bool)
    requires Acyclic(h, rank) && subif < |h|
    ensures Below(h, rank, subif)
    ensures r == (subif == superif || (h[subif].superclass != NULL && Reaches(h, rank, h[subif].superclass, superif)))
    decreases if subif < |rank| then rank[subif] else 0, 0
  {
    assert Below(h, rank, subif);
    if subif == superif { return true; }
    var c := h[subif].superclass;
    while c != NULL
      invariant c == NULL || (0 <= c < |h| && rank[c] < rank[subif])
      invariant (h[subif].superclass != NULL && Reaches(h, rank, h[subif].superclass, superif))
                == (c != NULL && Reaches(h, rank, c, superif))
      decreases if c == NULL then 0 else rank[c] + 1
    {
      if c == superif { return true; }
      var found := ImplementsInterface(h, rank, c, superif);
      if found { return true; }
      assert Below(h, rank, c);
      c := h[c].superclass;
    }
    return false;
  }

  method ImplementsInterface(h: Hierarchy, ghost rank: seq<nat>, c: nat, ifa: nat) returns (r: bool)
    requires Acyclic(h, rank) && c < |h|
    ensures r == Reaches(h, rank, c, ifa)
    decreases if c < |rank| then rank[c] else 0, 1
  {
    assert Below(h, rank, c);
    var found := IsSubinterfaceOf(h, rank, c, ifa);
    if found { return true; }
    var i := 0;
    while i < |h[c].interfaces|
      invariant 0 <= i <= |h[c].interfaces|
      invariant forall j :: 0 <= j < i ==> !Reaches(h, rank, h[c].interfaces[j], ifa)
    {
      found := ImplementsInterface(h, rank, h[c].interfaces[i], ifa);
      if found { return true; }
      found := IsSubinterfaceOf(h, rank, h[c].interfaces[i], ifa);
      if found { return true; }
      i := i + 1;
    }
    return false;
  }

  method CheckAssign(h: Hierarchy, ghost rank: seq<nat>, object': nat, variableClass: nat, referenceClass: nat)
    returns (r: bool)
    requires Acyclic(h, rank) && variableClass < |h| && referenceClass < |h|
    ensures r == Assignable(h, rank, object', variableClass, referenceClass)
    decreases if referenceClass < |rank| then rank[referenceClass] else 0
  {
    assert Below(h, rank, referenceClass) && Below(h, rank, variableClass);
    if variableClass == referenceClass { return true; }
    if h[referenceClass].kind.Array? {
      if variableClass == object' { return true; }
      if !h[variableClass].kind.Array? { return false; }
      r := CheckAssign(h, rank, object', h[variableClass].kind.element, h[referenceClass].kind.element);
      return;
    }
    r := IsSubclassOf(h, rank, referenceClass, variableClass);
    if r { return true; }
    if h[variableClass].kind == Interface {
      r := ImplementsInterface(h, rank, referenceClass, variableClass);
    }
  }

  // ------------------------------------------------------------ its laws

  /** Every class is reached from itself, and its superclass and all of its interfaces from it. */
  lemma {:induction false} EdgesReach(h: Hierarchy, rank: seq<nat>, c: nat)
    requires Acyclic(h, rank) && c < |h|
    ensures Reaches(h, rank, c, c) && SubclassOf(h, rank, c, c)
    ensures h[c].superclass != NULL ==>
              && 0 <= h[c].superclass < |h|
              && Reaches(h, rank, c, h[c].superclass) && SubclassOf(h, rank, c, h[c].superclass)
    ensures forall i :: 0 <= i < |h[c].interfaces| ==>
              h[c].interfaces[i] < |h| && Reaches(h, rank, c, h[c].interfaces[i])
  {
    assert Below(h, rank, c);
    if h[c].superclass != NULL { assert Reaches(h, rank, h[c].superclass, h[c].superclass); }
    forall i | 0 <= i < |h[c].interfaces| ensures Reaches(h, rank, c, h[c].interfaces[i]) {
      assert Reaches(h, rank, h[c].interfaces[i], h[c].interfaces[i]);
    }
  }

  /** Nothing else is reached: all of it lies in every set around c that these edges do not leave. */
  lemma {:induction false} ReachesNoMore(h: Hierarchy, rank: seq<nat>, c: nat, d: nat, s: set<nat>)
    requires Acyclic(h, rank) && c < |h| && c in s && Reaches(h, rank, c, d)
    requires forall x :: x in s && x < |h| ==>
               && (h[x].superclass == NULL || (h[x].superclass >= 0 && h[x].superclass in s))
               && forall i :: 0 <= i < |h[x].interfaces| ==> h[x].interfaces[i] in s
    ensures d in s
    decreases if c < |rank| then rank[c] else 0
  {
    assert Below(h, rank, c);
    if c != d {
      if h[c].superclass != NULL && Reaches(h, rank, h[c].superclass, d) {
        ReachesNoMore(h, rank, h[c].superclass, d, s);
      } else {
        var i :| 0 <= i < |h[c].interfaces| && Reaches(h, rank, h[c].interfaces[i], d);
        ReachesNoMore(h, rank, h[c].interfaces[i], d, s);
      }
    }
  }

  lemma {:induction false} SubclassNoMore(h: Hierarchy, rank: seq<nat>, c: nat, d: nat, s: set<nat>)
    requires Acyclic(h, rank) && c < |h| && c in s && SubclassOf(h, rank, c, d)
    requires forall x :: x in s && x < |h| ==>
               h[x].superclass == NULL || (h[x].superclass >= 0 && h[x].superclass in s)
    ensures d in s
    decreases if c < |rank| then rank[c] else 0
  {
    assert Below(h, rank, c);
    if c != d { SubclassNoMore(h, rank, h[c].superclass, d, s); }
  }

  lemma {:induction false} SubclassTransitive(h: Hierarchy, rank: seq<nat>, a: nat, b: nat, c: nat)
    requires Acyclic(h, rank) && a < |h| && b < |h| && SubclassOf(h, rank, a, b) && SubclassOf(h, rank, b, c)
    ensures SubclassOf(h, rank, a, c)
    decreases if a < |rank| then rank[a] else 0
  {
    assert Below(h, rank, a);
    if a != b { SubclassTransitive(h, rank, h[a].superclass, b, c); }
  }

  lemma {:induction false} SubclassReaches(h: Hierarchy, rank: seq<nat>, c: nat, d: nat)
    requires Acyclic(h, rank) && c < |h| && SubclassOf(h, rank, c, d)
    ensures Reaches(h, rank, c, d)
    decreases if c < |rank| then rank[c] else 0
  {
    assert Below(h, rank, c);
    if c != d { SubclassReaches(h, rank, h[c].superclass, d); }
  }

  lemma {:induction false} ReachesTransitive(h: Hierarchy, rank: seq<nat>, a: nat, b: nat, c: nat)
    requires Acyclic(h, rank) && a < |h| && b < |h| && Reaches(h, rank, a, b) && Reaches(h, rank, b, c)
    ensures Reaches(h, rank, a, c)
    decreases if a < |rank| then rank[a] else 0
  {
    assert Below(h, rank, a);
    if a != b {
      if h[a].superclass != NULL && Reaches(h, rank, h[a].superclass, b) {
        ReachesTransitive(h, rank, h[a].superclass, b, c);
      } else {
        var i :| 0 <= i < |h[a].interfaces| && Reaches(h, rank, h[a].interfaces[i], b);
        ReachesTransitive(h, rank, h[a].interfaces[i], b, c);
      }
    }
  }

  /** Above a class or an interface there are only classes and interfaces, above an interface no
      class but Object; and every one of them has Object above it. */
  lemma {:induction false} AboveIs(h: Hierarchy, rank: seq<nat>, object': nat, c: nat, d: nat)
    requires WellFormed(h, rank, object') && c < |h| && d < |h| && Reaches(h, rank, c, d)
    requires h[c].kind == Class || h[c].kind == Interface
    ensures h[d].kind == Class || h[d].kind == Interface
    ensures h[d].kind == Class ==> SubclassOf(h, rank, c, d) || d == object'
    ensures SubclassOf(h, rank, c, object')
    decreases rank[c]
  {
    assert Below(h, rank, c) && KindOk(h, object', c);
    if h[c].superclass != NULL { AboveIs(h, rank, object', h[c].superclass, h[c].superclass); }
    if c != d {
      if h[c].superclass != NULL && Reaches(h, rank, h[c].superclass, d) {
        AboveIs(h, rank, object', h[c].superclass, d);
      } else {
        var i :| 0 <= i < |h[c].interfaces| && Reaches(h, rank, h[c].interfaces[i], d);
        AboveIs(h, rank, object', h[c].interfaces[i], d);
        if h[d].kind == Class && SubclassOf(h, rank, h[c].interfaces[i], d) {
          InterfaceChain(h, rank, object', h[c].interfaces[i], d);
        }
      }
    }
  }

  lemma {:induction false} InterfaceChain(h: Hierarchy, rank: seq<nat>, object': nat, c: nat, d: nat)
    requires WellFormed(h, rank, object') && c < |h| && d < |h| && h[c].kind == Interface && h[d].kind == Class
    requires SubclassOf(h, rank, c, d)
    ensures d == object'
  {
    assert Below(h, rank, c) && KindOk(h, object', c) && Below(h, rank, object');
  }

  /** For classes and interfaces the test is reachability. */
  lemma {:induction false} AssignableIsReachable(h: Hierarchy, rank: seq<nat>, object': nat, t: nat, s: nat)
    requires WellFormed(h, rank, object') && s < |h| && t < |h| && (h[s].kind == Class || h[s].kind == Interface)
    ensures Assignable(h, rank, object', t, s) <==> Reaches(h, rank, s, t)
  {
    if SubclassOf(h, rank, s, t) {
      SubclassReaches(h, rank, s, t);
    } else if Reaches(h, rank, s, t) {
      AboveIs(h, rank, object', s, t);
    }
    assert s == t ==> Reaches(h, rank, s, t);
  }

  lemma {:induction false} AssignableReflexive(h: Hierarchy, rank: seq<nat>, object': nat, t: nat)
    requires Acyclic(h, rank) && t < |h|
    ensures Assignable(h, rank, object', t, t)
  {
  }

  lemma {:induction false} AssignableTransitive(h: Hierarchy, rank: seq<nat>, object': nat, a: nat, b: nat, c: nat)
    requires WellFormed(h, rank, object') && a < |h| && b < |h| && c < |h|
    requires Assignable(h, rank, object', a, b) && Assignable(h, rank, object', b, c)
    ensures Assignable(h, rank, object', a, c)
    decreases rank[c]
  {
    assert Below(h, rank, a) && Below(h, rank, b) && Below(h, rank, c);
    if a == b || b == c {
    } else if h[c].kind.Array? {
      if b == object' {
        AssignableIsReachable(h, rank, object', a, b);
      } else if a != object' {
        AssignableTransitive(h, rank, object', h[a].kind.element, h[b].kind.element, h[c].kind.element);
      }
    } else {
      assert KindOk(h, object', c);
      if h[c].kind != Primitive {
        AssignableIsReachable(h, rank, object', b, c);
        AboveIs(h, rank, object', c, b);
        AssignableIsReachable(h, rank, object', a, b);
        ReachesTransitive(h, rank, c, b, a);
        AssignableIsReachable(h, rank, object', a, c);
      }
    }
  }

  // ------------------------------------------------------------ the rules of the specification

  /** The rules of checkcast in section 6.5 of the Java Virtual Machine Specification, for casting a
      value of class s to class t; arrays implement the interfaces `ofArrays`. */
  ghost predicate Castable(h: Hierarchy, rank: seq<nat>, object': nat, ofArrays: set<nat>, t: nat, s: nat)
    requires Acyclic(h, rank) && s < |h| && t < |h|
    decreases if s < |rank| then rank[s] else 0
  {
    assert Below(h, rank, s) && Below(h, rank, t);
    match h[s].kind
    case Class => if h[t].kind == Interface then Reaches(h, rank, s, t) else SubclassOf(h, rank, s, t)
    case Interface => if h[t].kind == Interface then Reaches(h, rank, s, t) else t == object'
    case Primitive => t == s
    case Array(e) =>
      match h[t].kind
      case Array(f) => t == s || Castable(h, rank, object', ofArrays, f, e)
      case Interface => t in ofArrays
      case _ => t == object'
  }

  /** Below the same number of array dimensions, an array stands against an interface of arrays. */
  ghost predicate ArrayAsInterface(h: Hierarchy, rank: seq<nat>, ofArrays: set<nat>, t: nat, s: nat)
    requires Acyclic(h, rank) && s < |h| && t < |h|
    decreases if s < |rank| then rank[s] else 0
  {
    assert Below(h, rank, s) && Below(h, rank, t);
    && t != s && h[s].kind.Array?
    && match h[t].kind
       case Array(f) => ArrayAsInterface(h, rank, ofArrays, f, h[s].kind.element)
       case Interface => t in ofArrays
       case _ => false
  }

  /** The test follows these rules but for the interfaces of arrays, which it does not know. */
  lemma {:induction false} AgreesWithSpecification(h: Hierarchy, rank: seq<nat>, object': nat, ofArrays: set<nat>,
                                                   t: nat, s: nat)
    requires WellFormed(h, rank, object') && s < |h| && t < |h|
    ensures (Assignable(h, rank, object', t, s) <==> Castable(h, rank, object', ofArrays, t, s))
            <==> !ArrayAsInterface(h, rank, ofArrays, t, s)
    decreases rank[s]
  {
    assert Below(h, rank, s) && Below(h, rank, t) && KindOk(h, object', s);
    if h[s].kind.Array? {
      if t != s && h[t].kind.Array? {
        AgreesWithSpecification(h, rank, object', ofArrays, h[t].kind.element, h[s].kind.element);
      }
    } else if h[s].kind == Interface && h[t].kind != Interface {
      AssignableIsReachable(h, rank, object', t, s);
      AboveIs(h, rank, object', s, s);
      if SubclassOf(h, rank, s, t) {
        SubclassReaches(h, rank, s, t);
        AboveIs(h, rank, object', s, t);
        InterfaceChain(h, rank, object', s, t);
      }
    } else if h[s].kind == Class || h[s].kind == Interface {
      AssignableIsReachable(h, rank, object', t, s);
      if h[t].kind != Interface && SubclassOf(h, rank, s, t) { SubclassReaches(h, rank, s, t); }
      assert s == t ==> Reaches(h, rank, s, t) && SubclassOf(h, rank, s, t);
    }
  }

  /** java.lang.Object, an interface of arrays, a primitive type and its arrays. */
  const SAMPLE: Hierarchy := [ClassDesc(Class, NULL, []), ClassDesc(Interface, 0, []),
                              ClassDesc(Primitive, NULL, []), ClassDesc(Array(2), 0, [])]

  /** An array may be cast to the interface, but the test says no. */
  lemma {:induction false} ArrayIsNoCloneable()
    ensures WellFormed(SAMPLE, [0, 1, 0, 1], 0)
    ensures Castable(SAMPLE, [0, 1, 0, 1], 0, {1}, 1, 3) && !Assignable(SAMPLE, [0, 1, 0, 1], 0, 1, 3)
  {
    var h, rank := SAMPLE, [0, 1, 0, 1];
    forall c | 0 <= c < |h| ensures Below(h, rank, c) && KindOk(h, 0, c) {
      assert c == 0 || c == 1 || c == 2 || c == 3;
    }
    assert Acyclic(h, rank);
    assert Below(h, rank, 3) && h[3].kind == Array(2) && h[1].kind == Interface;
  }
}
