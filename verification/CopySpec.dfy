/** What a copy of an object graph is, when it can be made, and what both copiers of
    kjvm/trunk/core/portal.c need to know about copies in the making. */
module CopySpec {
  import opened ObjectGraph

  /** The restart value 0xffffffff, a panic of the whole system and a thrown exception
      are results beside the reference itself. */
  datatype Outcome = Copied(ref: Ref) | Restart | Panicked | Thrown

  /** What the destination's collector does at an allocation: nothing, for there is memory;
      it runs and finds memory (the heap's epoch changes); it runs and finds too little. */
  datatype Collector = Idle | Freed | Full

  /** Destination memory, or what the collector did instead. */
  datatype Allocation = Allocated(ref: Ref) | Collected | Exhausted

  // ---------------------------------------------------------------- what a copy is

  /** The word that stands for reference w in the destination when objects are copied by f. */
  ghost function Translate(h: Heap, t: Target, f: map<Ref, Ref>, w: Ref): Ref
    requires WellFormed(h, t)
  {
    if w == 0 || w !in h then 0
    else match Treat(t, w, h[w])
      case Reuse(r) => r
      case Duplicate => if w in f then f[w] else 0
      case _ => 0
  }

  ghost function SlotValue(h: Heap, t: Target, f: map<Ref, Ref>, x: Ref, k: nat): Ref
    requires WellFormed(h, t) && x in h && k < |h[x].data|
  {
    if RefSlot(h[x], k) then Translate(h, t, f, h[x].data[k]) else Raw(t, h[x])[k]
  }

  /** Reference w can be translated: copied already, or not in need of copying. */
  ghost predicate Resolved(h: Heap, t: Target, f: map<Ref, Ref>, w: Ref)
    requires WellFormed(h, t)
  {
    w == 0 || (w in h && (w in f || Treat(t, w, h[w]).Reuse?))
  }

  ghost predicate Header(h: Heap, d: Heap, x: Ref, y: Ref) {
    && x in h && y in d
    && d[y].flags == Kind(h[x].flags) && d[y].cls == h[x].cls && |d[y].data| == |h[x].data|
  }

  /** Slots below n of y hold what the copy of x must hold. */
  ghost predicate Filled(h: Heap, t: Target, f: map<Ref, Ref>, d: Heap, x: Ref, y: Ref, n: nat)
    requires WellFormed(h, t)
  {
    && Header(h, d, x, y) && n <= |h[x].data|
    && (forall k :: 0 <= k < n ==> d[y].data[k] == SlotValue(h, t, f, x, k))
    && (forall k :: 0 <= k < n && RefSlot(h[x], k) ==> Resolved(h, t, f, h[x].data[k]))
  }

  ghost predicate Injective(f: map<Ref, Ref>) {
    forall x, y :: x in f && y in f && x != y ==> f[x] != f[y]
  }

  /** The root leads somewhere only when it is itself duplicated. */
  ghost predicate Active(h: Heap, t: Target, root: Ref)
    requires WellFormed(h, t)
  {
    root != 0 && root in h && Treat(t, root, h[root]) == Duplicate
  }

  /** d holds under r a copy of what is reachable from root in h: f pairs every reachable
      object with exactly one new object of the same class and length, references follow f
      (so sharing and cycles are kept), everything else is moved as the copier moves it. */
  ghost predicate IsCopy(h: Heap, t: Target, root: Ref, d: Heap, r: Ref, f: map<Ref, Ref>)
    requires WellFormed(h, t)
  {
    && Injective(f)
    && f.Keys == (if Active(h, t, root) then ReachSet(h, t, root) else {})
    && (forall x :: x in f ==> Filled(h, t, f, d, x, f[x], |h[x].data|))
    && Resolved(h, t, f, root) && r == Translate(h, t, f, root)
  }

  ghost predicate Handled(h: Heap, t: Target, w: Ref)
    requires WellFormed(h, t)
  {
    w != 0 && w in h ==> Treat(t, w, h[w]).Duplicate? || Treat(t, w, h[w]).Reuse?
  }

  /** The references a copier meets from root on are all of a kind it can handle. */
  ghost predicate Supported(h: Heap, t: Target, root: Ref)
    requires WellFormed(h, t)
  {
    forall x, k :: x in ReachSet(h, t, root) && 0 <= k < |h[x].data| && RefSlot(h[x], k) ==>
                     Handled(h, t, h[x].data[k])
  }

  /** Quota and table are large enough for everything reachable, and all of it is supported. */
  ghost predicate Copyable(h: Heap, t: Target, root: Ref, quota: nat, maxCopied: nat)
    requires WellFormed(h, t)
  {
    && Handled(h, t, root)
    && (Active(h, t, root) ==>
          && Supported(h, t, root)
          && SumSizes(h, ReachSet(h, t, root)) <= quota
          && |ReachSet(h, t, root)| <= maxCopied)
  }

  // ---------------------------------------------------------------- when there is no copy

  /** The collector stays idle at the allocations from one number up to another. */
  ghost predicate Quiet(gc: nat -> Collector, from: nat, to: nat) {
    forall n :: from <= n < to ==> gc(n) == Idle
  }

  lemma QuietOn(gc: nat -> Collector, from: nat, to: nat)
    requires Quiet(gc, from, to) && gc(to) == Idle
    ensures Quiet(gc, from, to + 1)
  {
  }

  /** Objects that a copy consists of. */
  ghost function ObjectCount(h: Heap, t: Target, root: Ref): nat
    requires WellFormed(h, t)
  {
    if Active(h, t, root) then |ReachSet(h, t, root)| else 0
  }

  /** What a copy costs of the quota. */
  ghost function Cost(h: Heap, t: Target, root: Ref): nat
    requires WellFormed(h, t)
  {
    if Active(h, t, root) then SumSizes(h, ReachSet(h, t, root)) else 0
  }

  /** A reference that is treated like this is met. */
  ghost predicate Meets(h: Heap, t: Target, root: Ref, what: Treatment)
    requires WellFormed(h, t)
  {
    exists ref :: ref in h && Met(h, t, root, ref) && (ref == root || Active(h, t, root)) &&
                  Treat(t, ref, h[ref]) == what
  }

  /** The graph holds something that no copier knows, or is too large. */
  ghost predicate TooMuch(h: Heap, t: Target, root: Ref, quota: nat, maxCopied: nat)
    requires WellFormed(h, t)
  {
    Meets(h, t, root, Panic) || quota < Cost(h, t, root) || maxCopied < ObjectCount(h, t, root)
  }

  /** The objects of s, the root among them, were paid for. */
  ghost predicate PaidFor(h: Heap, t: Target, root: Ref, s: set<Ref>, quota0: nat, quota: nat)
    requires WellFormed(h, t)
  {
    root in s && s <= ReachSet(h, t, root) && quota + SumSizes(h, s) == quota0
  }

  /** The collector stayed idle up to the last allocation and then did what c says; every
      allocation was for another object. */
  ghost predicate Stopped(h: Heap, t: Target, root: Ref, quota0: nat, gc: nat -> Collector, a0: nat, c: Collector,
                          quota: nat, a: nat)
    requires WellFormed(h, t)
  {
    && Active(h, t, root) && a0 < a && Quiet(gc, a0, a - 1) && gc(a - 1) == c
    && exists s :: PaidFor(h, t, root, s, quota0, quota) && |s| == a - a0
  }

  /** Why a copy that began with quota0 and at allocation a0 ended in r, with so much quota
      left and at allocation a. */
  ghost predicate Failure(h: Heap, t: Target, root: Ref, maxCopied: nat, quota0: nat, gc: nat -> Collector, a0: nat,
                          r: Outcome, quota: nat, a: nat)
  {
    && WellFormed(h, t) && a0 <= a
    && match r
       case Restart => Stopped(h, t, root, quota0, gc, a0, Freed, quota, a)
       case Thrown =>
         Stopped(h, t, root, quota0, gc, a0, Full, quota, a) || (Meets(h, t, root, Throw) && Quiet(gc, a0, a))
       case Panicked => TooMuch(h, t, root, quota0, maxCopied) && Quiet(gc, a0, a)
       case Copied(_) => false
  }

  lemma {:induction false} NoSizes(h: Heap)
    ensures SumSizes(h, {}) == 0
  {
  }

  ghost predicate PairsKept(f: map<Ref, Ref>, f': map<Ref, Ref>) {
    forall x :: x in f ==> x in f' && f'[x] == f[x]
  }

  ghost predicate ObjectsKept(d: Heap, d': Heap) {
    forall a :: a in d ==> a in d' && d'[a] == d[a]
  }

  // ---------------------------------------------------------------- copies in the making

  /** The copies lie apart from each other between two heap tops. An object begins 4 * (1 + XMOFF)
      bytes in front of its address. */
  ghost predicate Laid(h: Heap, f: map<Ref, Ref>, from: nat, to: nat) {
    && (forall x :: x in f ==>
          x in h && from + 4 * (1 + XMOFF) <= f[x] && f[x] + 4 * Size(h[x]) <= to + 4 * (1 + XMOFF))
    && (forall x, y :: x in f && y in f && x != y && x in h && y in h ==>
          f[x] + 4 * Size(h[x]) <= f[y] || f[y] + 4 * Size(h[y]) <= f[x])
  }

  lemma LaidMore(h: Heap, f: map<Ref, Ref>, from: nat, to: nat, x: Ref, y: Ref, to': nat)
    requires Laid(h, f, from, to) && x in h && x !in f && from <= to
    requires y == to + 4 * (1 + XMOFF) && to' == to + 4 * Size(h[x])
    ensures Laid(h, f[x := y], from, to')
  {
    hide Size;
    SizePositive(h[x]);
  }

  /** Size looks at the kind of an object and at its length. */
  lemma SizeOfKind(o: Obj, p: Obj)
    requires p.flags == Kind(o.flags) && |p.data| == |o.data|
    ensures Size(p) == Size(o)
  {
    assert Kind(Kind(o.flags)) == Kind(o.flags);
  }

  lemma SameSize(h: Heap, d: Heap, x: Ref, y: Ref)
    requires Header(h, d, x, y)
    ensures Size(d[y]) == Size(h[x])
  {
    SizeOfKind(h[x], d[y]);
  }

  lemma PairAdded(f: map<Ref, Ref>, x: Ref, y: Ref)
    requires x !in f
    ensures PairsKept(f, f[x := y])
  {
  }

  lemma ObjectAdded(d: Heap, a: Ref, o: Obj)
    requires a !in d
    ensures ObjectsKept(d, d[a := o])
  {
  }

  /** ref is the root, or some reachable object refers to it. */
  ghost predicate Met(h: Heap, t: Target, root: Ref, ref: Ref)
    requires WellFormed(h, t)
  {
    ref == 0 ||
    (ref in h && (ref == root ||
                  exists x, k: nat :: x in h && Reachable(h, t, root, x) && k < |h[x].data| &&
                                      RefSlot(h[x], k) && h[x].data[k] == ref))
  }

  lemma MetIsReachable(h: Heap, t: Target, root: Ref, ref: Ref)
    requires WellFormed(h, t) && Met(h, t, root, ref)
    requires ref in h && Treat(t, ref, h[ref]) == Duplicate
    ensures Reachable(h, t, root, ref) && ref in ReachSet(h, t, root)
  {
    if ref != root {
      var x, k: nat :| x in h && Reachable(h, t, root, x) && k < |h[x].data| &&
                       RefSlot(h[x], k) && h[x].data[k] == ref;
      assert Edge(h, t, x, k);
      ReachStep(h, t, root, x, k);
    }
  }

  lemma UnhandledIsMet(h: Heap, t: Target, root: Ref, ref: Ref, what: Treatment)
    requires WellFormed(h, t) && Met(h, t, root, ref) && (ref == root || Active(h, t, root))
    requires ref in h && Treat(t, ref, h[ref]) == what
    ensures Meets(h, t, root, what)
  {
  }

  /** Whatever has been copied so far, one more object that no longer fits shows that
      everything reachable does not fit. */
  lemma {:induction false} ShortageIsFatal(h: Heap, t: Target, root: Ref, s: set<Ref>, ref: Ref, quota0: nat,
                                           maxCopied: nat)
    requires WellFormed(h, t) && s <= ReachSet(h, t, root) && Met(h, t, root, ref)
    requires ref in h && ref !in s && Treat(t, ref, h[ref]) == Duplicate && Active(h, t, root)
    requires quota0 < SumSizes(h, s) + Size(h[ref]) || |s| >= maxCopied
    ensures TooMuch(h, t, root, quota0, maxCopied)
  {
    MetIsReachable(h, t, root, ref);
    SumAdd(h, s, ref);
    SumMonotone(h, s + {ref}, ReachSet(h, t, root));
    CardinalityMonotone(s + {ref}, ReachSet(h, t, root));
  }

  /** The collector interrupts the allocation for one more object. */
  lemma {:induction false} CollectorStops(h: Heap, t: Target, root: Ref, s: set<Ref>, ref: Ref, quota0: nat,
                                          gc: nat -> Collector, a0: nat, quota: nat)
    requires WellFormed(h, t) && s <= ReachSet(h, t, root) && Met(h, t, root, ref) && (s == {} ==> ref == root)
    requires ref in h && ref !in s && Treat(t, ref, h[ref]) == Duplicate && Active(h, t, root)
    requires s != {} ==> root in s
    requires quota + SumSizes(h, s) + Size(h[ref]) == quota0 && Quiet(gc, a0, a0 + |s|)
    ensures Stopped(h, t, root, quota0, gc, a0, gc(a0 + |s|), quota, a0 + |s| + 1)
  {
    hide Reachable, Treat, RefSlot, WellFormed;
    MetIsReachable(h, t, root, ref);
    SumAdd(h, s, ref);
    assert PaidFor(h, t, root, s + {ref}, quota0, quota) && |s + {ref}| == |s| + 1;
  }

  /** A graph can be copied if and only if nothing in it throws and nothing panics. */
  lemma CopyableIff(h: Heap, t: Target, root: Ref, quota: nat, maxCopied: nat)
    requires WellFormed(h, t) && (root == 0 || root in h)
    ensures Copyable(h, t, root, quota, maxCopied) <==>
              !Meets(h, t, root, Throw) && !TooMuch(h, t, root, quota, maxCopied)
  {
    hide Kind, RefSlot, WellFormedObj, Reachable, SumSizes, Treat;
    if Copyable(h, t, root, quota, maxCopied) {
      forall ref | ref in h && Met(h, t, root, ref) && (ref == root || Active(h, t, root))
        ensures Handled(h, t, ref)
      {
        if ref != root {
          var x, k: nat :| x in h && Reachable(h, t, root, x) && k < |h[x].data| &&
                           RefSlot(h[x], k) && h[x].data[k] == ref;
          assert x in ReachSet(h, t, root);
        }
      }
    } else if !Handled(h, t, root) {
      assert Met(h, t, root, root);
    } else if !Supported(h, t, root) {
      var x, k :| x in ReachSet(h, t, root) && 0 <= k < |h[x].data| && RefSlot(h[x], k) && !Handled(h, t, h[x].data[k]);
      assert Met(h, t, root, h[x].data[k]);
    }
  }

  /** A copy that failed was either not possible or interrupted by the collector. */
  lemma {:induction false} FailureIsNoCopy(h: Heap, t: Target, root: Ref, maxCopied: nat, quota0: nat,
                                           gc: nat -> Collector, a0: nat, r: Outcome, quota: nat, a: nat)
    requires Failure(h, t, root, maxCopied, quota0, gc, a0, r, quota, a) && (root == 0 || root in h)
    ensures !(Copyable(h, t, root, quota0, maxCopied) && Quiet(gc, a0, a0 + ObjectCount(h, t, root)))
    ensures a0 <= a
    ensures r.Restart? ==> Active(h, t, root) && Size(h[root]) <= quota0 - quota <= Cost(h, t, root)
  {
    hide WellFormed, Meets, TooMuch, Copyable;
    CopyableIff(h, t, root, quota0, maxCopied);
    if s :| Active(h, t, root) && PaidFor(h, t, root, s, quota0, quota) && |s| == a - a0 {
      hide Active, ReachSet;
      CardinalityMonotone(s, ReachSet(h, t, root));
      SumMonotone(h, s, ReachSet(h, t, root));
      SumRemove(h, s, root);
    }
  }

  lemma FilledGrows(h: Heap, t: Target, f: map<Ref, Ref>, f': map<Ref, Ref>, d: Heap, d': Heap, x: Ref, y: Ref, n: nat)
    requires WellFormed(h, t) && Filled(h, t, f, d, x, y, n)
    requires PairsKept(f, f')
    requires y in d' && d'[y] == d[y]
    ensures Filled(h, t, f', d', x, y, n)
  {
    forall k | 0 <= k < n
      ensures d'[y].data[k] == SlotValue(h, t, f', x, k)
    {
      if RefSlot(h[x], k) {
        assert Resolved(h, t, f, h[x].data[k]);
      }
    }
  }

  /** From a root that is not duplicated nothing can be reached. */
  lemma InactiveIsAlone(h: Heap, t: Target, root: Ref, x: Ref)
    requires WellFormed(h, t) && !Active(h, t, root) && (root == 0 || root in h)
    requires x in h && Treat(t, x, h[x]) == Duplicate
    ensures !Reachable(h, t, root, x)
  {
    assert Closed(h, t, {root}) by {
      forall k: nat | Edge(h, t, root, k) ensures false {
      }
    }
    assert x !in {root};
  }

  lemma RootIsMet(h: Heap, t: Target, root: Ref)
    requires WellFormed(h, t) && (root == 0 || root in h)
    ensures Met(h, t, root, root)
  {
  }
}
