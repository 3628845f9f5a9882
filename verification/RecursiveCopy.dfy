/** The recursive copier (without NEW_COPY) of kjvm/trunk/core/portal.c: depth first, with a
    table of the objects already copied that is searched before anything is copied. */
module RecursiveCopy {
  import opened ObjectGraph
  import opened CopySpec
  import opened CopyRetries

  datatype Pair = Pair(src: Ref, dst: Ref)

  /** The copier's variables; the source heap is never written. */
  datatype State = State(dst: Heap, heapTop: nat, copied: seq<Pair>, quota: nat)

  /** What the proof remembers: the destination, the quota and the number of allocations before
      the copy, the root, where the copies begin, the pairing f of originals with copies, and the
      originals whose copies are complete. */
  datatype History =
    History(dst0: Heap, root: Ref, base: nat, quota0: nat, allocs0: nat, f: map<Ref, Ref>, done: set<Ref>)

  ghost predicate TableInv(h: Heap, t: Target, root: Ref, copied: seq<Pair>, f: map<Ref, Ref>)
    requires WellFormed(h, t)
  {
    && |copied| == |f| && f.Keys <= h.Keys && Injective(f)
    && (forall i :: 0 <= i < |copied| ==> copied[i].src in f && f[copied[i].src] == copied[i].dst)
    && (forall x :: x in f ==> exists i :: 0 <= i < |copied| && copied[i].src == x)
    && (forall x :: x in f ==> Treat(t, x, h[x]) == Duplicate && Reachable(h, t, root, x))
  }

  /** Objects can be allocated from heapTop on. */
  predicate HeapReady(dst: Heap, heapTop: nat) {
    forall a :: a in dst ==> a < heapTop + 4 * (1 + XMOFF)
  }

  ghost predicate HeapInv(h: Heap, dst0: Heap, dst: Heap, heapTop: nat, f: map<Ref, Ref>) {
    && ObjectsKept(dst0, dst) && HeapReady(dst, heapTop)
    && (forall x :: x in f ==> f[x] !in dst0 && Header(h, dst, x, f[x]))
  }

  ghost predicate DoneInv(h: Heap, t: Target, dst: Heap, f: map<Ref, Ref>, done: set<Ref>)
    requires WellFormed(h, t)
  {
    && done <= f.Keys <= h.Keys
    && forall x :: x in done ==> Filled(h, t, f, dst, x, f[x], |h[x].data|)
  }

  ghost predicate Inv(h: Heap, t: Target, maxCopied: nat, s: State, g: History) {
    && WellFormed(h, t) && !t.scan
    && TableInv(h, t, g.root, s.copied, g.f)
    && HeapInv(h, g.dst0, s.dst, s.heapTop, g.f)
    && DoneInv(h, t, s.dst, g.f, g.done)
    && Laid(h, g.f, g.base, s.heapTop) && g.base <= s.heapTop
    && s.quota + SumSizes(h, g.f.Keys) == g.quota0
    && |s.copied| <= maxCopied
  }

  /** The same copy, later: earlier objects are untouched, and whatever was added is complete. */
  ghost predicate Deeper(s: State, g: History, s': State, g': History) {
    && g' == g.(f := g'.f, done := g'.done)
    && s.copied <= s'.copied && s'.quota <= s.quota
    && PairsKept(g.f, g'.f) && ObjectsKept(s.dst, s'.dst)
    && g'.done == g.done + (g'.f.Keys - g.f.Keys)
  }

  /** Reference ref has been copied, with everything behind it, to w. */
  ghost predicate Deep(h: Heap, t: Target, maxCopied: nat, s: State, g: History, s': State, g': History, ref: Ref,
                       w: Ref) {
    && Inv(h, t, maxCopied, s', g') && Deeper(s, g, s', g')
    && Resolved(h, t, g'.f, ref) && w == Translate(h, t, g'.f, ref)
  }

  /** Object x has been entered into the table in state s1 and its copy y is filled up to k. */
  ghost predicate Filling(h: Heap, t: Target, maxCopied: nat, s1: State, g1: History, s: State, g: History,
                          x: Ref, y: Ref, k: nat)
  {
    && Inv(h, t, maxCopied, s, g)
    && x in g1.f && g1.f[x] == y && x !in g.done && Filled(h, t, g.f, s.dst, x, y, k)
    && g == g1.(f := g.f, done := g.done)
    && s1.copied <= s.copied && s.quota <= s1.quota
    && PairsKept(g1.f, g.f) && g.done == g1.done + (g.f.Keys - g1.f.Keys)
    && (forall a :: a in s1.dst && a != y ==> a in s.dst && s.dst[a] == s1.dst[a])
  }

  /** What the beginning of object y's copy leaves alone. */
  ghost predicate Begun(s0: State, g0: History, s1: State, g1: History, y: Ref) {
    && PairsKept(g0.f, g1.f) && ObjectsKept(s0.dst, s1.dst) && y !in s0.dst
    && s0.copied <= s1.copied && s1.quota <= s0.quota
  }

  // ------------------------------------------------------------ steps

  lemma DeepUnmoved(h: Heap, t: Target, maxCopied: nat, s: State, g: History, ref: Ref, w: Ref)
    requires Inv(h, t, maxCopied, s, g)
    requires Resolved(h, t, g.f, ref) && w == Translate(h, t, g.f, ref)
    ensures Deep(h, t, maxCopied, s, g, s, g, ref, w)
  {
    hide TableInv, HeapInv, Laid, DoneInv;
  }

  lemma TableFacts(h: Heap, t: Target, root: Ref, copied: seq<Pair>, f: map<Ref, Ref>)
    requires WellFormed(h, t) && TableInv(h, t, root, copied, f)
    ensures f.Keys <= h.Keys && f.Keys <= ReachSet(h, t, root) && |f.Keys| == |copied|
  {
  }

  /** An object charged, allocated and entered into the table. */
  ghost predicate Entered(s: State, x: Ref, o: Obj, s': State, y: Ref) {
    && y == s.heapTop + 4 * (1 + XMOFF)
    && s'.dst == s.dst[y := Obj(Kind(o.flags), o.cls, seq(|o.data|, _ => 0))]
    && s'.heapTop == s.heapTop + 4 * Size(o)
    && s'.copied == s.copied + [Pair(x, y)]
    && s.quota == s'.quota + Size(o)
  }

  lemma EnterTable(h: Heap, t: Target, root: Ref, copied: seq<Pair>, f: map<Ref, Ref>, x: Ref, y: Ref)
    requires WellFormed(h, t) && TableInv(h, t, root, copied, f)
    requires x in h && x !in f && Treat(t, x, h[x]) == Duplicate && Reachable(h, t, root, x)
    requires forall z :: z in f ==> f[z] != y
    ensures TableInv(h, t, root, copied + [Pair(x, y)], f[x := y])
  {
    hide Kind, Reachable, Treat, WellFormedObj, RefSlot;
    var c', f' := copied + [Pair(x, y)], f[x := y];
    forall z | z in f' ensures exists i :: 0 <= i < |c'| && c'[i].src == z {
      if z == x {
        assert c'[|copied|].src == z;
      } else {
        var i :| 0 <= i < |copied| && copied[i].src == z;
        assert c'[i].src == z;
      }
    }
  }

  lemma EnterHeap(h: Heap, t: Target, dst0: Heap, s: State, f: map<Ref, Ref>, done: set<Ref>, x: Ref, s': State, y: Ref)
    requires WellFormed(h, t) && HeapInv(h, dst0, s.dst, s.heapTop, f) && DoneInv(h, t, s.dst, f, done)
    requires x in h && x !in f && Entered(s, x, h[x], s', y)
    ensures HeapInv(h, dst0, s'.dst, s'.heapTop, f[x := y]) && DoneInv(h, t, s'.dst, f[x := y], done)
    ensures y !in s.dst && y in s'.dst && forall z :: z in f ==> f[z] != y
    ensures Filled(h, t, f[x := y], s'.dst, x, y, 0)
  {
    hide Kind, Size, Treat, WellFormedObj, RefSlot, SlotValue, Resolved;
    SizePositive(h[x]);
    PairAdded(f, x, y);
    forall z | z in done ensures Filled(h, t, f[x := y], s'.dst, z, f[z], |h[z].data|) {
      FilledGrows(h, t, f, f[x := y], s.dst, s'.dst, z, f[z], |h[z].data|);
    }
  }

  lemma EnteredIsFilling(h: Heap, t: Target, maxCopied: nat, s: State, g: History, x: Ref, s': State, g': History,
                         y: Ref)
    requires Inv(h, t, maxCopied, s, g) && |s.copied| < maxCopied
    requires x in h && x !in g.f && Treat(t, x, h[x]) == Duplicate && Reachable(h, t, g.root, x)
    requires Entered(s, x, h[x], s', y) && g' == g.(f := g.f[x := y])
    ensures Filling(h, t, maxCopied, s', g', s', g', x, y, 0)
    ensures PairsKept(g.f, g'.f) && ObjectsKept(s.dst, s'.dst) && y !in s.dst
  {
    hide WellFormed, TableInv, HeapInv, DoneInv, Kind, Size, Treat, Reachable, SumSizes, Filled, Laid;
    LaidMore(h, g.f, g.base, s.heapTop, x, y, s'.heapTop);
    EnterHeap(h, t, g.dst0, s, g.f, g.done, x, s', y);
    EnterTable(h, t, g.root, s.copied, g.f, x, y);
    TableFacts(h, t, g.root, s.copied, g.f);
    SumAdd(h, g.f.Keys, x);
    assert g'.f.Keys == g.f.Keys + {x};
    assert x !in g.done by { DoneArePaired(h, t, s.dst, g.f, g.done); }
    PairAdded(g.f, x, y);
    ObjectAdded(s.dst, y, s'.dst[y]);
  }

  lemma DoneArePaired(h: Heap, t: Target, dst: Heap, f: map<Ref, Ref>, done: set<Ref>)
    requires WellFormed(h, t) && DoneInv(h, t, dst, f, done)
    ensures done <= f.Keys
  {
  }

  /** The state after the words of y were set to data. */
  function Written(s: State, y: Ref, data: seq<nat>): State
    requires y in s.dst
  {
    s.(dst := s.dst[y := s.dst[y].(data := data)])
  }

  /** Writing into an object that is not complete yet disturbs nothing else. */
  lemma WriteKeepsInv(h: Heap, t: Target, maxCopied: nat, s: State, g: History, x: Ref, data: seq<nat>)
    requires Inv(h, t, maxCopied, s, g) && x in g.f && x !in g.done && g.f[x] in s.dst
    requires |data| == |s.dst[g.f[x]].data|
    ensures Inv(h, t, maxCopied, Written(s, g.f[x], data), g)
  {
    hide Kind, Treat, WellFormedObj, RefSlot, SlotValue, Resolved, Reachable, SumSizes, Laid;
    var y, s' := g.f[x], Written(s, g.f[x], data);
    forall z | z in g.done ensures Filled(h, t, g.f, s'.dst, z, g.f[z], |h[z].data|) {
      FilledGrows(h, t, g.f, g.f, s.dst, s'.dst, z, g.f[z], |h[z].data|);
    }
  }

  /** One more word of y is in place: a translated reference or a word moved as it is. */
  lemma StoredIsFilling(h: Heap, t: Target, maxCopied: nat, s1: State, g1: History, s: State, g: History,
                        x: Ref, y: Ref, k: nat, s': State, g': History, v: Ref)
    requires Filling(h, t, maxCopied, s1, g1, s, g, x, y, k) && x in h && k < |h[x].data|
    requires Inv(h, t, maxCopied, s', g') && Deeper(s, g, s', g')
    requires v == SlotValue(h, t, g'.f, x, k)
    requires RefSlot(h[x], k) ==> Resolved(h, t, g'.f, h[x].data[k])
    ensures y in s'.dst && k < |s'.dst[y].data|
    ensures Filling(h, t, maxCopied, s1, g1, Written(s', y, s'.dst[y].data[k := v]), g', x, y, k + 1)
  {
    hide Kind, Treat, WellFormedObj, RefSlot, SlotValue, Resolved, TableInv, HeapInv, Laid, DoneInv, SumSizes;
    FilledGrows(h, t, g.f, g'.f, s.dst, s'.dst, x, y, k);
    WriteKeepsInv(h, t, maxCopied, s', g', x, s'.dst[y].data[k := v]);
  }

  lemma DeeperRefl(s: State, g: History)
    ensures Deeper(s, g, s, g)
  {
  }

  /** The object is complete once all its words are. */
  lemma FilledIsDeep(h: Heap, t: Target, maxCopied: nat, s0: State, g0: History, s1: State, g1: History,
                     s: State, g: History, x: Ref, y: Ref, g': History)
    requires Filling(h, t, maxCopied, s1, g1, s, g, x, y, if x in h then |h[x].data| else 0)
    requires Inv(h, t, maxCopied, s0, g0) && x in h && x !in g0.f && Treat(t, x, h[x]) == Duplicate
    requires g1 == g0.(f := g0.f[x := y]) && Begun(s0, g0, s1, g1, y)
    requires g' == g.(done := g.done + {x})
    ensures Deep(h, t, maxCopied, s0, g0, s, g', x, y)
  {
    hide Kind, Treat, WellFormedObj, RefSlot, SlotValue, TableInv, HeapInv, Laid, SumSizes;
    assert g'.f.Keys - g0.f.Keys == (g.f.Keys - g1.f.Keys) + {x};
  }

  /** What the loop over an object's words needs to know in the middle of it. */
  lemma ObjectsPaired(h: Heap, t: Target, maxCopied: nat, s1: State, g1: History, s: State, g: History,
                      x: Ref, y: Ref, k: nat)
    requires Filling(h, t, maxCopied, s1, g1, s, g, x, y, k)
    ensures Inv(h, t, maxCopied, s, g) && x in h && x in g.f && g.f[x] == y && y in s.dst
    ensures |s.dst[y].data| == |h[x].data|
    ensures h.Keys - g.f.Keys <= h.Keys - g1.f.Keys
  {
    hide Kind, Treat, WellFormedObj, RefSlot, SlotValue, Resolved, TableInv, HeapInv, Laid, DoneInv, SumSizes;
  }

  /** A word that is no reference is moved as it is. */
  lemma WordIsFilling(h: Heap, t: Target, maxCopied: nat, s1: State, g1: History, s: State, g: History,
                      x: Ref, y: Ref, k: nat)
    requires Filling(h, t, maxCopied, s1, g1, s, g, x, y, k) && x in h && k < |h[x].data|
    requires !RefSlot(h[x], k) && Raw(t, h[x])[k] == h[x].data[k]
    ensures y in s.dst && k < |s.dst[y].data|
    ensures Filling(h, t, maxCopied, s1, g1, Written(s, y, s.dst[y].data[k := h[x].data[k]]), g, x, y, k + 1)
  {
    hide Kind, Treat, WellFormedObj, RefSlot, Resolved, TableInv, HeapInv, Laid, DoneInv, SumSizes, Filling;
    ObjectsPaired(h, t, maxCopied, s1, g1, s, g, x, y, k);
    DeeperRefl(s, g);
    StoredIsFilling(h, t, maxCopied, s1, g1, s, g, x, y, k, s, g, h[x].data[k]);
  }

  /** An object without reference slots is filled by one memcpy. */
  lemma LeafIsFilling(h: Heap, t: Target, maxCopied: nat, s: State, g: History, x: Ref, y: Ref)
    requires Filling(h, t, maxCopied, s, g, s, g, x, y, 0) && x in h
    requires forall k :: 0 <= k < |h[x].data| ==> !RefSlot(h[x], k)
    ensures y in s.dst && |s.dst[y].data| == |h[x].data|
    ensures Filling(h, t, maxCopied, s, g, Written(s, y, Raw(t, h[x])), g, x, y, |h[x].data|)
  {
    hide Kind, Treat, WellFormedObj, RefSlot, Resolved, TableInv, HeapInv, Laid, DoneInv, SumSizes, Raw;
    WriteKeepsInv(h, t, maxCopied, s, g, x, Raw(t, h[x]));
  }

  // ------------------------------------------------------------ start and end of a copy

  lemma InitInv(h: Heap, t: Target, maxCopied: nat, s: State, root: Ref, allocs: nat)
    requires WellFormed(h, t) && !t.scan && s.copied == []
    requires HeapReady(s.dst, s.heapTop)
    ensures Inv(h, t, maxCopied, s, History(s.dst, root, s.heapTop, s.quota, allocs, map[], {}))
  {
    hide Kind, RefSlot;
  }

  /** When nothing is left incomplete, what was copied is what can be reached. */
  lemma DoneIsCopy(h: Heap, t: Target, maxCopied: nat, s: State, g: History, r: Ref)
    requires Inv(h, t, maxCopied, s, g) && g.done == g.f.Keys && (g.root == 0 || g.root in h)
    requires Resolved(h, t, g.f, g.root) && r == Translate(h, t, g.f, g.root)
    ensures IsCopy(h, t, g.root, s.dst, r, g.f)
    ensures Copyable(h, t, g.root, g.quota0, maxCopied)
    ensures |s.copied| == ObjectCount(h, t, g.root) && s.quota + Cost(h, t, g.root) == g.quota0
    ensures ObjectsKept(g.dst0, s.dst) && forall x :: x in g.f ==> g.f[x] !in g.dst0
    ensures Laid(h, g.f, g.base, s.heapTop)
  {
    hide Laid, Kind, RefSlot, Reachable, Treat, WellFormedObj, Size, SumSizes, Header, SlotValue, Translate;
    TableFacts(h, t, g.root, s.copied, g.f);
    if Active(h, t, g.root) {
      assert g.root in g.f;
      assert Closed(h, t, g.f.Keys);
      ReachSetUnique(h, t, g.root, g.f.Keys);
    } else if x :| x in g.f {
      InactiveIsAlone(h, t, g.root, x);
    } else {
      assert g.f.Keys == {} && SumSizes(h, {}) == 0 by { NoSizes(h); }
    }
  }

  // ------------------------------------------------------------ when there is no copy

  /** Object ref is to be copied next, and the collector has stayed idle so far. */
  ghost predicate Next(h: Heap, t: Target, maxCopied: nat, s: State, g: History, gc: nat -> Collector, ref: Ref) {
    && Inv(h, t, maxCopied, s, g) && Active(h, t, g.root) && Met(h, t, g.root, ref)
    && ref in h && ref !in g.f && Treat(t, ref, h[ref]) == Duplicate
    && (s.copied == [] ==> ref == g.root) && (s.copied != [] ==> s.copied[0].src == g.root)
    && Quiet(gc, g.allocs0, g.allocs0 + |s.copied|)
  }

  /** At the allocation for it the collector does not stay idle. */
  lemma CollectorInterrupts(h: Heap, t: Target, maxCopied: nat, s: State, g: History, gc: nat -> Collector, ref: Ref,
                            quota: nat, r: Outcome)
    requires Next(h, t, maxCopied, s, g, gc, ref) && s.quota == quota + Size(h[ref])
    requires gc(g.allocs0 + |s.copied|) == match r case Restart => Freed case Thrown => Full case _ => Idle
    requires r.Restart? || r.Thrown?
    ensures Failure(h, t, g.root, maxCopied, g.quota0, gc, g.allocs0, r, quota, g.allocs0 + |s.copied| + 1)
  {
    hide HeapInv, Laid, DoneInv, Kind, Reachable, SumSizes, Size, WellFormedObj, Treat, RefSlot, Met, ReachSet,
         Active, Stopped, Meets, TooMuch, WellFormed;
    TableFacts(h, t, g.root, s.copied, g.f);
    CollectorStops(h, t, g.root, g.f.Keys, ref, g.quota0, gc, g.allocs0, quota);
  }

  /** There is no quota, or no entry of the table, for it. */
  lemma NoRoom(h: Heap, t: Target, maxCopied: nat, s: State, g: History, gc: nat -> Collector, ref: Ref,
               quota: nat, a: nat)
    requires Next(h, t, maxCopied, s, g, gc, ref) && g.allocs0 <= a && Quiet(gc, g.allocs0, a)
    requires s.quota < Size(h[ref]) || |s.copied| == maxCopied
    ensures Failure(h, t, g.root, maxCopied, g.quota0, gc, g.allocs0, Panicked, quota, a)
  {
    hide HeapInv, Laid, DoneInv, Kind, Reachable, SumSizes, Size, WellFormedObj, Treat, RefSlot, Met, ReachSet,
         Active, Stopped, Meets, TooMuch, WellFormed;
    TableFacts(h, t, g.root, s.copied, g.f);
    ShortageIsFatal(h, t, g.root, g.f.Keys, ref, g.quota0, maxCopied);
  }

  lemma StillReady(dst: Heap, dst0: Heap, heapTop: nat, a: Ref, o: Obj, top: nat)
    requires HeapReady(dst, heapTop) && ObjectsKept(dst0, dst)
    requires a == heapTop + 4 * (1 + XMOFF) && top == heapTop + 4 * Size(o)
    ensures HeapReady(dst[a := o], top) && ObjectsKept(dst0, dst[a := o])
  {
    SizePositive(o);
    hide Size;
  }

  lemma StillReadyErased(dst: Heap, dst0: Heap, heapTop: nat, a: Ref, o: Obj)
    requires HeapReady(dst, heapTop) && ObjectsKept(dst0, dst) && a in dst && a !in dst0
    ensures HeapReady(dst[a := o], heapTop) && ObjectsKept(dst0, dst[a := o])
  {
  }

  lemma HeapIsReady(h: Heap, t: Target, maxCopied: nat, s: State, g: History)
    requires Inv(h, t, maxCopied, s, g)
    ensures HeapReady(s.dst, s.heapTop) && ObjectsKept(g.dst0, s.dst)
  {
    hide WellFormed, TableInv, DoneInv, Header;
  }

  lemma SlotIsMet(h: Heap, t: Target, root: Ref, x: Ref, k: nat)
    requires WellFormed(h, t) && x in h && Reachable(h, t, root, x) && k < |h[x].data| && RefSlot(h[x], k)
    ensures Met(h, t, root, h[x].data[k])
  {
    hide Kind, RefSlot, Reachable;
  }

  lemma PairedAreDuplicated(h: Heap, t: Target, root: Ref, copied: seq<Pair>, f: map<Ref, Ref>, x: Ref)
    requires WellFormed(h, t) && TableInv(h, t, root, copied, f) && x in f
    ensures x in h && Treat(t, x, h[x]) == Duplicate && Reachable(h, t, root, x) && copied != []
  {
  }

  // ------------------------------------------------------------ the copier

  class RecursiveCopier {
    const t: Target
    const maxCopied: nat
    const src: Heap           // heap of the domain the objects come from
    var dst: Heap             // heap of the domain they are copied to
    var heapTop: nat
    var copied: seq<Pair>
    var quota: nat
    const gc: nat -> Collector // what the collector does at each allocation
    var allocs: nat            // allocations so far
    ghost var g: History

    constructor (t: Target, maxCopied: nat, src: Heap, dst: Heap, heapTop: nat, quota: nat, gc: nat -> Collector)
      ensures this.t == t && this.maxCopied == maxCopied && this.src == src && this.dst == dst
      ensures this.heapTop == heapTop && this.quota == quota && copied == [] && this.gc == gc && this.allocs == 0
    {
      this.t, this.maxCopied, this.src, this.dst := t, maxCopied, src, dst;
      this.heapTop, this.copied, this.quota := heapTop, [], quota;
      this.gc, this.allocs := gc, 0;
    }

    ghost function S(): State
      reads this
    {
      State(dst, heapTop, copied, quota)
    }

    /** So far there was one allocation an object, the root's first, and the collector stayed idle. */
    ghost predicate Counted()
      reads this
    {
      && allocs == g.allocs0 + |copied| && Quiet(gc, g.allocs0, allocs)
      && (copied != [] ==> copied[0].src == g.root)
    }

    /** There is a reason for the copy to end in r, and the heap can be used again. */
    ghost predicate Failed(r: Outcome)
      reads this
    {
      && Failure(src, t, g.root, maxCopied, g.quota0, gc, g.allocs0, r, quota, allocs)
      && HeapReady(dst, heapTop) && ObjectsKept(g.dst0, dst)
    }

    method Alloc(flags: nat, cls: ClassDesc, n: nat) returns (a: Allocation)
      modifies this`dst, this`heapTop, this`allocs
      ensures allocs == old(allocs) + 1
      ensures a.Allocated? <==> gc(old(allocs)) == Idle
      ensures a.Collected? <==> gc(old(allocs)) == Freed
      ensures a.Allocated? ==>
                && a.ref == old(heapTop) + 4 * (1 + XMOFF)
                && dst == old(dst)[a.ref := Obj(flags, cls, seq(n, _ => 0))]
                && heapTop == old(heapTop) + 4 * Size(Obj(flags, cls, seq(n, _ => 0)))
      ensures !a.Allocated? ==> dst == old(dst) && heapTop == old(heapTop)
    {
      var collector := gc(allocs);
      allocs := allocs + 1;
      if collector != Idle {
        return if collector == Freed then Collected else Exhausted;
      }
      var r := heapTop + 4 * (1 + XMOFF);
      dst := dst[r := Obj(flags, cls, seq(n, _ => 0))];
      heapTop := heapTop + 4 * Size(dst[r]);
      a := Allocated(r);
    }

    method AddToRefTable(s: Ref, d: Ref) returns (ok: bool)
      modifies this`copied
      ensures ok == (|old(copied)| != maxCopied)
      ensures copied == if ok then old(copied) + [Pair(s, d)] else old(copied)
    {
      if |copied| == maxCopied {
        return false;
      }
      copied := copied + [Pair(s, d)];
      return true;
    }

    /** The search through the table. */
    method FindCopied(ref: Ref) returns (r: Ref, found: bool)
      requires Inv(src, t, maxCopied, S(), g)
      ensures found <==> ref in g.f
      ensures found ==> r == g.f[ref]
    {
      hide WellFormed, HeapInv, Laid, DoneInv, Treat, Reachable;
      for i := 0 to |copied|
        invariant forall j :: 0 <= j < i ==> copied[j].src != ref
      {
        if copied[i].src == ref {
          return copied[i].dst, true;
        }
      }
      return 0, false;
    }

    /** Quota, allocation and table entry, which copy_object, copy_array, copy_portal and
        copy_domainproxy begin with. */
    method Enter(ref: Ref) returns (r: Outcome)
      requires Inv(src, t, maxCopied, S(), g) && Active(src, t, g.root) && Met(src, t, g.root, ref)
      requires ref in src && ref !in g.f && Treat(t, ref, src[ref]) == Duplicate
      requires Counted() && (copied == [] ==> ref == g.root)
      modifies this
      ensures r.Copied? ==> Entered(old(S()), ref, src[ref], S(), r.ref) && |old(copied)| < maxCopied
      ensures r.Copied? ==> Counted()
      ensures !r.Copied? ==> Failed(r)
      ensures g == old(g)
    {
      hide TableInv, HeapInv, Laid, DoneInv, Kind, Reachable, SumSizes, Copyable, Size, WellFormed, WellFormedObj,
           Treat, Met, ReachSet, Failure, Active, Quiet;
      var o := src[ref];
      ghost var s0 := S();
      assert Next(src, t, maxCopied, s0, g, gc, ref);
      HeapIsReady(src, t, maxCopied, s0, g);
      if quota < Size(o) {
        NoRoom(src, t, maxCopied, s0, g, gc, ref, quota, allocs);
        return Panicked;
      }
      quota := quota - Size(o);
      SizeOfKind(o, Obj(Kind(o.flags), o.cls, seq(|o.data|, _ => 0)));
      var a := Alloc(Kind(o.flags), o.cls, |o.data|);
      if !a.Allocated? {
        r := if a.Collected? then Restart else Thrown;
        CollectorInterrupts(src, t, maxCopied, s0, g, gc, ref, quota, r);
        return;
      }
      QuietOn(gc, g.allocs0, old(allocs));
      var ok := AddToRefTable(ref, a.ref);
      if !ok {
        NoRoom(src, t, maxCopied, s0, g, gc, ref, quota, allocs);
        StillReady(s0.dst, g.dst0, s0.heapTop, a.ref, dst[a.ref], heapTop);
        return Panicked;
      }
      assert copied[0] == if s0.copied == [] then Pair(ref, a.ref) else s0.copied[0];
      return Copied(a.ref);
    }

    /** The same, as the proof sees it: the copy of ref has been begun. */
    method Begin(ref: Ref) returns (r: Outcome)
      requires Inv(src, t, maxCopied, S(), g) && Active(src, t, g.root) && Met(src, t, g.root, ref)
      requires ref in src && ref !in g.f && Treat(t, ref, src[ref]) == Duplicate
      requires Counted() && (copied == [] ==> ref == g.root)
      modifies this
      ensures !r.Copied? ==> Failed(r) && g == old(g)
      ensures r.Copied? ==>
                && g == old(g).(f := old(g).f[ref := r.ref]) && Counted()
                && Filling(src, t, maxCopied, S(), g, S(), g, ref, r.ref, 0)
                && Begun(old(S()), old(g), S(), g, r.ref) && r.ref !in g.dst0
    {
      hide TableInv, HeapInv, Laid, DoneInv, Reachable, SumSizes, Size, ReachSet, Met, Kind, Treat, Filling,
           PairsKept, Failure, Quiet, HeapReady;
      ghost var s0, g0 := S(), g;
      HeapIsReady(src, t, maxCopied, s0, g0);
      r := Enter(ref);
      if r.Copied? {
        MetIsReachable(src, t, g.root, ref);
        g := g.(f := g.f[ref := r.ref]);
        EnteredIsFilling(src, t, maxCopied, s0, g0, ref, S(), g, r.ref);
      }
    }

    /** copy_reference_internal */
    method CopyReferenceInternal(ref: Ref) returns (r: Outcome)
      requires Inv(src, t, maxCopied, S(), g) && Met(src, t, g.root, ref) && (ref == g.root || Active(src, t, g.root))
      requires Counted() && (copied == [] ==> ref == g.root)
      modifies this
      ensures g == old(g).(f := g.f, done := g.done)
      ensures r.Copied? ==> Deep(src, t, maxCopied, old(S()), old(g), S(), g, ref, r.ref)
      ensures r.Copied? ==> Counted()
      ensures !r.Copied? ==> Failed(r)
      decreases src.Keys - g.f.Keys, 2
    {
      hide TableInv, HeapInv, Laid, DoneInv, Reachable, SumSizes, Copyable, Size, Deep, ReachSet, RefSlot, Raw;
      if ref == 0 {
        DeepUnmoved(src, t, maxCopied, S(), g, ref, 0);
        return Copied(0);
      }
      var y, found := FindCopied(ref);
      if found {
        PairedAreDuplicated(src, t, g.root, copied, g.f, ref);
        DeepUnmoved(src, t, maxCopied, S(), g, ref, y);
        return Copied(y);
      }
      var kind := Kind(src[ref].flags);
      if kind == OBJFLAGS_OBJECT {
        r := CopyObject(ref);
      } else if kind == OBJFLAGS_PORTAL {
        var p := src[ref];
        if p.data[1] == t.id && !(p.data[1] == 0 && p.data[0] == 0 && p.data[2] == 0) {
          DeepUnmoved(src, t, maxCopied, S(), g, ref, t.services[p.data[2]]);
          return Copied(t.services[p.data[2]]);
        }
        r := CopyProxy(ref);
      } else if kind == OBJFLAGS_DOMAIN {
        r := CopyProxy(ref);
      } else if kind == OBJFLAGS_ARRAY {
        r := CopyArray(ref);
      } else if kind == OBJFLAGS_EXTERNAL_STRING || kind == OBJFLAGS_EXTERNAL_CPUDESC {
        DeepUnmoved(src, t, maxCopied, S(), g, ref, ref);
        return Copied(ref);
      } else if kind == OBJFLAGS_ATOMVAR {
        UnhandledIsMet(src, t, g.root, ref, Throw);
        HeapIsReady(src, t, maxCopied, S(), g);
        return Thrown;
      } else {
        UnhandledIsMet(src, t, g.root, ref, Panic);
        HeapIsReady(src, t, maxCopied, S(), g);
        return Panicked;
      }
    }

    /** One reference slot: what it refers to is copied first, then the slot is written. */
    method CopySlot(ref: Ref, y: Ref, k: nat, ghost s1: State, ghost g1: History) returns (r: Outcome)
      requires Filling(src, t, maxCopied, s1, g1, S(), g, ref, y, k) && Active(src, t, g.root)
      requires ref in src && k < |src[ref].data| && RefSlot(src[ref], k)
      requires Counted()
      modifies this
      ensures g == old(g).(f := g.f, done := g.done)
      ensures r.Copied? ==> Filling(src, t, maxCopied, s1, g1, S(), g, ref, y, k + 1)
      ensures r.Copied? ==> Counted()
      ensures !r.Copied? ==> Failed(r)
      decreases src.Keys - g.f.Keys, 3
    {
      hide TableInv, HeapInv, Laid, DoneInv, Reachable, SumSizes, Copyable, Size, ReachSet, RefSlot, Raw, Kind, Treat,
           WellFormedObj, Met, Failure;
      ghost var s0, g0 := S(), g;
      PairedAreDuplicated(src, t, g.root, copied, g.f, ref);
      SlotIsMet(src, t, g.root, ref, k);
      r := CopyReferenceInternal(src[ref].data[k]);
      if r.Copied? {
        StoredIsFilling(src, t, maxCopied, s1, g1, s0, g0, ref, y, k, S(), g, r.ref);
        dst := dst[y := dst[y].(data := dst[y].data[k := r.ref])];
      }
    }

    /** copy_object's loop: the bits of the class's reference map say which words to follow. */
    method FillObject(ref: Ref, y: Ref, ghost s1: State, ghost g1: History) returns (r: Outcome)
      requires Filling(src, t, maxCopied, s1, g1, S(), g, ref, y, 0) && Active(src, t, g.root)
      requires ref in src && Kind(src[ref].flags) == OBJFLAGS_OBJECT && Counted()
      requires |src[ref].data| <= 8 * |src[ref].cls.refMap|
      modifies this
      ensures g == old(g).(f := g.f, done := g.done)
      ensures r.Copied? ==> Filling(src, t, maxCopied, s1, g1, S(), g, ref, y, |src[ref].data|) && Counted()
      ensures !r.Copied? ==> Failed(r)
      decreases src.Keys - g1.f.Keys, 4
    {
      hide TableInv, HeapInv, Laid, DoneInv, Reachable, SumSizes, Size, ReachSet, Pow2, MapBit, BitAt, Treat, Met,
           Filling, PairsKept, ObjectsKept, Failure, Quiet, HeapReady, Active;
      var o, b := src[ref], 0;
      r := Copied(y);
      for k := 0 to |o.data|
        invariant r.Copied? && g == old(g).(f := g.f, done := g.done)
        invariant Filling(src, t, maxCopied, s1, g1, S(), g, ref, y, k) && Counted()
        invariant k % 8 != 0 ==> BitAt(o.cls.refMap, k, b)
      {
        if k % 8 == 0 {
          FirstBit(o.cls.refMap, k);
          b := o.cls.refMap[k / 8];
        }
        NextBit(o.cls.refMap, k, b);
        ObjectsPaired(src, t, maxCopied, s1, g1, S(), g, ref, y, k);
        if b % 2 == 1 {
          r := CopySlot(ref, y, k, s1, g1);
          if !r.Copied? { return; }
        } else {
          WordIsFilling(src, t, maxCopied, s1, g1, S(), g, ref, y, k);
          dst := dst[y := dst[y].(data := dst[y].data[k := o.data[k]])];
        }
        b := b / 2;
      }
    }

    /** copy_array's loop over references; a restart erases what it has copied. */
    method FillArray(ref: Ref, y: Ref, ghost s1: State, ghost g1: History) returns (r: Outcome)
      requires Filling(src, t, maxCopied, s1, g1, S(), g, ref, y, 0) && Active(src, t, g.root)
      requires ref in src && Kind(src[ref].flags) == OBJFLAGS_ARRAY && Counted()
      requires IsReferenceArray(src[ref].cls) && y !in g.dst0
      modifies this
      ensures g == old(g).(f := g.f, done := g.done)
      ensures r.Copied? ==> Filling(src, t, maxCopied, s1, g1, S(), g, ref, y, |src[ref].data|) && Counted()
      ensures !r.Copied? ==> Failed(r)
      decreases src.Keys - g1.f.Keys, 4
    {
      hide TableInv, HeapInv, Laid, DoneInv, Reachable, SumSizes, Size, ReachSet, Pow2, MapBit, BitAt, Treat, Met,
           Filling, PairsKept, ObjectsKept, Failure, Quiet, HeapReady, Active;
      var o := src[ref];
      r := Copied(y);
      for i := 0 to |o.data|
        invariant r.Copied? && g == old(g).(f := g.f, done := g.done)
        invariant Filling(src, t, maxCopied, s1, g1, S(), g, ref, y, i) && Counted()
      {
        ObjectsPaired(src, t, maxCopied, s1, g1, S(), g, ref, y, i);
        r := CopySlot(ref, y, i, s1, g1);
        if !r.Copied? {
          if r.Restart? && y in dst {
            StillReadyErased(dst, g.dst0, heapTop, y, dst[y].(data := seq(|o.data|, _ => 0)));
            dst := dst[y := dst[y].(data := seq(|o.data|, _ => 0))];
          }
          return;
        }
      }
    }

    /** copy_object */
    method CopyObject(ref: Ref) returns (r: Outcome)
      requires Inv(src, t, maxCopied, S(), g) && Active(src, t, g.root) && Met(src, t, g.root, ref)
      requires ref in src && ref !in g.f && Treat(t, ref, src[ref]) == Duplicate
      requires Kind(src[ref].flags) == OBJFLAGS_OBJECT
      requires Counted() && (copied == [] ==> ref == g.root)
      modifies this
      ensures g == old(g).(f := g.f, done := g.done)
      ensures r.Copied? ==> Deep(src, t, maxCopied, old(S()), old(g), S(), g, ref, r.ref)
      ensures r.Copied? ==> Counted()
      ensures !r.Copied? ==> Failed(r)
      decreases src.Keys - g.f.Keys, 1
    {
      hide TableInv, HeapInv, Laid, DoneInv, Reachable, SumSizes, Copyable, Size, Deep, ReachSet, Met, CopyBytes,
           Kind, Treat, Filling, PairsKept, ObjectsKept, Translate, Resolved, Failure, Quiet, HeapReady, Begun;
      ghost var s0, g0 := S(), g;
      r := Begin(ref);
      if !r.Copied? { return; }
      var y := r.ref;
      ghost var s1, g1 := S(), g;
      assert ref in src.Keys - g0.f.Keys && ref !in src.Keys - g1.f.Keys;
      assert WellFormedObj(t, src[ref]);
      r := FillObject(ref, y, s1, g1);
      if !r.Copied? { return; }
      ghost var g2 := g;
      g := g.(done := g.done + {ref});
      FilledIsDeep(src, t, maxCopied, s0, g0, s1, g1, S(), g2, ref, y, g);
      r := Copied(y);
    }

    /** copy_array: element by element for references, a memcpy for everything else. */
    method CopyArray(ref: Ref) returns (r: Outcome)
      requires Inv(src, t, maxCopied, S(), g) && Active(src, t, g.root) && Met(src, t, g.root, ref)
      requires ref in src && ref !in g.f && Treat(t, ref, src[ref]) == Duplicate
      requires Kind(src[ref].flags) == OBJFLAGS_ARRAY
      requires Counted() && (copied == [] ==> ref == g.root)
      modifies this
      ensures g == old(g).(f := g.f, done := g.done)
      ensures r.Copied? ==> Deep(src, t, maxCopied, old(S()), old(g), S(), g, ref, r.ref)
      ensures r.Copied? ==> Counted()
      ensures !r.Copied? ==> Failed(r)
      decreases src.Keys - g.f.Keys, 1
    {
      hide TableInv, HeapInv, Laid, DoneInv, Reachable, SumSizes, Copyable, Size, Deep, ReachSet, Met, CopyBytes,
           Kind, Treat, Filling, PairsKept, ObjectsKept, Translate, Resolved, Failure, Quiet, HeapReady, Begun;
      ghost var s0, g0 := S(), g;
      r := Begin(ref);
      if !r.Copied? { return; }
      var y := r.ref;
      ghost var s1, g1 := S(), g;
      assert ref in src.Keys - g0.f.Keys && ref !in src.Keys - g1.f.Keys;
      var o := src[ref];
      if IsReferenceArray(o.cls) {
        r := FillArray(ref, y, s1, g1);
        if !r.Copied? { return; }
      } else {
        assert WellFormedObj(t, o);
        var bytes := if o.cls.elementBytes == 1 then |o.data|
                     else if o.cls.elementBytes == 2 then 2 * |o.data|
                     else 4 * |o.data|;
        LeafIsFilling(src, t, maxCopied, s1, g1, ref, y);
        dst := dst[y := dst[y].(data := CopyBytes(o.data, bytes))];
        assert CopyBytes(o.data, bytes) == Raw(t, o);
      }
      ghost var g2 := g;
      g := g.(done := g.done + {ref});
      FilledIsDeep(src, t, maxCopied, s0, g0, s1, g1, S(), g2, ref, y, g);
      r := Copied(y);
    }

    /** copy_portal (of a service elsewhere) and copy_domainproxy: a proxy with the same words. */
    method CopyProxy(ref: Ref) returns (r: Outcome)
      requires Inv(src, t, maxCopied, S(), g) && Active(src, t, g.root) && Met(src, t, g.root, ref)
      requires ref in src && ref !in g.f && Treat(t, ref, src[ref]) == Duplicate
      requires Kind(src[ref].flags) == OBJFLAGS_PORTAL || Kind(src[ref].flags) == OBJFLAGS_DOMAIN
      requires Counted() && (copied == [] ==> ref == g.root)
      modifies this
      ensures g == old(g).(f := g.f, done := g.done)
      ensures r.Copied? ==> Deep(src, t, maxCopied, old(S()), old(g), S(), g, ref, r.ref)
      ensures r.Copied? ==> Counted()
      ensures !r.Copied? ==> Failed(r)
      decreases src.Keys - g.f.Keys, 1
    {
      hide TableInv, HeapInv, Laid, DoneInv, Reachable, SumSizes, Copyable, Size, Deep, ReachSet, Met, CopyBytes,
           Kind, Treat, Filling, PairsKept, ObjectsKept, Translate, Resolved, Failure, Quiet, HeapReady, Begun;
      ghost var s0, g0 := S(), g;
      r := Begin(ref);
      if !r.Copied? { return; }
      var y := r.ref;
      ghost var s1, g1 := S(), g;
      assert ref in src.Keys - g0.f.Keys && ref !in src.Keys - g1.f.Keys;
      LeafIsFilling(src, t, maxCopied, s1, g1, ref, y);
      dst := dst[y := dst[y].(data := src[ref].data)];
      ghost var g2 := g;
      g := g.(done := g.done + {ref});
      FilledIsDeep(src, t, maxCopied, s0, g0, s1, g1, S(), g2, ref, y, g);
      r := Copied(y);
    }

    /** copy_reference without NEW_COPY, with the table emptied as its callers do. */
    method CopyReference(srcDomain: nat, ref: Ref) returns (r: Outcome)
      requires WellFormed(src, t) && !t.scan && (ref == 0 || ref in src) && copied == [] && HeapReady(dst, heapTop)
      modifies this
      ensures srcDomain == t.id ==> r == Copied(ref) && S() == old(S()) && allocs == old(allocs)
      // a graph that can be copied is copied, unless the collector has to run
      ensures srcDomain != t.id ==>
                (r.Copied? <==>
                   && Copyable(src, t, ref, old(quota), maxCopied)
                   && Quiet(gc, old(allocs), old(allocs) + ObjectCount(src, t, ref)))
      ensures allocs >= old(allocs)
      ensures !r.Copied? ==> Failure(src, t, ref, maxCopied, old(quota), gc, old(allocs), r, quota, allocs)
      // the copy is complete and pays for exactly what it copied
      ensures srcDomain != t.id && r.Copied? ==>
                && IsCopy(src, t, ref, dst, r.ref, g.f)
                && quota + Cost(src, t, ref) == old(quota)
                && allocs == old(allocs) + ObjectCount(src, t, ref)
                && (forall x :: x in g.f ==> g.f[x] !in old(dst))
                && Laid(src, g.f, old(heapTop), heapTop)
      ensures ObjectsKept(old(dst), dst) && (!r.Copied? ==> HeapReady(dst, heapTop))
    {
      hide WellFormed, TableInv, HeapInv, Laid, DoneInv, Copyable, IsCopy, SumSizes, Met, PairsKept, Failure,
           HeapReady, Active, Cost, ObjectCount, Translate, Resolved;
      if srcDomain == t.id {
        return Copied(ref);
      }
      g := History(dst, ref, heapTop, quota, allocs, map[], {});
      InitInv(src, t, maxCopied, S(), ref, allocs);
      RootIsMet(src, t, ref);
      r := CopyReferenceInternal(ref);
      if r.Copied? {
        DoneIsCopy(src, t, maxCopied, S(), g, r.ref);
      } else {
        FailureIsNoCopy(src, t, ref, maxCopied, g.quota0, gc, g.allocs0, r, quota, allocs);
      }
    }

    /** Nothing was copied or charged. */
    twostate predicate Same()
      reads this
    {
      dst == old(dst) && heapTop == old(heapTop) && quota == old(quota) && allocs == old(allocs)
    }

    /** What receivers do: the copy is made again after every restart, from what is left of the
        quota. The trace tells what each attempt found. It terminates since none is free. */
    method CopyRetrying(srcDomain: nat, ref: Ref) returns (r: Outcome, ghost trace: seq<Attempt>)
      requires WellFormed(src, t) && !t.scan && (ref == 0 || ref in src) && HeapReady(dst, heapTop)
      modifies this
      ensures srcDomain == t.id ==> r == Copied(ref) && Same()
      ensures srcDomain != t.id ==>
                && Retried(Request(src, t, ref, maxCopied, gc), trace, r, Attempt(quota, allocs))
                && trace[0] == Attempt(old(quota), old(allocs))
      ensures srcDomain != t.id && r.Copied? ==>
                && IsCopy(src, t, ref, dst, r.ref, g.f)
                && ObjectsKept(old(dst), dst) && (forall x :: x in g.f ==> g.f[x] !in old(dst))
    {
      hide WellFormed, Copyable, IsCopy, Cost, HeapReady, Failure, Meets, ObjectCount, Treat, TooMuch, Chain, Quiet;
      ghost var q := Request(src, t, ref, maxCopied, gc);
      trace := [Attempt(quota, allocs)];
      assert Chain(q, trace) by { OneAttempt(q, trace); }
      while true
        invariant HeapReady(dst, heapTop) && ObjectsKept(old(dst), dst)
        invariant srcDomain == t.id ==> Same()
        invariant Chain(q, trace) && trace != [] && trace[|trace| - 1] == Attempt(quota, allocs)
        invariant trace[0] == Attempt(old(quota), old(allocs))
        decreases quota
      {
        ghost var x := Attempt(quota, allocs);
        copied := [];
        r := CopyReference(srcDomain, ref);
        if r.Copied? {
          break;
        }
        FailureIsNoCopy(q.h, t, ref, maxCopied, x.quota, gc, x.alloc, r, quota, allocs);
        if !r.Restart? {
          break;
        }
        ChainMore(q, trace, Attempt(quota, allocs));
        SizePositive(src[ref]);
        trace := trace + [Attempt(quota, allocs)];
      }
    }
  }
}
