/** Inputs on which the copiers of kjvm/trunk/core/portal.c do less than they are meant to. */
module CopyFailures {
  import opened ObjectGraph
  import opened CopyRetries
  import opened CopySpec
  import opened CopyTheorems
  import RecursiveCopy
  import ScanCopy

  const TARGET := Target(7, [], true)
  const OBJECT_CLASS := ClassDesc("LNode;", [1], 4)
  const ATOMVAR_CLASS := ClassDesc("LAtomicVariable;", [], 4)

  // ---------------------------------------------------------------- exceptions

  /** An object whose only slot refers to an atomic variable. */
  const ATOMVAR_BEHIND: Heap :=
    map[8 := Obj(OBJFLAGS_OBJECT, OBJECT_CLASS, [16]), 16 := Obj(OBJFLAGS_ATOMVAR, ATOMVAR_CLASS, [])]

  /** The object is duplicated, the variable throws, and nothing else is met. */
  lemma AtomvarIsMet()
    ensures WellFormed(ATOMVAR_BEHIND, TARGET) && Active(ATOMVAR_BEHIND, TARGET, 8)
    ensures Meets(ATOMVAR_BEHIND, TARGET, 8, Throw) && !TooMuch(ATOMVAR_BEHIND, TARGET, 8, 100, 100)
  {
    var h := ATOMVAR_BEHIND;
    assert Kind(OBJFLAGS_OBJECT) == OBJFLAGS_OBJECT && Kind(OBJFLAGS_ATOMVAR) == OBJFLAGS_ATOMVAR;
    assert Pow2(0) == 1 && MapBit(OBJECT_CLASS.refMap, 0);
    assert WellFormed(h, TARGET);
    assert Closed(h, TARGET, {8});
    ReachSetUnique(h, TARGET, 8, {8});
    SumRemove(h, {8}, 8);
    assert {8} - {8} == {};
    NoSizes(h);
    assert Reachable(h, TARGET, 8, 8) && RefSlot(h[8], 0) && h[8].data[0] == 16;
    assert Met(h, TARGET, 8, 16);
  }

  /** The exception leaves the object's flag word overwritten with a forwarding pointer. */
  method ThrowsAndForgets() returns (r: Outcome, src: Heap)
    ensures r == Thrown && src != ATOMVAR_BEHIND
  {
    AtomvarIsMet();
    hide WellFormed, Active, Meets, TooMuch, ScanCopy.Restorable;
    var c := new ScanCopy.ScanCopier(TARGET, 100, ATOMVAR_BEHIND, map[], 4, 100, _ => Idle);
    r := c.CopyReference(1, 8);
    CopyableIff(ATOMVAR_BEHIND, TARGET, 8, 100, 100);
    src := c.src;
  }

  // ---------------------------------------------------------------- restarts

  const LONE_OBJECT: Heap := map[8 := Obj(OBJFLAGS_OBJECT, ClassDesc("LNode;", [], 4), [])]

  lemma LoneObjectFits()
    ensures WellFormed(LONE_OBJECT, TARGET) && Active(LONE_OBJECT, TARGET, 8)
    ensures Size(LONE_OBJECT[8]) == Cost(LONE_OBJECT, TARGET, 8) == 4 && ObjectCount(LONE_OBJECT, TARGET, 8) == 1
    ensures Copyable(LONE_OBJECT, TARGET, 8, 7, 100) && !Meets(LONE_OBJECT, TARGET, 8, Throw)
  {
    var h := LONE_OBJECT;
    assert Kind(OBJFLAGS_OBJECT) == OBJFLAGS_OBJECT;
    assert WellFormed(h, TARGET);
    assert Closed(h, TARGET, {8});
    ReachSetUnique(h, TARGET, 8, {8});
    SumRemove(h, {8}, 8);
    assert {8} - {8} == {};
    NoSizes(h);
    CopyableIff(h, TARGET, 8, 7, 100);
  }

  /** An object of four words is copied with a quota of seven, but not if the collector has to
      run once: the vain attempt was charged, and three words are left. */
  method RestartEatsQuota() returns (r: Outcome)
    ensures Copyable(LONE_OBJECT, TARGET, 8, 7, 100) && r == Panicked
  {
    LoneObjectFits();
    r := ScanStarved(TARGET, 100, LONE_OBJECT, 8, 7, 1, 1);
  }

  /** The scan-pointer copier at its worst: any graph that fits the quota ends in a panic under
      some collector that finds memory no more than n times, if n + 1 copies do not fit. */
  method ScanStarved(t: Target, maxCopied: nat, src: Heap, ref: Ref, quota: nat, n: nat, count: nat)
    returns (r: Outcome)
    requires WellFormed(src, t) && t.scan && ref in src && Copyable(src, t, ref, quota, maxCopied)
    requires count == ObjectCount(src, t, ref) && quota < (n + 1) * Cost(src, t, ref)
    ensures r == Panicked
  {
    IsActive(src, t, ref, quota, n);
    hide WellFormed, Copyable, Cost, ObjectCount, Retried, Starving;
    var c := new ScanCopy.ScanCopier(t, maxCopied, src, map[], 4, quota, Starving(0, count, n));
    ghost var trace: seq<Attempt>;
    r, trace := c.CopyRetrying(t.id + 1, ref);
    StarvedPanics(Request(src, t, ref, maxCopied, c.gc), trace, r, Attempt(c.quota, c.allocs), n);
  }

  /** The recursive copier at its worst. */
  method RecursiveStarved(t: Target, maxCopied: nat, src: Heap, ref: Ref, quota: nat, n: nat, count: nat)
    returns (r: Outcome)
    requires WellFormed(src, t) && !t.scan && ref in src && Copyable(src, t, ref, quota, maxCopied)
    requires count == ObjectCount(src, t, ref) && quota < (n + 1) * Cost(src, t, ref)
    ensures r == Panicked
  {
    IsActive(src, t, ref, quota, n);
    hide WellFormed, Copyable, Cost, ObjectCount, Retried, Starving;
    var c := new RecursiveCopy.RecursiveCopier(t, maxCopied, src, map[], 4, quota, Starving(0, count, n));
    ghost var trace: seq<Attempt>;
    r, trace := c.CopyRetrying(t.id + 1, ref);
    StarvedPanics(Request(src, t, ref, maxCopied, c.gc), trace, r, Attempt(c.quota, c.allocs), n);
  }

  lemma IsActive(h: Heap, t: Target, root: Ref, quota: nat, n: nat)
    requires WellFormed(h, t) && quota < (n + 1) * Cost(h, t, root)
    ensures Active(h, t, root) && ObjectCount(h, t, root) > 0
  {
    NotZero(n + 1, Cost(h, t, root));
    RootIsReached(h, t, root);
  }

  // ---------------------------------------------------------------- CPU descriptors

  const CPU_DESCRIPTOR: Heap := map[8 := Obj(OBJFLAGS_EXTERNAL_CPUDESC, ClassDesc("LCPUDesc;", [], 4), [])]

  lemma OnlyOneShares(t: Target)
    ensures WellFormed(CPU_DESCRIPTOR, t) && !Active(CPU_DESCRIPTOR, t, 8)
    ensures Copyable(CPU_DESCRIPTOR, t, 8, 100, 100) <==> !t.scan
    ensures !Meets(CPU_DESCRIPTOR, t, 8, Throw)
  {
    var h := CPU_DESCRIPTOR;
    assert Kind(OBJFLAGS_EXTERNAL_CPUDESC) == OBJFLAGS_EXTERNAL_CPUDESC;
    assert WellFormed(h, t);
  }

  /** A CPU descriptor is shared by one copier and a panic for the other. */
  method CpuDescriptor() returns (recursive: Outcome, scan: Outcome)
    ensures recursive == Copied(8) && scan == Panicked
  {
    OnlyOneShares(TARGET);
    OnlyOneShares(TARGET.(scan := false));
    hide WellFormed, Active, Meets, TooMuch, Copyable;
    var c := new RecursiveCopy.RecursiveCopier(TARGET.(scan := false), 100, CPU_DESCRIPTOR, map[], 4, 100, _ => Idle);
    recursive := c.CopyReference(1, 8);
    var c' := new ScanCopy.ScanCopier(TARGET, 100, CPU_DESCRIPTOR, map[], 4, 100, _ => Idle);
    scan := c'.CopyReference(1, 8);
  }

  // ---------------------------------------------------------------- references

  /** An array of arrays with one element. */
  const NESTED: Heap :=
    map[8 := Obj(OBJFLAGS_ARRAY, ClassDesc("[[I", [], 4), [16]), 16 := Obj(OBJFLAGS_ARRAY, ClassDesc("[I", [], 4), [])]

  lemma NestedFits()
    ensures WellFormed(NESTED, TARGET) && Copyable(NESTED, TARGET, 8, 100, 100)
  {
    var h := NESTED;
    assert Kind(OBJFLAGS_ARRAY) == OBJFLAGS_ARRAY;
    assert WellFormed(h, TARGET);
    assert Closed(h, TARGET, {8});
    ReachSetUnique(h, TARGET, 8, {8});
    SumRemove(h, {8}, 8);
    assert {8} - {8} == {};
    NoSizes(h);
  }

  /** Its copy goes on pointing to the element in the source heap. */
  lemma NestedLosesReference(d: Heap, r: Ref, f: map<Ref, Ref>)
    requires WellFormed(NESTED, TARGET) && IsCopy(NESTED, TARGET, 8, d, r, f) && f.Values !! NESTED.Keys
    ensures !KeepsReferences(NESTED, TARGET, f, d)
    ensures r in d && d[r].data == [16]
  {
    var h := NESTED;
    assert Kind(OBJFLAGS_ARRAY) == OBJFLAGS_ARRAY;
    assert WellTyped(h, TARGET);
    assert Active(h, TARGET, 8) && Reachable(h, TARGET, 8, 8);
    assert 8 in f && Filled(h, TARGET, f, d, 8, f[8], 1);
    assert NestedArray(h[8]) && h[8].data[0] == 16;
    assert d[r].data[0] == SlotValue(h, TARGET, f, 8, 0) == 16;
    ReferencesKeptIff(h, TARGET, 8, d, r, f);
  }

  /** A run of the copier: the element of the new array of arrays is an address of the source heap, at
      which the destination, too, has an object, but a different one. */
  method NestedCopied() returns (r: Outcome, dst: Heap)
    ensures r.Copied? && r.ref in dst && dst[r.ref].data == [16] && 16 in dst && dst[16] != NESTED[16]
  {
    NestedFits();
    hide WellFormed, Copyable, IsCopy, Meets, TooMuch, Cost, ObjectCount, KeepsReferences;
    var other := Obj(OBJFLAGS_OBJECT, OBJECT_CLASS, [0]);
    var c := new ScanCopy.ScanCopier(TARGET, 100, NESTED, map[8 := other, 16 := other], 12, 100, _ => Idle);
    r := c.CopyReference(1, 8);
    assert c.g.f.Values !! NESTED.Keys by {
      assert forall x :: x in c.g.f ==> c.g.f[x] != 8 && c.g.f[x] != 16;
      assert NESTED.Keys == {8, 16};
    }
    NestedLosesReference(c.dst, r.ref, c.g.f);
    dst := c.dst;
  }
}
