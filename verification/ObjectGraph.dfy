/** The object graph that a portal call copies from one domain's heap to another's:
    objects with flag words, which words of an object are references, what becomes of
    each kind of object, and reachability over the objects that must be duplicated. */
module ObjectGraph {

  type Ref = nat // an address; 0 is NULL

  /** `refMap` is the bitmap of reference slots (a byte per eight slots), `name` the JVM
      class name and `elementBytes` the width of an array element (1, 2 or 4). */
  datatype ClassDesc = ClassDesc(name: string, refMap: seq<nat>, elementBytes: nat)

  datatype Obj = Obj(flags: nat, cls: ClassDesc, data: seq<nat>)

  type Heap = map<Ref, Obj>

  const OBJFLAGS_OBJECT := 0x02
  const OBJFLAGS_PORTAL := 0x04
  const OBJFLAGS_MEMORY := 0x06
  const OBJFLAGS_ATOMVAR := 0x0a
  const OBJFLAGS_CPUSTATE := 0x0e
  const OBJFLAGS_EXTERNAL_CPUDESC := 0x14
  const OBJFLAGS_ARRAY := 0x16
  const OBJFLAGS_EXTERNAL_STRING := 0x18
  const OBJFLAGS_DOMAIN := 0x28

  const XMOFF := 1 // one magic word in front of every object

  /** flags & FLAGS_MASK, with FLAGS_MASK 0xfe */
  function Kind(flags: nat): nat { 2 * (flags / 2 % 0x80) }

  /** The destination domain as a copier sees it: its id and the objects behind its
      services. `scan` tells the scan-pointer copier (NEW_COPY) from the recursive one. */
  datatype Target = Target(id: nat, services: seq<Ref>, scan: bool)

  // ---------------------------------------------------------------- object layout

  function Pow2(n: nat): (p: nat)
    ensures p > 0
  {
    if n == 0 then 1 else 2 * Pow2(n - 1)
  }

  /** Bit k of a class's reference map. */
  predicate MapBit(bits: seq<nat>, k: nat) {
    k / 8 < |bits| && bits[k / 8] / Pow2(k % 8) % 2 == 1
  }

  lemma HalfOfQuotient(b: nat, e: nat)
    ensures b / Pow2(e) / 2 == b / Pow2(e + 1)
  {
    var p := Pow2(e);
    var q, r := b / p, b % p;
    assert b == q * p + r;
    var c := q % 2;
    assert q == 2 * (q / 2) + c;
    assert b == (q / 2) * (2 * p) + (c * p + r) by {
      assert q * p == (2 * (q / 2)) * p + c * p;
    }
    assert 0 <= c * p + r < 2 * p by { if c == 0 {} else { assert c == 1; } }
    QuotientUnique(b, 2 * p, q / 2, c * p + r);
  }

  lemma QuotientUnique(b: nat, d: nat, q: nat, r: nat)
    requires d > 0 && b == q * d + r && r < d
    ensures b / d == q
  {
    var q' := b / d;
    assert q' * d <= b < q' * d + d;
    if q' < q {
      MulMonotone(q' + 1, q, d);
    } else if q < q' {
      MulMonotone(q + 1, q', d);
    }
  }

  lemma MulMonotone(a: nat, b: nat, d: nat)
    requires a <= b
    ensures a * d <= b * d
  {
  }

  /** The copiers' loops read bit k as the low bit of the map byte halved k % 8 times. */
  ghost predicate BitAt(bits: seq<nat>, k: nat, b: nat) {
    k / 8 < |bits| && b == bits[k / 8] / Pow2(k % 8)
  }

  lemma FirstBit(bits: seq<nat>, k: nat)
    requires k % 8 == 0 && k / 8 < |bits|
    ensures BitAt(bits, k, bits[k / 8])
  {
    assert Pow2(k % 8) == 1;
  }

  lemma NextBit(bits: seq<nat>, k: nat, b: nat)
    requires BitAt(bits, k, b)
    ensures MapBit(bits, k) <==> b % 2 == 1
    ensures (k + 1) % 8 != 0 ==> BitAt(bits, k + 1, b / 2)
  {
    HalfOfQuotient(bits[k / 8], k % 8);
    if (k + 1) % 8 != 0 {
      assert (k + 1) / 8 == k / 8 && (k + 1) % 8 == k % 8 + 1;
    }
  }

  predicate IsReferenceArray(c: ClassDesc) { |c.name| > 1 && c.name[1] == 'L' }

  predicate RefSlot(o: Obj, k: nat) {
    if Kind(o.flags) == OBJFLAGS_OBJECT then MapBit(o.cls.refMap, k)
    else Kind(o.flags) == OBJFLAGS_ARRAY && IsReferenceArray(o.cls)
  }

  /** Heap words an object occupies, which is also what it costs of the quota. */
  function Size(o: Obj): nat {
    if Kind(o.flags) == OBJFLAGS_ARRAY then |o.data| + XMOFF + 4
    else if Kind(o.flags) == OBJFLAGS_OBJECT then |o.data| + XMOFF + 3
    else if Kind(o.flags) == OBJFLAGS_PORTAL then XMOFF + 5
    else XMOFF + 4
  }

  lemma SizePositive(o: Obj)
    ensures Size(o) > 0
  {
  }

  /** memcpy of the first `bytes` bytes of `data` over zeroed words (little endian). */
  function CopyBytes(data: seq<nat>, bytes: nat): (r: seq<nat>)
    ensures |r| == |data|
  {
    seq(|data|, i requires 0 <= i < |data| =>
      if 4 * (i + 1) <= bytes then data[i]
      else if bytes <= 4 * i then 0
      else data[i] % Pow2(8 * (bytes - 4 * i)))
  }

  /** What a copier's memcpy leaves in the non-reference words. The scan copier moves
      every word. The recursive copier moves `size * elementBytes` bytes although each
      element occupies a whole word in this layout (ALL_ARRAYS_32BIT). */
  function Raw(t: Target, o: Obj): (r: seq<nat>)
    ensures |r| == |o.data|
  {
    if !t.scan && Kind(o.flags) == OBJFLAGS_ARRAY && !IsReferenceArray(o.cls)
    then CopyBytes(o.data, |o.data| * o.cls.elementBytes)
    else o.data
  }

  // ---------------------------------------------------------------- treatment

  datatype Treatment = Duplicate | Reuse(ref: Ref) | Throw | Panic

  /** A portal to a service of the destination domain itself. */
  predicate IsHomePortal(t: Target, o: Obj)
    requires |o.data| == 3
  {
    o.data[1] == t.id && !(o.data[1] == 0 && o.data[0] == 0 && o.data[2] == 0)
  }

  predicate WellFormedObj(t: Target, o: Obj) {
    && o.flags % 2 == 0
    && Kind(o.flags) != OBJFLAGS_MEMORY && Kind(o.flags) != OBJFLAGS_CPUSTATE
    && (Kind(o.flags) == OBJFLAGS_OBJECT ==> |o.data| <= 8 * |o.cls.refMap|)
    && (Kind(o.flags) == OBJFLAGS_PORTAL ==>
          |o.data| == 3 && (IsHomePortal(t, o) ==> o.data[2] < |t.services|))
    && (Kind(o.flags) == OBJFLAGS_DOMAIN ==> |o.data| == 2)
    && (Kind(o.flags) == OBJFLAGS_ARRAY ==> o.cls.elementBytes in {1, 2, 4})
  }

  function Treat(t: Target, r: Ref, o: Obj): Treatment
    requires WellFormedObj(t, o)
  {
    var kind := Kind(o.flags);
    if kind == OBJFLAGS_OBJECT || kind == OBJFLAGS_ARRAY || kind == OBJFLAGS_DOMAIN then Duplicate
    else if kind == OBJFLAGS_PORTAL then
      if IsHomePortal(t, o) then Reuse(t.services[o.data[2]]) else Duplicate
    else if kind == OBJFLAGS_EXTERNAL_STRING then Reuse(r)
    else if kind == OBJFLAGS_EXTERNAL_CPUDESC then (if t.scan then Panic else Reuse(r))
    else if kind == OBJFLAGS_ATOMVAR then Throw
    else Panic
  }

  ghost predicate WellFormed(h: Heap, t: Target) {
    && 0 !in h
    && (forall r :: r in h ==> WellFormedObj(t, h[r]))
    && (forall r, k :: r in h && 0 <= k < |h[r].data| && RefSlot(h[r], k) ==>
          h[r].data[k] == 0 || h[r].data[k] in h)
  }

  // ---------------------------------------------------------------- reachability

  /** Slot k of x refers to an object that has to be duplicated. */
  ghost predicate Edge(h: Heap, t: Target, x: Ref, k: nat)
    requires WellFormed(h, t)
  {
    && x in h && k < |h[x].data| && RefSlot(h[x], k)
    && h[x].data[k] != 0 && Treat(t, h[x].data[k], h[h[x].data[k]]) == Duplicate
  }

  ghost predicate Closed(h: Heap, t: Target, s: set<Ref>)
    requires WellFormed(h, t)
  {
    forall x, k: nat :: x in s && Edge(h, t, x, k) ==> h[x].data[k] in s
  }

  /** x belongs to every closed set around the root. */
  ghost predicate Reachable(h: Heap, t: Target, root: Ref, x: Ref)
    requires WellFormed(h, t)
  {
    forall s: set<Ref> :: root in s && Closed(h, t, s) ==> x in s
  }

  ghost function ReachSet(h: Heap, t: Target, root: Ref): set<Ref>
    requires WellFormed(h, t)
  {
    set x | x in h && Reachable(h, t, root, x)
  }

  lemma ReachStep(h: Heap, t: Target, root: Ref, x: Ref, k: nat)
    requires WellFormed(h, t) && Reachable(h, t, root, x) && Edge(h, t, x, k)
    ensures Reachable(h, t, root, h[x].data[k])
  {
    forall s: set<Ref> | root in s && Closed(h, t, s) ensures h[x].data[k] in s {
      assert x in s;
    }
  }

  /** A closed set of reachable objects around the root is the set of reachable objects. */
  lemma ReachSetUnique(h: Heap, t: Target, root: Ref, s: set<Ref>)
    requires WellFormed(h, t)
    requires root in s && Closed(h, t, s) && s <= h.Keys
    requires forall x :: x in s ==> Reachable(h, t, root, x)
    ensures s == ReachSet(h, t, root)
  {
  }

  // ---------------------------------------------------------------- sizes

  ghost function SumSizes(h: Heap, s: set<Ref>): nat
    requires s <= h.Keys
  {
    if s == {} then 0 else var x :| x in s; Size(h[x]) + SumSizes(h, s - {x})
  }

  lemma {:induction false} SumRemove(h: Heap, s: set<Ref>, x: Ref)
    requires s <= h.Keys && x in s
    ensures SumSizes(h, s) == Size(h[x]) + SumSizes(h, s - {x})
    decreases s
  {
    var y :| y in s && SumSizes(h, s) == Size(h[y]) + SumSizes(h, s - {y});
    if y != x {
      SumRemove(h, s - {y}, x);
      SumRemove(h, s - {x}, y);
      assert s - {y} - {x} == s - {x} - {y};
    }
  }

  lemma {:induction false} SumAdd(h: Heap, s: set<Ref>, x: Ref)
    requires s <= h.Keys && x in h && x !in s
    ensures SumSizes(h, s + {x}) == SumSizes(h, s) + Size(h[x])
  {
    SumRemove(h, s + {x}, x);
    assert s + {x} - {x} == s;
  }

  lemma {:induction false} SumMonotone(h: Heap, s: set<Ref>, s': set<Ref>)
    requires s <= s' <= h.Keys
    ensures SumSizes(h, s) <= SumSizes(h, s')
    decreases s'
  {
    if s != s' {
      var x :| x in s' && x !in s;
      SumRemove(h, s', x);
      SumMonotone(h, s, s' - {x});
    }
  }

  lemma {:induction false} CardinalityMonotone(s: set<Ref>, s': set<Ref>)
    requires s <= s'
    ensures |s| <= |s'|
    decreases s'
  {
    if s != s' {
      var x :| x in s' && x !in s;
      CardinalityMonotone(s, s' - {x});
    }
  }
}
