/** What IsCopy promises a caller of kjvm/trunk/core/portal.c, spelled out with the numbers of
    kjvm/trunk/include/gc.h and the letters of class names: which words are references, what becomes
    of a reference to each kind of object, how the other words are moved, and what is charged. */
module CopyMeaning {
  import opened ObjectGraph
  import opened CopySpec

  /** The flag word masked with 0xfe. */
  ghost function Masked(flags: nat): int { flags % 0x100 - flags % 2 }

  /** The element of a reference array, or the slot of an object whose bit is set in the class's map. */
  ghost predicate HoldsReference(o: Obj, k: nat) {
    || (Masked(o.flags) == 0x16 && |o.cls.name| > 1 && o.cls.name[1] == 'L')
    || (&& Masked(o.flags) == 0x02 && k / 8 < |o.cls.refMap|
        && o.cls.refMap[k / 8] / [1, 2, 4, 8, 16, 32, 64, 128][k % 8] % 2 == 1)
  }

  /** A portal to a service of the destination. */
  ghost predicate LeadsHome(t: Target, o: Obj) {
    Masked(o.flags) == 0x04 && |o.data| == 3 && o.data[1] == t.id && o.data != [0, 0, 0]
  }

  /** Objects, arrays, domain proxies and portals to services of other domains get copies of their own. */
  ghost predicate NeedsCopy(t: Target, o: Obj) {
    Masked(o.flags) in {0x02, 0x04, 0x16, 0x28} && !LeadsHome(t, o)
  }

  /** Word v of the destination stands for reference w of the source. */
  ghost predicate StandsFor(h: Heap, t: Target, f: map<Ref, Ref>, w: Ref, v: Ref) {
    if w == 0 then v == 0
    else if w !in h then false
    else if NeedsCopy(t, h[w]) then w in f && v == f[w]
    else if LeadsHome(t, h[w]) then h[w].data[2] < |t.services| && v == t.services[h[w].data[2]]
    else v == w && (Masked(h[w].flags) == 0x18 || (Masked(h[w].flags) == 0x14 && !t.scan))
  }

  /** A word that is no reference, as it arrives. The recursive copier moves |data| bytes of a byte array
      and 2 * |data| of an array of 16 bit elements, although each element has four bytes. */
  ghost function Moved(t: Target, o: Obj, k: nat): nat
    requires k < |o.data|
  {
    var n := |o.data|;
    if t.scan || Masked(o.flags) != 0x16 || o.cls.elementBytes == 4 then o.data[k]
    else if o.cls.elementBytes == 2 then
      (if k < n / 2 then o.data[k] else if k == n / 2 then o.data[k] % [1, 0x1_0000][n % 2] else 0)
    else
      (if k < n / 4 then o.data[k] else if k == n / 4 then o.data[k] % [1, 0x100, 0x1_0000, 0x100_0000][n % 4] else 0)
  }

  /** Words of the heap that an object occupies. */
  ghost function Words(o: Obj): nat {
    if Masked(o.flags) == 0x16 then |o.data| + 5
    else if Masked(o.flags) == 0x02 then |o.data| + 4
    else if Masked(o.flags) == 0x04 then 6
    else 5
  }

  /** Masking drops the low bit and all beyond the first byte. */
  lemma KindIsMasked(flags: nat)
    ensures Kind(flags) == Masked(flags)
  {
    var q, r := flags / 0x100, flags % 0x100;
    assert flags / 2 == 0x80 * q + r / 2 && flags % 2 == r % 2;
  }

  lemma PowersOfTwo()
    ensures Pow2(0) == 1 && Pow2(1) == 2 && Pow2(2) == 4 && Pow2(3) == 8
    ensures Pow2(4) == 16 && Pow2(5) == 32 && Pow2(6) == 64 && Pow2(7) == 128
  {
    assert Pow2(4) == 16;
  }

  /** Which words are references. */
  lemma ReferencesAre(o: Obj, k: nat)
    ensures RefSlot(o, k) <==> HoldsReference(o, k)
  {
    KindIsMasked(o.flags);
    PowersOfTwo();
    assert Pow2(k % 8) == [1, 2, 4, 8, 16, 32, 64, 128][k % 8];
  }

  /** What is done with an object of each kind: atomic variables raise an exception, kinds that no
      copier knows stop the system, and so does a CPU descriptor that the scan copier meets. */
  lemma KindsAre(t: Target, w: Ref, o: Obj)
    requires WellFormedObj(t, o)
    ensures Treat(t, w, o) == Duplicate <==> NeedsCopy(t, o)
    ensures Treat(t, w, o) == Throw <==> Masked(o.flags) == 0x0a
    ensures Treat(t, w, o) == Panic <==>
              Masked(o.flags) !in {0x02, 0x04, 0x16, 0x18, 0x28, 0x0a} && (Masked(o.flags) == 0x14 ==> t.scan)
    ensures LeadsHome(t, o) ==> o.data[2] < |t.services| && Treat(t, w, o) == Reuse(t.services[o.data[2]])
    ensures Masked(o.flags) == 0x18 ==> Treat(t, w, o) == Reuse(w)
    ensures Masked(o.flags) == 0x14 && !t.scan ==> Treat(t, w, o) == Reuse(w)
  {
    KindIsMasked(o.flags);
    if Masked(o.flags) == 0x04 {
      assert |o.data| == 3 && o.data == [o.data[0], o.data[1], o.data[2]];
      assert IsHomePortal(t, o) <==> LeadsHome(t, o);
    }
  }

  lemma TranslationsAre(h: Heap, t: Target, f: map<Ref, Ref>, w: Ref)
    requires WellFormed(h, t) && Resolved(h, t, f, w)
    requires forall x :: x in f ==> x in h && Treat(t, x, h[x]) == Duplicate
    ensures StandsFor(h, t, f, w, Translate(h, t, f, w))
  {
    hide Treat, Masked, RefSlot, Kind, IsHomePortal;
    if w != 0 {
      KindsAre(t, w, h[w]);
      assert WellFormedObj(t, h[w]);
    }
  }

  lemma CopiedAreDuplicates(h: Heap, t: Target, root: Ref, d: Heap, r: Ref, f: map<Ref, Ref>)
    requires WellFormed(h, t) && IsCopy(h, t, root, d, r, f)
    ensures forall x :: x in f ==> x in h && Treat(t, x, h[x]) == Duplicate
  {
    hide Treat, Kind, RefSlot, WellFormedObj;
    var s := set x | x in h && Treat(t, x, h[x]) == Duplicate;
    if Active(h, t, root) {
      assert root in s && Closed(h, t, s);
    }
  }

  /** The copy's words: references lead to the copies, or to what takes their place. */
  lemma ReferencesFollow(h: Heap, t: Target, root: Ref, d: Heap, r: Ref, f: map<Ref, Ref>, x: Ref, k: nat)
    requires WellFormed(h, t) && IsCopy(h, t, root, d, r, f)
    requires x in f && x in h && k < |h[x].data| && HoldsReference(h[x], k)
    ensures f[x] in d && k < |d[f[x]].data| && StandsFor(h, t, f, h[x].data[k], d[f[x]].data[k])
  {
    hide Treat, Masked, Reachable, Kind, HoldsReference, RefSlot, StandsFor, WellFormedObj, Translate;
    ReferencesAre(h[x], k);
    CopiedAreDuplicates(h, t, root, d, r, f);
    TranslationsAre(h, t, f, h[x].data[k]);
  }

  /** The words that are no references arrive as the copier moves them. */
  lemma OthersMove(h: Heap, t: Target, root: Ref, d: Heap, r: Ref, f: map<Ref, Ref>, x: Ref, k: nat)
    requires WellFormed(h, t) && IsCopy(h, t, root, d, r, f)
    requires x in f && x in h && k < |h[x].data| && !HoldsReference(h[x], k)
    ensures f[x] in d && k < |d[f[x]].data| && d[f[x]].data[k] == Moved(t, h[x], k)
  {
    hide Treat, Masked, Reachable, Kind, HoldsReference, RefSlot, Translate, CopyBytes, Resolved;
    ReferencesAre(h[x], k);
    assert d[f[x]].data[k] == Raw(t, h[x])[k];
    RawIsMoved(t, h[x], k);
  }

  lemma RawIsMoved(t: Target, o: Obj, k: nat)
    requires k < |o.data| && !HoldsReference(o, k) && WellFormedObj(t, o)
    ensures Raw(t, o)[k] == Moved(t, o, k)
  {
    hide Masked, MapBit;
    KindIsMasked(o.flags);
    if !t.scan && Masked(o.flags) == 0x16 {
      assert !IsReferenceArray(o.cls);
      BytesAreMoved(o.data, o.cls.elementBytes, k);
    }
  }

  lemma BytesAreMoved(data: seq<nat>, e: nat, k: nat)
    requires k < |data|
    ensures e == 4 ==> CopyBytes(data, |data| * e)[k] == data[k]
    ensures e == 2 ==> CopyBytes(data, |data| * e)[k] ==
                         if k < |data| / 2 then data[k]
                         else if k == |data| / 2 then data[k] % [1, 0x1_0000][|data| % 2]
                         else 0
    ensures e == 1 ==> CopyBytes(data, |data| * e)[k] ==
                         if k < |data| / 4 then data[k]
                         else if k == |data| / 4 then data[k] % [1, 0x100, 0x1_0000, 0x100_0000][|data| % 4]
                         else 0
  {
    MorePowersOfTwo();
  }

  lemma MorePowersOfTwo()
    ensures Pow2(8) == 0x100 && Pow2(16) == 0x1_0000 && Pow2(24) == 0x100_0000
  {
    PowersOfTwo();
    assert Pow2(12) == 0x1000 && Pow2(18) == 0x4_0000;
  }

  /** The header of a copy, which is no other object's copy, and what stands for the root. */
  lemma HeadersFollow(h: Heap, t: Target, root: Ref, d: Heap, r: Ref, f: map<Ref, Ref>, x: Ref, y: Ref)
    requires WellFormed(h, t) && IsCopy(h, t, root, d, r, f)
    ensures StandsFor(h, t, f, root, r)
    ensures x in f && y in f && x != y ==> f[x] != f[y]
    ensures x in f ==>
              && x in h && NeedsCopy(t, h[x]) && f[x] in d
              && d[f[x]].flags == Masked(h[x].flags) && d[f[x]].cls == h[x].cls && |d[f[x]].data| == |h[x].data|
  {
    hide Treat, Masked, Reachable, Kind, RefSlot, StandsFor, Translate, WellFormedObj, NeedsCopy;
    CopiedAreDuplicates(h, t, root, d, r, f);
    TranslationsAre(h, t, f, root);
    if x in f {
      KindIsMasked(h[x].flags);
      assert WellFormedObj(t, h[x]);
      KindsAre(t, x, h[x]);
    }
  }

  /** Slot k of x refers to an object that needs a copy. */
  ghost predicate LeadsOn(h: Heap, t: Target, x: Ref, k: nat) {
    x in h && k < |h[x].data| && HoldsReference(h[x], k) && h[x].data[k] in h && NeedsCopy(t, h[h[x].data[k]])
  }

  lemma EdgesAre(h: Heap, t: Target, x: Ref, k: nat)
    requires WellFormed(h, t)
    ensures Edge(h, t, x, k) <==> LeadsOn(h, t, x, k)
  {
    hide Treat, Masked, Kind, RefSlot, HoldsReference, NeedsCopy;
    if x in h && k < |h[x].data| {
      ReferencesAre(h[x], k);
      var w := h[x].data[k];
      if w in h {
        assert WellFormedObj(t, h[w]);
        KindsAre(t, w, h[w]);
      }
    }
  }

  /** A set that has the root, if it needs a copy, and whatever its members lead on to. */
  ghost predicate HoldsAll(h: Heap, t: Target, root: Ref, s: set<Ref>) {
    && (root in h && NeedsCopy(t, h[root]) ==> root in s)
    && forall x, k: nat :: x in s && LeadsOn(h, t, x, k) ==> h[x].data[k] in s
  }

  /** The objects copied are the smallest such set: nothing is left behind, nothing else is copied. */
  lemma NothingElse(h: Heap, t: Target, root: Ref, d: Heap, r: Ref, f: map<Ref, Ref>, s: set<Ref>)
    requires WellFormed(h, t) && IsCopy(h, t, root, d, r, f)
    ensures HoldsAll(h, t, root, f.Keys) && (HoldsAll(h, t, root, s) ==> f.Keys <= s)
  {
    hide Treat, RefSlot, WellFormedObj, NeedsCopy, HoldsReference, Filled, Edge;
    assert Active(h, t, root) <==> root in h && NeedsCopy(t, h[root]) by {
      if root in h {
        assert WellFormedObj(t, h[root]);
        KindsAre(t, root, h[root]);
      }
    }
    forall x, k: nat ensures Edge(h, t, x, k) <==> LeadsOn(h, t, x, k) {
      EdgesAre(h, t, x, k);
    }
    forall x, k: nat | x in f && LeadsOn(h, t, x, k) ensures h[x].data[k] in f {
      ReachStep(h, t, root, x, k);
    }
    if HoldsAll(h, t, root, s) && Active(h, t, root) {
      assert Closed(h, t, s);
    }
  }

  /** What a set of objects costs is the sum of their words. */
  lemma {:induction false} WordsAddUp(h: Heap, s: set<Ref>, x: Ref)
    requires s <= h.Keys
    ensures SumSizes(h, {}) == 0
    ensures x in s ==> SumSizes(h, s) == Words(h[x]) + SumSizes(h, s - {x})
  {
    NoSizes(h);
    if x in s {
      KindIsMasked(h[x].flags);
      SumRemove(h, s, x);
    }
  }

  /** Copies take so many words, the first two in front of their addresses, and do not overlap. */
  lemma NoOverlap(h: Heap, f: map<Ref, Ref>, from: nat, to: nat, x: Ref, y: Ref, a: nat)
    requires Laid(h, f, from, to) && x in f && y in f
    ensures x in h && y in h && from <= f[x] - 8 && f[x] - 8 + 4 * Words(h[x]) <= to
    ensures x != y && f[x] - 8 <= a < f[x] - 8 + 4 * Words(h[x]) ==> !(f[y] - 8 <= a < f[y] - 8 + 4 * Words(h[y]))
  {
    hide Masked;
    KindIsMasked(h[x].flags);
    KindIsMasked(h[y].flags);
  }

  /** The quota pays for exactly the objects that are copied, one allocation for each. */
  lemma {:induction false} CostIsWords(h: Heap, t: Target, root: Ref, d: Heap, r: Ref, f: map<Ref, Ref>)
    requires WellFormed(h, t) && IsCopy(h, t, root, d, r, f)
    ensures f.Keys <= h.Keys && Cost(h, t, root) == SumSizes(h, f.Keys) && ObjectCount(h, t, root) == |f|
  {
    hide Treat, RefSlot, Reachable, WellFormedObj;
    NoSizes(h);
  }
}
