/** What the contracts of the two copiers say about each other and about the graphs they
    are given: when the two agree, and when a copy keeps every reference of its original. */
module CopyTheorems {
  import opened ObjectGraph
  import opened CopySpec

  // ---------------------------------------------------------------- the two copiers agree

  /** Both variants follow the same references. */
  lemma SameReach(h: Heap, t: Target, t': Target, root: Ref)
    requires WellFormed(h, t) && t' == t.(scan := t'.scan)
    ensures WellFormed(h, t')
    ensures ReachSet(h, t, root) == ReachSet(h, t', root)
    ensures Active(h, t, root) == Active(h, t', root)
  {
    SameWellFormed(h, t, t');
    hide Kind, RefSlot;
    forall x, k: nat ensures Edge(h, t, x, k) == Edge(h, t', x, k) {
      if x in h && k < |h[x].data| && RefSlot(h[x], k) && h[x].data[k] != 0 {
        SameDuplicates(t, t', h[x].data[k], h[h[x].data[k]]);
      }
    }
    forall s: set<Ref> ensures Closed(h, t, s) == Closed(h, t', s) {
    }
    if root in h { SameDuplicates(t, t', root, h[root]); }
  }

  lemma SameWellFormed(h: Heap, t: Target, t': Target)
    requires WellFormed(h, t) && t' == t.(scan := t'.scan)
    ensures WellFormed(h, t')
  {
  }

  lemma SameDuplicates(t: Target, t': Target, r: Ref, o: Obj)
    requires WellFormedObj(t, o) && t' == t.(scan := t'.scan)
    ensures WellFormedObj(t', o)
    ensures Treat(t, r, o) == Duplicate <==> Treat(t', r, o) == Duplicate
    ensures Treat(t, r, o).Reuse? && Treat(t', r, o).Reuse? ==> Treat(t, r, o) == Treat(t', r, o)
  {
  }

  /** No external CPU descriptor is met. */
  ghost predicate NoCpuDescriptor(h: Heap, t: Target, root: Ref)
    requires WellFormed(h, t)
  {
    && (root in h ==> Kind(h[root].flags) != OBJFLAGS_EXTERNAL_CPUDESC)
    && (Active(h, t, root) ==>
          forall x, k :: x in ReachSet(h, t, root) && 0 <= k < |h[x].data| && RefSlot(h[x], k) && h[x].data[k] in h ==>
                           Kind(h[h[x].data[k]].flags) != OBJFLAGS_EXTERNAL_CPUDESC)
  }

  lemma HandledByBoth(h: Heap, t: Target, t': Target, w: Ref)
    requires WellFormed(h, t) && WellFormed(h, t') && !t.scan && t' == t.(scan := true)
    ensures Handled(h, t', w) <==>
              Handled(h, t, w) && (w in h ==> Kind(h[w].flags) != OBJFLAGS_EXTERNAL_CPUDESC)
  {
    hide RefSlot;
    if w in h {
      assert WellFormedObj(t, h[w]) && w != 0;
    }
  }

  /** The scan copier manages exactly the graphs that the recursive copier manages with the
      same quota and table, except those in which it meets a CPU descriptor. */
  lemma SameGraphsCopyable(h: Heap, t: Target, t': Target, root: Ref, quota: nat, maxCopied: nat)
    requires WellFormed(h, t) && !t.scan && t' == t.(scan := true)
    ensures WellFormed(h, t')
    ensures Copyable(h, t', root, quota, maxCopied) <==>
              Copyable(h, t, root, quota, maxCopied) && NoCpuDescriptor(h, t, root)
  {
    SameReach(h, t, t', root);
    hide Kind, RefSlot, Treat, WellFormedObj, ReachSet, Reachable, SumSizes, Handled;
    assert 0 !in h;
    HandledByBoth(h, t, t', root);
    forall x, k | x in ReachSet(h, t, root) && x in h && 0 <= k < |h[x].data| && RefSlot(h[x], k)
      ensures Handled(h, t', h[x].data[k]) <==>
                Handled(h, t, h[x].data[k]) &&
                (h[x].data[k] in h ==> Kind(h[h[x].data[k]].flags) != OBJFLAGS_EXTERNAL_CPUDESC)
    {
      HandledByBoth(h, t, t', h[x].data[k]);
    }
    assert ReachSet(h, t, root) <= h.Keys by { ReachSetInHeap(h, t, root); }
  }

  lemma ReachSetInHeap(h: Heap, t: Target, root: Ref)
    requires WellFormed(h, t)
    ensures ReachSet(h, t, root) <= h.Keys
  {
  }

  /** Under the pairing g, word w' says in one copy what w says in the other. */
  ghost predicate Corresponds(g: map<Ref, Ref>, w: Ref, w': Ref) {
    if w in g then w' == g[w] else w' == w
  }

  ghost predicate SameObject(d: Heap, d': Heap, g: map<Ref, Ref>, a: Ref, a': Ref) {
    && a in d && a' in d'
    && d[a].flags == d'[a'].flags && d[a].cls == d'[a'].cls && |d[a].data| == |d'[a'].data|
    && forall k :: 0 <= k < |d[a].data| ==>
         if RefSlot(d[a], k) then Corresponds(g, d[a].data[k], d'[a'].data[k]) else d[a].data[k] == d'[a'].data[k]
  }

  /** g is an isomorphism from the graph under r in d to the graph under r' in d'. */
  ghost predicate Isomorphic(d: Heap, r: Ref, d': Heap, r': Ref, g: map<Ref, Ref>) {
    Injective(g) && Corresponds(g, r, r') && forall a :: a in g ==> SameObject(d, d', g, a, g[a])
  }

  ghost function Original(f: map<Ref, Ref>, a: Ref): Ref
    requires a in f.Values
  {
    var x :| x in f && f[x] == a; x
  }

  /** Copies of the same original belong together. */
  ghost function Pairing(f: map<Ref, Ref>, f': map<Ref, Ref>): map<Ref, Ref>
    requires f.Keys == f'.Keys
  {
    map a | a in f.Values :: f'[Original(f, a)]
  }

  lemma PairingPairs(f: map<Ref, Ref>, f': map<Ref, Ref>)
    requires f.Keys == f'.Keys && Injective(f) && Injective(f')
    ensures Injective(Pairing(f, f'))
    ensures forall x :: x in f ==> f[x] in Pairing(f, f') && Pairing(f, f')[f[x]] == f'[x]
  {
  }

  /** New objects lie apart from NULL and from what a copy shares with its original. */
  ghost predicate Apart(h: Heap, t: Target, f: map<Ref, Ref>)
    requires WellFormed(h, t)
  {
    0 !in f.Values && forall w :: w in h && Treat(t, w, h[w]).Reuse? ==> Treat(t, w, h[w]).ref !in f.Values
  }

  lemma TranslationsCorrespond(h: Heap, t: Target, t': Target, f: map<Ref, Ref>, f': map<Ref, Ref>, w: Ref)
    requires WellFormed(h, t) && WellFormed(h, t') && t' == t.(scan := t'.scan)
    requires f.Keys == f'.Keys && Injective(f) && Injective(f') && Apart(h, t, f)
    requires Resolved(h, t, f, w) && Resolved(h, t', f', w)
    requires forall x :: x in f ==> x in h && Treat(t, x, h[x]) == Duplicate
    ensures Corresponds(Pairing(f, f'), Translate(h, t, f, w), Translate(h, t', f', w))
  {
    PairingPairs(f, f');
    if w != 0 {
      assert WellFormedObj(t, h[w]);
      SameDuplicates(t, t', w, h[w]);
    }
    hide Kind, RefSlot, Treat, WellFormedObj, Pairing;
  }

  /** The slots of a copy are those of its original. */
  lemma SameSlots(o: Obj, p: Obj, k: nat)
    requires p.flags == Kind(o.flags) && p.cls == o.cls
    ensures RefSlot(p, k) == RefSlot(o, k)
  {
    hide MapBit;
    assert Kind(Kind(o.flags)) == Kind(o.flags);
  }

  lemma SameObjectIff(h: Heap, t: Target, t': Target, f: map<Ref, Ref>, f': map<Ref, Ref>, d: Heap, d': Heap, x: Ref)
    requires WellFormed(h, t) && WellFormed(h, t') && !t.scan && t' == t.(scan := true)
    requires f.Keys == f'.Keys && Injective(f) && Injective(f') && Apart(h, t, f) && x in f && x in h
    requires forall z :: z in f ==> z in h && Treat(t, z, h[z]) == Duplicate
    requires Filled(h, t, f, d, x, f[x], |h[x].data|) && Filled(h, t', f', d', x, f'[x], |h[x].data|)
    ensures SameObject(d, d', Pairing(f, f'), f[x], f'[x]) <==> Raw(t, h[x]) == h[x].data
  {
    hide Kind, RefSlot, Treat, WellFormedObj, WellFormed, Resolved, Translate, Apart, Raw;
    assert Raw(t', h[x]) == h[x].data by { ScanMovesAll(t', h[x]); }
    forall k | 0 <= k < |h[x].data|
      ensures RefSlot(d[f[x]], k) == RefSlot(h[x], k)
      ensures RefSlot(h[x], k) ==> Corresponds(Pairing(f, f'), d[f[x]].data[k], d'[f'[x]].data[k])
      ensures RefSlot(h[x], k) ==> Raw(t, h[x])[k] == h[x].data[k]
    {
      SameSlots(h[x], d[f[x]], k);
      if RefSlot(h[x], k) {
        assert d[f[x]].data[k] == SlotValue(h, t, f, x, k);
        assert d'[f'[x]].data[k] == SlotValue(h, t', f', x, k);
        TranslationsCorrespond(h, t, t', f, f', h[x].data[k]);
        ReferencesAreWhole(t, h[x], k);
      }
    }
    assert forall k :: 0 <= k < |h[x].data| && !RefSlot(h[x], k) ==>
      d[f[x]].data[k] == Raw(t, h[x])[k] && d'[f'[x]].data[k] == h[x].data[k];
    if forall k :: 0 <= k < |h[x].data| ==> Raw(t, h[x])[k] == h[x].data[k] {
      assert Raw(t, h[x]) == h[x].data;
    }
  }

  lemma ScanMovesAll(t: Target, o: Obj)
    requires t.scan
    ensures Raw(t, o) == o.data
  {
  }

  lemma ReferencesAreWhole(t: Target, o: Obj, k: nat)
    requires RefSlot(o, k) && k < |o.data|
    ensures Raw(t, o)[k] == o.data[k]
  {
  }

  /** Word i of an array is no wider than the part of its four bytes that `bytes` covers. */
  predicate WordFits(w: nat, i: nat, bytes: nat) {
    if 4 * (i + 1) <= bytes then true
    else if bytes <= 4 * i then w == 0
    else w < Pow2(8 * (bytes - 4 * i))
  }

  /** Every word of an array of narrow elements fits into the bytes that are moved. */
  predicate Lossless(o: Obj) {
    Kind(o.flags) == OBJFLAGS_ARRAY && !IsReferenceArray(o.cls) ==>
      forall i :: 0 <= i < |o.data| ==> WordFits(o.data[i], i, |o.data| * o.cls.elementBytes)
  }

  lemma LosslessIff(t: Target, o: Obj)
    requires !t.scan
    ensures Lossless(o) <==> Raw(t, o) == o.data
  {
    var bytes := |o.data| * o.cls.elementBytes;
    forall i | 0 <= i < |o.data|
      ensures CopyBytes(o.data, bytes)[i] == o.data[i] <==> WordFits(o.data[i], i, bytes)
    {
      WordKeptIff(o.data, i, bytes);
    }
    hide Kind, CopyBytes, WordFits;
    if Raw(t, o) != o.data {
      assert exists i :: 0 <= i < |o.data| && Raw(t, o)[i] != o.data[i];
    }
  }

  lemma WordKeptIff(data: seq<nat>, i: nat, bytes: nat)
    requires i < |data|
    ensures CopyBytes(data, bytes)[i] == data[i] <==> WordFits(data[i], i, bytes)
  {
    if 4 * i < bytes < 4 * (i + 1) {
      RemainderIsSelf(data[i], Pow2(8 * (bytes - 4 * i)));
    }
    hide Pow2;
  }

  lemma RemainderIsSelf(a: nat, p: nat)
    requires p > 0
    ensures a % p == a <==> a < p
  {
  }

  /** A two-element byte array, stored a word per element, arrives without its second element. */
  lemma ByteArrayLosesData(t: Target, c: ClassDesc)
    requires !t.scan && c.name == "[B" && c.elementBytes == 1
    ensures Raw(t, Obj(OBJFLAGS_ARRAY, c, [1, 2])) == [1, 0]
  {
    assert Pow2(16) == 65536 by {
      assert Pow2(4) == 16;
      assert Pow2(8) == 256;
      assert Pow2(12) == 4096;
    }
  }

  /** What the two copiers build from one graph is isomorphic, if and only if no array of
      bytes or half-words that can be reached loses data in the recursive copier's memcpy. */
  lemma CopiersAgree(h: Heap, t: Target, t': Target, root: Ref,
                     d: Heap, r: Ref, f: map<Ref, Ref>, d': Heap, r': Ref, f': map<Ref, Ref>)
    requires WellFormed(h, t) && WellFormed(h, t') && !t.scan && t' == t.(scan := true)
    requires IsCopy(h, t, root, d, r, f) && IsCopy(h, t', root, d', r', f') && Apart(h, t, f)
    ensures f.Keys == f'.Keys
    ensures Isomorphic(d, r, d', r', Pairing(f, f')) <==> forall x :: x in f ==> x in h && Lossless(h[x])
  {
    SameReach(h, t, t', root);
    hide Kind, RefSlot, Treat, WellFormedObj, WellFormed, Resolved, Translate, Apart, Raw, ReachSet, Reachable,
         SameObject, Filled, Lossless;
    OnlyDuplicatesPaired(h, t, root, f);
    PairingPairs(f, f');
    TranslationsCorrespond(h, t, t', f, f', root);
    forall x | x in f
      ensures SameObject(d, d', Pairing(f, f'), f[x], f'[x]) <==> Lossless(h[x])
    {
      SameObjectIff(h, t, t', f, f', d, d', x);
      LosslessIff(t, h[x]);
    }
    if Isomorphic(d, r, d', r', Pairing(f, f')) {
      forall x | x in f ensures Lossless(h[x]) {
        assert SameObject(d, d', Pairing(f, f'), f[x], Pairing(f, f')[f[x]]);
      }
    } else {
      var a :| a in Pairing(f, f') && !SameObject(d, d', Pairing(f, f'), a, Pairing(f, f')[a]);
      assert f[Original(f, a)] == a;
    }
  }

  /** Everything reachable from a duplicated root is duplicated itself. */
  lemma OnlyDuplicatesPaired(h: Heap, t: Target, root: Ref, f: map<Ref, Ref>)
    requires WellFormed(h, t) && f.Keys == if Active(h, t, root) then ReachSet(h, t, root) else {}
    ensures forall x :: x in f ==> x in h && Treat(t, x, h[x]) == Duplicate
  {
    hide Kind, RefSlot;
    if Active(h, t, root) {
      var s := set x | x in h && Treat(t, x, h[x]) == Duplicate;
      assert Closed(h, t, s);
    }
  }

  // ---------------------------------------------------------------- references kept

  /** An array whose elements are arrays: its class name starts with two brackets, and the
      copiers take its words for numbers. */
  predicate NestedArray(o: Obj) {
    Kind(o.flags) == OBJFLAGS_ARRAY && |o.cls.name| > 1 && o.cls.name[1] == '['
  }

  /** Elements of nested arrays are arrays of the same heap; what is shared is either the
      very object of the source or an object outside of the source heap. */
  ghost predicate WellTyped(h: Heap, t: Target)
    requires WellFormed(h, t)
  {
    && (forall x, k :: x in h && NestedArray(h[x]) && 0 <= k < |h[x].data| && h[x].data[k] != 0 ==>
          h[x].data[k] in h && Kind(h[h[x].data[k]].flags) == OBJFLAGS_ARRAY)
    && (forall w :: w in h && Treat(t, w, h[w]).Reuse? ==>
          Treat(t, w, h[w]).ref == w || Treat(t, w, h[w]).ref !in h)
  }

  /** Word w makes sense in the destination. */
  ghost predicate InDestination(h: Heap, t: Target, f: map<Ref, Ref>, w: Ref)
    requires WellFormed(h, t)
  {
    w == 0 || w in f.Values || exists v :: v in h && Treat(t, v, h[v]) == Reuse(w)
  }

  /** Every word that the program takes for a reference makes sense in the destination. */
  ghost predicate KeepsReferences(h: Heap, t: Target, f: map<Ref, Ref>, d: Heap)
    requires WellFormed(h, t)
  {
    forall x, k :: x in f && x in h && f[x] in d && 0 <= k < |h[x].data| && k < |d[f[x]].data| &&
                   (RefSlot(h[x], k) || NestedArray(h[x])) ==>
                     InDestination(h, t, f, d[f[x]].data[k])
  }

  lemma TranslatedIsInDestination(h: Heap, t: Target, f: map<Ref, Ref>, w: Ref)
    requires WellFormed(h, t) && Resolved(h, t, f, w)
    ensures InDestination(h, t, f, Translate(h, t, f, w))
  {
    hide Kind, RefSlot;
  }

  /** An array of the source heap has no meaning in the destination. */
  lemma SourceArrayIsForeign(h: Heap, t: Target, f: map<Ref, Ref>, w: Ref)
    requires WellFormed(h, t) && WellTyped(h, t) && w in h && Kind(h[w].flags) == OBJFLAGS_ARRAY && w !in f.Values
    ensures !InDestination(h, t, f, w)
  {
    assert WellFormedObj(t, h[w]) && w != 0;
    assert Treat(t, w, h[w]) == Duplicate;
    hide Kind, RefSlot, Treat;
  }

  lemma NestedIsRaw(t: Target, o: Obj, k: nat)
    requires NestedArray(o) && k < |o.data| && o.cls.elementBytes == 4
    ensures !RefSlot(o, k) && Raw(t, o)[k] == o.data[k]
  {
    hide Kind;
    assert |o.data| * o.cls.elementBytes == 4 * |o.data|;
  }

  /** A copy keeps all references of its original if and only if no array of arrays that
      can be reached holds an element: such elements go on pointing into the source heap. */
  lemma ReferencesKeptIff(h: Heap, t: Target, root: Ref, d: Heap, r: Ref, f: map<Ref, Ref>)
    requires WellFormed(h, t) && WellTyped(h, t) && IsCopy(h, t, root, d, r, f)
    requires f.Values !! h.Keys
    requires forall x :: x in h && NestedArray(h[x]) ==> h[x].cls.elementBytes == 4
    ensures KeepsReferences(h, t, f, d) <==>
              forall x, k :: x in f && x in h && NestedArray(h[x]) && 0 <= k < |h[x].data| ==> h[x].data[k] == 0
  {
    hide Kind, RefSlot, Treat, WellFormedObj, WellFormed, Resolved, Translate, Raw, ReachSet, Reachable, WellTyped,
         InDestination, NestedArray;
    OnlyDuplicatesPaired(h, t, root, f);
    forall x, k | x in f && 0 <= k < |h[x].data|
      ensures f[x] in d && |d[f[x]].data| == |h[x].data|
      ensures RefSlot(h[x], k) ==> InDestination(h, t, f, d[f[x]].data[k])
      ensures NestedArray(h[x]) ==> (InDestination(h, t, f, d[f[x]].data[k]) <==> h[x].data[k] == 0)
    {
      assert Filled(h, t, f, d, x, f[x], |h[x].data|);
      assert d[f[x]].data[k] == SlotValue(h, t, f, x, k);
      if RefSlot(h[x], k) {
        TranslatedIsInDestination(h, t, f, h[x].data[k]);
      }
      if NestedArray(h[x]) {
        NestedIsRaw(t, h[x], k);
        NestedElement(h, t, f, x, k);
      }
    }
  }

  lemma NestedElement(h: Heap, t: Target, f: map<Ref, Ref>, x: Ref, k: nat)
    requires WellFormed(h, t) && WellTyped(h, t) && x in h && NestedArray(h[x]) && k < |h[x].data|
    requires f.Values !! h.Keys
    ensures InDestination(h, t, f, h[x].data[k]) <==> h[x].data[k] == 0
  {
    if h[x].data[k] != 0 {
      assert h[x].data[k] in h && Kind(h[h[x].data[k]].flags) == OBJFLAGS_ARRAY;
      SourceArrayIsForeign(h, t, f, h[x].data[k]);
    }
  }
}
