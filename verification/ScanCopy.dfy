/** The scan-pointer copier (NEW_COPY) of kjvm/trunk/core/portal.c. Objects are first moved
    word by word to the end of the destination heap while the flag word of the original is
    overwritten with a forwarding pointer; a mark then sweeps the new objects and replaces
    their references. The flag words are put back from the table of copied objects. */
module ScanCopy {
  import opened ObjectGraph
  import opened CopySpec
  import opened CopyRetries

  datatype Entry = Entry(src: Ref, flags: nat)

  // ------------------------------------------------------------ invariants, on values

  /** h with the flag word of every copied object replaced by a forwarding pointer. */
  ghost predicate Forwarded(h: Heap, src: Heap, f: map<Ref, Ref>) {
    && src.Keys == h.Keys && f.Keys <= h.Keys
    && forall x :: x in h ==> src[x] == if x in f then h[x].(flags := f[x] + 1) else h[x]
  }

  ghost predicate TableInv(h: Heap, t: Target, root: Ref, copied: seq<Entry>, addrs: seq<Ref>, f: map<Ref, Ref>)
    requires WellFormed(h, t)
  {
    && |copied| == |addrs| == |f| && f.Keys <= h.Keys && Injective(f)
    && (forall i :: 0 <= i < |copied| ==>
          && copied[i].src in f && f[copied[i].src] == addrs[i]
          && copied[i].flags == h[copied[i].src].flags
          && addrs[i] % 2 == 0)
    && (forall i, j :: 0 <= i < j < |copied| ==> copied[i].src != copied[j].src)
    && (forall x :: x in f ==> exists i :: 0 <= i < |copied| && copied[i].src == x)
    && (forall x :: x in f ==> Treat(t, x, h[x]) == Duplicate && Reachable(h, t, root, x))
  }

  /** Address behind the new objects when the first of them was put at base. */
  ghost function End(h: Heap, base: nat, copied: seq<Entry>): nat
  {
    if copied == [] then base
    else
      var last := copied[|copied| - 1].src;
      End(h, base, copied[..|copied| - 1]) + if last in h then 4 * Size(h[last]) else 0
  }

  /** New object i was put where object i - 1 ends. */
  ghost predicate Placed(h: Heap, base: nat, heapTop: nat, dst0: Heap, dst: Heap, copied: seq<Entry>, i: nat, a: Ref)
    requires i < |copied|
  {
    && a == End(h, base, copied[..i]) + 4 * (1 + XMOFF)
    && a < heapTop + 4 * (1 + XMOFF)
    && a !in dst0 && Header(h, dst, copied[i].src, a)
  }

  predicate Aligned4(a: nat) { a % 4 == 0 }

  /** Objects can be allocated from heapTop on. */
  predicate HeapReady(dst: Heap, heapTop: nat) {
    Aligned4(heapTop) && heapTop > 0 && forall a :: a in dst ==> a < heapTop + 4 * (1 + XMOFF)
  }

  /** The new objects lie one behind the other from base to heapTop. */
  ghost predicate HeapInv(h: Heap, base: nat, dst0: Heap, dst: Heap, heapTop: nat, copied: seq<Entry>, addrs: seq<Ref>)
  {
    && |copied| == |addrs| && base > 0
    && heapTop == End(h, base, copied) && Aligned4(heapTop)
    && (forall i :: 0 <= i < |addrs| ==> Placed(h, base, heapTop, dst0, dst, copied, i, addrs[i]))
    && (forall a :: a in dst ==> a < heapTop + 4 * (1 + XMOFF))
    && ObjectsKept(dst0, dst)
  }

  /** Objects that were placed one behind the other lie apart. */
  lemma {:induction false} EndsApart(h: Heap, base: nat, copied: seq<Entry>, i: nat, j: nat)
    requires i < j <= |copied| && copied[i].src in h
    ensures End(h, base, copied[..i]) + 4 * Size(h[copied[i].src]) <= End(h, base, copied[..j])
    decreases j
  {
    var init := copied[..j];
    assert init[..j - 1] == copied[..j - 1];
    if j > i + 1 {
      EndsApart(h, base, copied, i, j - 1);
    }
  }

  lemma {:induction false} PlacedInOrder(h: Heap, base: nat, dst0: Heap, dst: Heap, heapTop: nat, copied: seq<Entry>,
                                         addrs: seq<Ref>, i: nat, j: nat)
    requires HeapInv(h, base, dst0, dst, heapTop, copied, addrs) && i < j <= |copied|
    ensures copied[i].src in h && base + 4 * (1 + XMOFF) <= addrs[i]
    ensures addrs[i] + 4 * Size(h[copied[i].src]) <= (if j < |copied| then addrs[j] else heapTop + 4 * (1 + XMOFF))
  {
    hide Size, Header, ObjectsKept, End, Aligned4;
    assert Placed(h, base, heapTop, dst0, dst, copied, i, addrs[i]);
    assert Header(h, dst, copied[i].src, addrs[i]);
    HeaderIsOf(h, dst, copied[i].src, addrs[i]);
    EndAtLeast(h, base, copied[..i]);
    EndsApart(h, base, copied, i, j);
    if j < |copied| {
      assert Placed(h, base, heapTop, dst0, dst, copied, j, addrs[j]);
    } else {
      assert copied[..j] == copied;
    }
  }

  lemma HeaderIsOf(h: Heap, d: Heap, x: Ref, y: Ref)
    requires Header(h, d, x, y)
    ensures x in h
  {
  }

  lemma PlacedAreLaid(h: Heap, t: Target, root: Ref, base: nat, dst0: Heap, dst: Heap, heapTop: nat,
                      copied: seq<Entry>, addrs: seq<Ref>, f: map<Ref, Ref>)
    requires WellFormed(h, t) && TableInv(h, t, root, copied, addrs, f)
    requires HeapInv(h, base, dst0, dst, heapTop, copied, addrs)
    ensures Laid(h, f, base, heapTop)
  {
    hide Size, Treat, Reachable, WellFormed, HeapInv, Injective;
    forall x | x in f
      ensures x in h && base + 4 * (1 + XMOFF) <= f[x] && f[x] + 4 * Size(h[x]) <= heapTop + 4 * (1 + XMOFF)
    {
      var i :| 0 <= i < |copied| && copied[i].src == x;
      PlacedInOrder(h, base, dst0, dst, heapTop, copied, addrs, i, |copied|);
    }
    forall x, y | x in f && y in f && x != y && x in h && y in h
      ensures f[x] + 4 * Size(h[x]) <= f[y] || f[y] + 4 * Size(h[y]) <= f[x]
    {
      var i :| 0 <= i < |copied| && copied[i].src == x;
      var j :| 0 <= j < |copied| && copied[j].src == y;
      if i < j {
        PlacedInOrder(h, base, dst0, dst, heapTop, copied, addrs, i, j);
      } else {
        PlacedInOrder(h, base, dst0, dst, heapTop, copied, addrs, j, i);
      }
    }
  }

  lemma {:induction false} EndAtLeast(h: Heap, base: nat, copied: seq<Entry>)
    ensures End(h, base, copied) >= base
  {
    if copied != [] {
      EndAtLeast(h, base, copied[..|copied| - 1]);
    }
  }

  ghost predicate Pending(h: Heap, dst: Heap, x: Ref, y: Ref) {
    Header(h, dst, x, y) && dst[y].data == h[x].data
  }

  lemma AppendTable(h: Heap, t: Target, root: Ref, copied: seq<Entry>, addrs: seq<Ref>, f: map<Ref, Ref>, x: Ref,
                    y: Ref)
    requires WellFormed(h, t) && TableInv(h, t, root, copied, addrs, f)
    requires x in h && x !in f && Treat(t, x, h[x]) == Duplicate && Reachable(h, t, root, x)
    requires y % 2 == 0 && y !in addrs
    ensures TableInv(h, t, root, copied + [Entry(x, h[x].flags)], addrs + [y], f[x := y])
  {
    hide Kind, Reachable, Treat, WellFormedObj, RefSlot;
    var c', f' := copied + [Entry(x, h[x].flags)], f[x := y];
    forall z | z in f' ensures exists i :: 0 <= i < |c'| && c'[i].src == z {
      if z == x {
        assert c'[|copied|].src == z;
      } else {
        var i :| 0 <= i < |copied| && copied[i].src == z;
        assert c'[i].src == z;
      }
    }
    forall z | z in f ensures f[z] != y {
      var i :| 0 <= i < |copied| && copied[i].src == z;
      assert addrs[i] in addrs;
    }
  }

  lemma TableFacts(h: Heap, t: Target, root: Ref, copied: seq<Entry>, addrs: seq<Ref>, f: map<Ref, Ref>)
    requires WellFormed(h, t) && TableInv(h, t, root, copied, addrs, f)
    ensures f.Keys <= h.Keys && f.Keys <= ReachSet(h, t, root) && |f.Keys| == |copied| == |addrs|
  {
  }

  lemma TopIsFresh(h: Heap, base: nat, dst0: Heap, dst: Heap, heapTop: nat, copied: seq<Entry>, addrs: seq<Ref>)
    requires HeapInv(h, base, dst0, dst, heapTop, copied, addrs)
    ensures heapTop + 4 * (1 + XMOFF) !in dst && |addrs| == |copied|
  {
  }

  lemma Aligned(a: nat, n: nat)
    requires Aligned4(a)
    ensures Aligned4(a + 4 * n) && (a + 8) % 2 == 0
  {
    var q := a / 4;
    assert a == 4 * q;
    assert a + 4 * n == 4 * (q + n);
    assert a + 8 == 2 * (2 * q + 4);
  }

  lemma AppendHeap(h: Heap, base: nat, dst0: Heap, dst: Heap, heapTop: nat, copied: seq<Entry>, addrs: seq<Ref>,
                   x: Ref, d: Heap, y: Ref, top: nat)
    requires HeapInv(h, base, dst0, dst, heapTop, copied, addrs)
    requires x in h && y == heapTop + 4 * (1 + XMOFF) && top == heapTop + 4 * Size(h[x])
    requires d == dst[y := h[x].(flags := Kind(h[x].flags))]
    ensures HeapInv(h, base, dst0, d, top, copied + [Entry(x, h[x].flags)], addrs + [y])
    ensures y !in dst && y % 2 == 0 && y !in addrs
  {
    SizePositive(h[x]);
    Aligned(heapTop, Size(h[x]));
    var e := Entry(x, h[x].flags);
    EndAppend(h, base, copied, e);
    hide Kind, Size, Aligned4, Header, Placed, End;
    assert y !in dst && y !in dst0;
    assert ObjectsKept(dst0, d) && heapTop <= top;
    hide ObjectsKept;
    forall i | 0 <= i < |addrs|
      ensures Placed(h, base, top, dst0, d, copied + [e], i, addrs[i]) && addrs[i] != y
    {
      PlacedKept(h, base, heapTop, dst0, dst, copied, i, addrs[i], e, d, top);
    }
    LastPlaced(h, base, dst0, copied, e, d, y, top);
  }

  lemma {:induction false} EndAppend(h: Heap, base: nat, copied: seq<Entry>, e: Entry)
    requires e.src in h
    ensures End(h, base, copied + [e]) == End(h, base, copied) + 4 * Size(h[e.src])
  {
    hide Size;
    assert (copied + [e])[..|copied|] == copied;
  }

  lemma PlacedKept(h: Heap, base: nat, heapTop: nat, dst0: Heap, dst: Heap, copied: seq<Entry>, i: nat, a: Ref,
                   e: Entry, d: Heap, top: nat)
    requires i < |copied| && Placed(h, base, heapTop, dst0, dst, copied, i, a)
    requires heapTop <= top && forall z :: z in dst && z != heapTop + 4 * (1 + XMOFF) ==> z in d && d[z] == dst[z]
    ensures Placed(h, base, top, dst0, d, copied + [e], i, a) && a != heapTop + 4 * (1 + XMOFF)
  {
    hide Kind, End;
    assert (copied + [e])[..i] == copied[..i];
  }

  lemma {:induction false} LastPlaced(h: Heap, base: nat, dst0: Heap, copied: seq<Entry>, e: Entry, d: Heap, y: Ref,
                                      top: nat)
    requires e.src in h && y == End(h, base, copied) + 4 * (1 + XMOFF) && y < top + 4 * (1 + XMOFF)
    requires y in d && d[y] == h[e.src].(flags := Kind(h[e.src].flags)) && y !in dst0
    ensures Placed(h, base, top, dst0, d, copied + [e], |copied|, y)
  {
    hide Kind, End;
    assert (copied + [e])[..|copied|] == copied;
  }

  // ------------------------------------------------------------ the whole state, as a value

  /** The copier's variables. */
  datatype State = State(src: Heap, dst: Heap, heapTop: nat, copied: seq<Entry>, quota: nat)

  /** What the proof remembers: the heaps, quota, heapTop and the number of allocations before
      the copy, the root, and the pairing f of originals with new objects, in order of allocation in addrs. */
  datatype History = History(h: Heap, dst0: Heap, root: Ref, quota0: nat, base: nat, allocs0: nat,
                             f: map<Ref, Ref>, addrs: seq<Ref>)

  /** Whatever happened, the table can undo the forwarding. */
  ghost predicate Restorable(t: Target, s: State, g: History) {
    && WellFormed(g.h, t) && t.scan
    && TableInv(g.h, t, g.root, s.copied, g.addrs, g.f)
    && Forwarded(g.h, s.src, g.f)
  }

  /** And the destination heap is in order. */
  ghost predicate Recoverable(t: Target, s: State, g: History) {
    Restorable(t, s, g) && HeapInv(g.h, g.base, g.dst0, s.dst, s.heapTop, s.copied, g.addrs)
  }

  ghost predicate Inv(t: Target, maxCopied: nat, s: State, g: History) {
    && Recoverable(t, s, g)
    && s.quota + SumSizes(g.h, g.f.Keys) == g.quota0
    && |s.copied| <= maxCopied
  }

  /** The same copy, later: nothing that was paired or allocated has changed. */
  ghost predicate Extends(s: State, g: History, s': State, g': History) {
    && g' == g.(f := g'.f, addrs := g'.addrs)
    && s.copied <= s'.copied && g.addrs <= g'.addrs
    && PairsKept(g.f, g'.f) && ObjectsKept(s.dst, s'.dst)
    && s'.quota <= s.quota
  }

  lemma ExtendsRefl(s: State, g: History, s': State)
    requires s'.copied == s.copied && s'.dst == s.dst && s'.quota <= s.quota
    ensures Extends(s, g, s', g)
  {
  }

  /** One object moved: src is forwarded, dst grows by one object, the table by one entry. */
  ghost predicate Moved(s: State, x: Ref, o: Obj, s': State, y: Ref) {
    && y == s.heapTop + 4 * (1 + XMOFF)
    && s'.src == s.src[x := o.(flags := y + 1)]
    && s'.dst == s.dst[y := o.(flags := Kind(o.flags))]
    && s'.heapTop == s.heapTop + 4 * Size(o)
    && s'.copied == s.copied + [Entry(x, o.flags)]
    && s.quota == s'.quota + Size(o)
  }

  lemma MovedKeepsInv(t: Target, maxCopied: nat, s: State, g: History, x: Ref, s': State, g': History, y: Ref)
    requires Inv(t, maxCopied, s, g) && |s.copied| < maxCopied
    requires x in g.h && x !in g.f && Treat(t, x, g.h[x]) == Duplicate && Reachable(g.h, t, g.root, x)
    requires Moved(s, x, g.h[x], s', y) && g' == g.(f := g.f[x := y], addrs := g.addrs + [y])
    ensures Inv(t, maxCopied, s', g') && Extends(s, g, s', g') && Pending(g.h, s'.dst, x, y)
  {
    hide WellFormed, TableInv, HeapInv, Kind, Size, Treat, Reachable, SumSizes, PairsKept, ObjectsKept;
    assert s.src[x] == g.h[x];
    AppendHeap(g.h, g.base, g.dst0, s.dst, s.heapTop, s.copied, g.addrs, x, s'.dst, y, s'.heapTop);
    AppendTable(g.h, t, g.root, s.copied, g.addrs, g.f, x, y);
    SumAdd(g.h, g.f.Keys, x);
    assert g.f[x := y].Keys == g.f.Keys + {x};
    PairAdded(g.f, x, y);
    ObjectAdded(s.dst, y, g.h[x].(flags := Kind(g.h[x].flags)));
  }

  // ------------------------------------------------------------ the sweep

  ghost predicate IsPending(s: State, g: History, i: nat)
    requires i < |s.copied| == |g.addrs|
  {
    Pending(g.h, s.dst, s.copied[i].src, g.addrs[i])
  }

  /** Slots below n of new object i have been swept. */
  ghost predicate IsDone(t: Target, s: State, g: History, i: nat, n: nat)
    requires i < |s.copied| == |g.addrs| && WellFormed(g.h, t)
  {
    Filled(g.h, t, g.f, s.dst, s.copied[i].src, g.addrs[i], n)
  }

  function Length(s: State, g: History, i: nat): nat
    requires i < |s.copied|
  {
    if s.copied[i].src in g.h then |g.h[s.copied[i].src].data| else 0
  }

  /** Objects behind the mark are done, objects ahead of it pending. */
  ghost predicate Swept(t: Target, maxCopied: nat, s: State, g: History, i: nat) {
    && Inv(t, maxCopied, s, g) && i <= |s.copied| == |g.addrs|
    && (forall j :: 0 <= j < i ==> IsDone(t, s, g, j, Length(s, g, j)))
    && (forall j :: i <= j < |s.copied| ==> IsPending(s, g, j))
  }

  /** As Swept, and the object under the mark is done up to slot k and raw from there on. */
  ghost predicate Sweeping(t: Target, maxCopied: nat, s: State, g: History, i: nat, k: nat) {
    && Inv(t, maxCopied, s, g) && i < |s.copied| == |g.addrs|
    && (forall j :: 0 <= j < i ==> IsDone(t, s, g, j, Length(s, g, j)))
    && (forall j :: i < j < |s.copied| ==> IsPending(s, g, j))
    && IsDone(t, s, g, i, k)
    && (forall j :: k <= j < Length(s, g, i) ==> s.dst[g.addrs[i]].data[j] == g.h[s.copied[i].src].data[j])
  }

  /** Storing a word into the object under the mark leaves the heap's layout alone. */
  lemma StoreKeepsHeap(h: Heap, base: nat, dst0: Heap, dst: Heap, heapTop: nat, copied: seq<Entry>, addrs: seq<Ref>,
                       i: nat, data: seq<nat>, d: Heap)
    requires HeapInv(h, base, dst0, dst, heapTop, copied, addrs) && i < |addrs| && addrs[i] in dst
    requires |data| == |dst[addrs[i]].data| && d == dst[addrs[i] := dst[addrs[i]].(data := data)]
    ensures HeapInv(h, base, dst0, d, heapTop, copied, addrs)
  {
    hide Kind, Size, End;
    assert Placed(h, base, heapTop, dst0, dst, copied, i, addrs[i]);
    forall j | 0 <= j < |addrs| ensures Placed(h, base, heapTop, dst0, d, copied, j, addrs[j]) {
      assert Placed(h, base, heapTop, dst0, dst, copied, j, addrs[j]);
    }
  }

  lemma AddressesDiffer(t: Target, maxCopied: nat, s: State, g: History, i: nat, j: nat)
    requires Inv(t, maxCopied, s, g) && i < j < |s.copied|
    ensures |g.addrs| == |s.copied| && g.addrs[i] != g.addrs[j]
  {
    hide Kind, Size, Reachable, Treat, WellFormedObj, HeapInv;
  }

  /** Behind and ahead of object i nothing is lost while the copy grows. */
  lemma SweptGrows(t: Target, maxCopied: nat, s: State, g: History, i: nat, k: nat, s': State, g': History, j: nat)
    requires Sweeping(t, maxCopied, s, g, i, k) && Inv(t, maxCopied, s', g') && Extends(s, g, s', g')
    requires j < |s'.copied| == |g'.addrs|
    requires |s.copied| <= j ==> IsPending(s', g', j)
    ensures j < i ==> IsDone(t, s', g', j, Length(s', g', j))
    ensures i < j ==> IsPending(s', g', j)
  {
    hide Kind, Treat, WellFormedObj, Raw, RefSlot, HeapInv, TableInv, Forwarded;
    if j < |s.copied| {
      assert s.copied[j] == s'.copied[j] && g.addrs[j] == g'.addrs[j];
      if j < i {
        assert IsDone(t, s, g, j, Length(s, g, j));
        FilledGrows(g.h, t, g.f, g'.f, s.dst, s'.dst, s.copied[j].src, g.addrs[j], Length(s, g, j));
      } else if i < j {
        assert IsPending(s, g, j);
      }
    }
  }

  /** The state after word v was stored in slot k of object i. */
  function Stored(s: State, y: Ref, k: nat, v: Ref): State
    requires y in s.dst && k < |s.dst[y].data|
  {
    s.(dst := s.dst[y := s.dst[y].(data := s.dst[y].data[k := v])])
  }

  lemma StoredKeepsSweep(t: Target, maxCopied: nat, s: State, g: History, i: nat, k: nat, s': State, g': History,
                         v: Ref)
    requires Sweeping(t, maxCopied, s, g, i, k) && Inv(t, maxCopied, s', g') && Extends(s, g, s', g')
    requires |s'.copied| == |g'.addrs|
    requires forall j :: |s.copied| <= j < |s'.copied| ==> IsPending(s', g', j)
    requires s.copied[i].src in g.h && k < Length(s, g, i)
    requires RefSlot(g.h[s.copied[i].src], k)
    requires Resolved(g.h, t, g'.f, g.h[s.copied[i].src].data[k])
    requires v == Translate(g.h, t, g'.f, g.h[s.copied[i].src].data[k])
    ensures g.addrs[i] in s'.dst && k < |s'.dst[g.addrs[i]].data|
    ensures Sweeping(t, maxCopied, Stored(s', g.addrs[i], k, v), g', i, k + 1)
  {
    hide Kind, Treat, WellFormedObj, Raw, RefSlot, Reachable, HeapInv, TableInv, Translate, SumSizes, Forwarded;
    var x, y := s.copied[i].src, g.addrs[i];
    assert s'.copied[i] == s.copied[i] && g'.addrs[i] == y;
    FilledGrows(g.h, t, g.f, g'.f, s.dst, s'.dst, x, y, k);
    var s2 := Stored(s', y, k, v);
    StoreKeepsHeap(g.h, g.base, g.dst0, s'.dst, s'.heapTop, s'.copied, g'.addrs, i, s2.dst[y].data, s2.dst);
    forall j | 0 <= j < |s2.copied|
      ensures j < i ==> IsDone(t, s2, g', j, Length(s2, g', j))
      ensures i < j ==> IsPending(s2, g', j)
    {
      SweptGrows(t, maxCopied, s, g, i, k, s', g', j);
      if j < i { AddressesDiffer(t, maxCopied, s', g', j, i); }
      if i < j { AddressesDiffer(t, maxCopied, s', g', i, j); }
    }
    assert IsDone(t, s2, g', i, k + 1);
  }

  lemma NumericSlotKeepsSweep(t: Target, maxCopied: nat, s: State, g: History, i: nat, k: nat)
    requires Sweeping(t, maxCopied, s, g, i, k) && k < Length(s, g, i)
    requires !RefSlot(g.h[s.copied[i].src], k)
    ensures Sweeping(t, maxCopied, s, g, i, k + 1)
  {
    hide Kind, Treat, WellFormedObj, RefSlot, Reachable, HeapInv, TableInv, Translate, SumSizes, Forwarded;
    assert IsDone(t, s, g, i, k + 1);
  }

  /** Reference ref has been resolved to w; what was newly moved for it is not swept yet. */
  ghost predicate Shallow(t: Target, maxCopied: nat, s: State, g: History, s': State, g': History, ref: Ref, w: Ref) {
    && Inv(t, maxCopied, s', g') && Extends(s, g, s', g') && |s'.copied| == |g'.addrs|
    && (forall j :: |s.copied| <= j < |s'.copied| ==> IsPending(s', g', j))
    && Resolved(g.h, t, g'.f, ref) && w == Translate(g.h, t, g'.f, ref)
  }

  lemma MovedIsShallow(t: Target, maxCopied: nat, s: State, g: History, x: Ref, s': State, g': History, y: Ref)
    requires Inv(t, maxCopied, s, g) && |s.copied| < maxCopied
    requires x in g.h && x !in g.f && Treat(t, x, g.h[x]) == Duplicate && Reachable(g.h, t, g.root, x)
    requires Moved(s, x, g.h[x], s', y) && g' == g.(f := g.f[x := y], addrs := g.addrs + [y])
    ensures Shallow(t, maxCopied, s, g, s', g', x, y)
  {
    hide HeapInv, TableInv, Kind, Size, Reachable, SumSizes, Extends, Forwarded, Pending;
    MovedKeepsInv(t, maxCopied, s, g, x, s', g', y);
    TopIsFresh(g.h, g.base, g.dst0, s.dst, s.heapTop, s.copied, g.addrs);
  }

  /** A flag word tells whether its object was copied, and to where. */
  lemma FlagWord(t: Target, s: State, g: History, ref: Ref)
    requires Restorable(t, s, g) && ref in g.h
    ensures ref in s.src
    ensures s.src[ref].flags % 2 == 1 <==> ref in g.f
    ensures ref in g.f ==> s.src[ref].flags - 1 == g.f[ref] && Treat(t, ref, g.h[ref]) == Duplicate
    ensures ref !in g.f ==> s.src[ref] == g.h[ref]
  {
    hide Kind, Reachable, Treat, RefSlot;
    assert WellFormedObj(t, g.h[ref]);
    assert g.h[ref].flags % 2 == 0;
    hide WellFormedObj;
    if ref in g.f {
      var i :| 0 <= i < |s.copied| && s.copied[i].src == ref;
      OddWord(g.addrs[i]);
    }
  }

  lemma OddWord(a: nat)
    requires a % 2 == 0
    ensures (a + 1) % 2 == 1
  {
  }

  /** Object ref is to be copied next, and the collector has stayed idle so far. */
  ghost predicate Next(t: Target, maxCopied: nat, s: State, g: History, gc: nat -> Collector, ref: Ref) {
    && Inv(t, maxCopied, s, g) && Active(g.h, t, g.root) && Met(g.h, t, g.root, ref)
    && ref in g.h && ref !in g.f && Treat(t, ref, g.h[ref]) == Duplicate
    && (s.copied == [] ==> ref == g.root) && (s.copied != [] ==> s.copied[0].src == g.root)
    && Quiet(gc, g.allocs0, g.allocs0 + |s.copied|)
  }

  /** At the allocation for it the collector does not stay idle. */
  lemma CollectorInterrupts(t: Target, maxCopied: nat, s: State, g: History, gc: nat -> Collector, ref: Ref,
                            quota: nat, r: Outcome)
    requires Next(t, maxCopied, s, g, gc, ref) && s.quota == quota + Size(g.h[ref])
    requires gc(g.allocs0 + |s.copied|) == match r case Restart => Freed case Thrown => Full case _ => Idle
    requires r.Restart? || r.Thrown?
    ensures Failure(g.h, t, g.root, maxCopied, g.quota0, gc, g.allocs0, r, quota, g.allocs0 + |s.copied| + 1)
  {
    hide HeapInv, Forwarded, Kind, Reachable, SumSizes, Size, WellFormedObj, Treat, RefSlot, Met, ReachSet, Active,
         Stopped, Meets, TooMuch, WellFormed;
    TableFacts(g.h, t, g.root, s.copied, g.addrs, g.f);
    CollectorStops(g.h, t, g.root, g.f.Keys, ref, g.quota0, gc, g.allocs0, quota);
  }

  /** There is no quota, or no entry of the table, for it. */
  lemma NoRoom(t: Target, maxCopied: nat, s: State, g: History, gc: nat -> Collector, ref: Ref, quota: nat, a: nat)
    requires Next(t, maxCopied, s, g, gc, ref) && g.allocs0 <= a && Quiet(gc, g.allocs0, a)
    requires s.quota < Size(g.h[ref]) || |s.copied| == maxCopied
    ensures Failure(g.h, t, g.root, maxCopied, g.quota0, gc, g.allocs0, Panicked, quota, a)
  {
    hide HeapInv, Forwarded, Kind, Reachable, SumSizes, Size, WellFormedObj, Treat, RefSlot, Met, ReachSet, Active,
         Stopped, Meets, TooMuch, WellFormed;
    TableFacts(g.h, t, g.root, s.copied, g.addrs, g.f);
    ShortageIsFatal(g.h, t, g.root, g.f.Keys, ref, g.quota0, maxCopied);
  }

  lemma ShallowUnmoved(t: Target, maxCopied: nat, s: State, g: History, ref: Ref, w: Ref)
    requires Inv(t, maxCopied, s, g)
    requires Resolved(g.h, t, g.f, ref) && w == Translate(g.h, t, g.f, ref)
    ensures Shallow(t, maxCopied, s, g, s, g, ref, w)
  {
    hide TableInv, WellFormed, Forwarded;
    ExtendsRefl(s, g, s);
  }

  /** The same copy, later; new objects may have been filled in meanwhile. */
  ghost predicate Later(s: State, g: History, s': State, g': History) {
    && g' == g.(f := g'.f, addrs := g'.addrs)
    && s.copied <= s'.copied && g.addrs <= g'.addrs && s'.quota <= s.quota && PairsKept(g.f, g'.f)
  }

  lemma LaterTransitive(s: State, g: History, s': State, g': History, s'': State, g'': History)
    requires Later(s, g, s', g') && Later(s', g', s'', g'')
    ensures Later(s, g, s'', g'')
  {
  }

  /** What is known of the slot the sweep has reached. */
  lemma SlotUnderMark(t: Target, maxCopied: nat, s: State, g: History, i: nat, k: nat)
    requires Sweeping(t, maxCopied, s, g, i, k) && k < Length(s, g, i)
    ensures s.copied[i].src in g.h && g.addrs[i] in s.dst
    ensures k < |s.dst[g.addrs[i]].data| == |g.h[s.copied[i].src].data|
    ensures s.dst[g.addrs[i]].data[k] == g.h[s.copied[i].src].data[k]
    ensures RefSlot(g.h[s.copied[i].src], k) ==> Met(g.h, t, g.root, g.h[s.copied[i].src].data[k])
  {
    hide Kind, RefSlot, Size, End, SumSizes, Reachable, Treat, HeapInv, Forwarded, SlotValue;
    var x := s.copied[i].src;
    assert x in g.f && Reachable(g.h, t, g.root, x);
    if RefSlot(g.h[x], k) && g.h[x].data[k] != 0 {
      assert g.h[x].data[k] in g.h;
    }
  }

  /** The object the sweep takes up next, as the copier finds it. */
  ghost predicate NextObject(t: Target, maxCopied: nat, s: State, g: History, i: nat, y: Ref) {
    && i < |s.copied| == |g.addrs| && y == g.addrs[i] && y in s.dst
    && s.copied[i].src in g.h
    && (var o := g.h[s.copied[i].src];
        && s.dst[y].flags == Kind(o.flags) && s.dst[y].cls == o.cls && |s.dst[y].data| == |o.data|
        && o.flags % 2 == 0
        && (Kind(o.flags) == OBJFLAGS_OBJECT ==> |o.data| <= 8 * |o.cls.refMap|)
        && Kind(o.flags) in {OBJFLAGS_OBJECT, OBJFLAGS_ARRAY, OBJFLAGS_PORTAL, OBJFLAGS_DOMAIN})
  }

  lemma SweptBegin(t: Target, maxCopied: nat, s: State, g: History, i: nat)
    requires Swept(t, maxCopied, s, g, i) && i < |s.copied|
    ensures Sweeping(t, maxCopied, s, g, i, 0)
    ensures NextObject(t, maxCopied, s, g, i, g.addrs[i])
  {
    hide RefSlot, Size, End, SumSizes, Reachable, HeapInv, Forwarded, SlotValue;
    assert IsPending(s, g, i);
    var x := s.copied[i].src;
    assert x in g.f && Treat(t, x, g.h[x]) == Duplicate;
  }

  lemma SweptEnd(t: Target, maxCopied: nat, s: State, g: History, i: nat)
    requires i < |s.copied| && Sweeping(t, maxCopied, s, g, i, Length(s, g, i))
    ensures Swept(t, maxCopied, s, g, i + 1)
  {
    hide Inv, IsDone, IsPending;
  }

  /** An object without reference slots needs no sweep. */
  lemma LeafSwept(t: Target, maxCopied: nat, s: State, g: History, i: nat)
    requires Swept(t, maxCopied, s, g, i) && i < |s.copied| && s.copied[i].src in g.h
    requires forall k :: 0 <= k < |g.h[s.copied[i].src].data| ==> !RefSlot(g.h[s.copied[i].src], k)
    ensures Swept(t, maxCopied, s, g, i + 1)
  {
    hide RefSlot, Size, End, SumSizes, Reachable, HeapInv, Forwarded, TableInv;
    assert IsPending(s, g, i);
    assert IsDone(t, s, g, i, Length(s, g, i));
  }

  lemma LaterRefl(s: State, g: History)
    ensures Later(s, g, s, g)
  {
  }

  // ------------------------------------------------------------ start and end of a copy

  lemma InitInv(t: Target, maxCopied: nat, s: State, root: Ref, allocs: nat)
    requires WellFormed(s.src, t) && t.scan && s.copied == []
    requires HeapReady(s.dst, s.heapTop)
    ensures Inv(t, maxCopied, s, History(s.src, s.dst, root, s.quota, s.heapTop, allocs, map[], []))
  {
    hide Kind, RefSlot;
  }

  lemma TranslationKept(t: Target, s: State, g: History, s': State, g': History, w: Ref)
    requires WellFormed(g.h, t) && Later(s, g, s', g') && Resolved(g.h, t, g.f, w)
    ensures Resolved(g.h, t, g'.f, w) && Translate(g.h, t, g'.f, w) == Translate(g.h, t, g.f, w)
  {
  }

  lemma CopiesAreNew(t: Target, maxCopied: nat, s: State, g: History)
    requires Inv(t, maxCopied, s, g)
    ensures ObjectsKept(g.dst0, s.dst) && forall x :: x in g.f ==> g.f[x] !in g.dst0
  {
    hide Kind, RefSlot, Treat, WellFormedObj, Reachable, Size, End, Header, Forwarded;
    forall x | x in g.f ensures g.f[x] !in g.dst0 {
      var i :| 0 <= i < |s.copied| && s.copied[i].src == x;
      assert Placed(g.h, g.base, s.heapTop, g.dst0, s.dst, s.copied, i, g.addrs[i]);
    }
  }

  lemma HeapIsReady(t: Target, s: State, g: History)
    requires Recoverable(t, s, g)
    ensures HeapReady(s.dst, s.heapTop) && ObjectsKept(g.dst0, s.dst)
  {
    hide Kind, RefSlot, Treat, WellFormedObj, Reachable, Size, Header, Forwarded, TableInv, Placed;
    EndAtLeast(g.h, g.base, s.copied);
  }

  /** Everything shallow so far is ahead of the mark. */
  lemma SweepStarts(t: Target, maxCopied: nat, s: State, g: History, s': State, g': History, ref: Ref, w: Ref)
    requires s.copied == [] && Shallow(t, maxCopied, s, g, s', g', ref, w)
    ensures Swept(t, maxCopied, s', g', 0)
    ensures g' == g.(f := g'.f, addrs := g'.addrs)
    ensures Resolved(g.h, t, g'.f, ref) && w == Translate(g.h, t, g'.f, ref)
  {
    hide Inv;
  }

  lemma SweepBounded(t: Target, maxCopied: nat, s: State, g: History, i: nat)
    requires Swept(t, maxCopied, s, g, i)
    ensures Inv(t, maxCopied, s, g) && WellFormed(g.h, t)
    ensures i <= |s.copied| <= |g.h|
  {
    hide Kind, RefSlot, Treat, WellFormedObj, Reachable, HeapInv, Forwarded;
    CardinalityMonotone(g.f.Keys, g.h.Keys);
  }

  lemma TableEntries(t: Target, s: State, g: History)
    requires Restorable(t, s, g)
    ensures forall i :: 0 <= i < |s.copied| ==>
              s.copied[i].src in g.f && s.copied[i].src in g.h && s.copied[i].flags == g.h[s.copied[i].src].flags
    ensures forall x :: x in g.f ==> exists i :: 0 <= i < |s.copied| && s.copied[i].src == x
    ensures |s.copied| == |g.f|
  {
    hide Kind, RefSlot, Treat, WellFormedObj, Reachable;
  }

  /** Only flag words differ from h, and only those of table entries i and later. */
  ghost predicate Unrestored(h: Heap, src: Heap, copied: seq<Entry>, i: nat) {
    && src.Keys == h.Keys
    && forall x :: x in h ==> src[x].(flags := h[x].flags) == h[x] &&
                              (src[x] == h[x] || exists j :: i <= j < |copied| && copied[j].src == x)
  }

  lemma AllUnrestored(t: Target, s: State, g: History)
    requires Restorable(t, s, g)
    ensures Unrestored(g.h, s.src, s.copied, 0)
  {
    hide Kind, RefSlot, Treat, WellFormedObj, Reachable;
  }

  lemma RestoreStep(h: Heap, src: Heap, copied: seq<Entry>, i: nat)
    requires Unrestored(h, src, copied, i) && i < |copied|
    requires copied[i].src in h && copied[i].flags == h[copied[i].src].flags
    ensures copied[i].src in src
    ensures Unrestored(h, src[copied[i].src := src[copied[i].src].(flags := copied[i].flags)], copied, i + 1)
  {
  }

  lemma NoneUnrestored(h: Heap, src: Heap, copied: seq<Entry>)
    requires Unrestored(h, src, copied, |copied|)
    ensures src == h
  {
  }

  /** The forwarding pointers left behind are the source's only damage. */
  lemma UnrestoredIff(t: Target, s: State, g: History)
    requires Restorable(t, s, g)
    ensures s.src == g.h <==> s.copied == []
  {
    hide Kind, RefSlot, Reachable;
    if s.copied != [] {
      var x := s.copied[0].src;
      assert x in g.f && x in g.h;
      FlagWord(t, s, g, x);
      assert WellFormedObj(t, g.h[x]);
    }
  }

  lemma CopiedMeansActive(t: Target, s: State, g: History)
    requires Restorable(t, s, g) && (g.root == 0 || g.root in g.h)
    ensures !Active(g.h, t, g.root) ==> s.copied == [] && g.f == map[]
  {
    hide Kind, RefSlot, Reachable, Active, Forwarded, Treat, WellFormedObj;
    if !Active(g.h, t, g.root) && |s.copied| > 0 {
      var x := s.copied[0].src;
      assert x in g.f;
      InactiveIsAlone(g.h, t, g.root, x);
    }
  }

  /** Once everything is swept, what was copied is what can be reached, and f is a copy. */
  lemma SweptIsCopy(t: Target, maxCopied: nat, s: State, g: History, r: Ref)
    requires Swept(t, maxCopied, s, g, |s.copied|) && (g.root == 0 || g.root in g.h)
    requires Resolved(g.h, t, g.f, g.root) && r == Translate(g.h, t, g.f, g.root)
    ensures IsCopy(g.h, t, g.root, s.dst, r, g.f)
    ensures Copyable(g.h, t, g.root, g.quota0, maxCopied)
    ensures |s.copied| == ObjectCount(g.h, t, g.root) && s.quota + Cost(g.h, t, g.root) == g.quota0
    ensures Laid(g.h, g.f, g.base, s.heapTop)
  {
    hide Kind, RefSlot, Reachable, Forwarded, Treat, WellFormedObj, Size, End, HeapInv, SumSizes, Header, SlotValue,
         Translate, Laid;
    PlacedAreLaid(g.h, t, g.root, g.base, g.dst0, s.dst, s.heapTop, s.copied, g.addrs, g.f);
    CopiedMeansActive(t, s, g);
    TableFacts(g.h, t, g.root, s.copied, g.addrs, g.f);
    forall x | x in g.f
      ensures Filled(g.h, t, g.f, s.dst, x, g.f[x], |g.h[x].data|)
    {
      var i :| 0 <= i < |s.copied| && s.copied[i].src == x;
      assert IsDone(t, s, g, i, Length(s, g, i));
    }
    if Active(g.h, t, g.root) {
      assert g.root in g.f;
      assert Closed(g.h, t, g.f.Keys);
      ReachSetUnique(g.h, t, g.root, g.f.Keys);
    } else {
      assert g.f.Keys == {} && SumSizes(g.h, {}) == 0 by { NoSizes(g.h); }
    }
  }

  // ------------------------------------------------------------ the copier

  class ScanCopier {
    const t: Target
    const maxCopied: nat      // entries in the thread's table
    var src: Heap             // heap of the domain the objects come from
    var dst: Heap             // heap of the domain they are copied to
    var heapTop: nat
    var mark: nat
    var copied: seq<Entry>
    var quota: nat
    const gc: nat -> Collector // what the collector does at each allocation
    var allocs: nat            // allocations so far
    ghost var g: History

    constructor (t: Target, maxCopied: nat, src: Heap, dst: Heap, heapTop: nat, quota: nat, gc: nat -> Collector)
      ensures this.t == t && this.maxCopied == maxCopied && this.src == src && this.dst == dst
      ensures this.heapTop == heapTop && this.quota == quota && this.gc == gc && this.allocs == 0
    {
      this.t, this.maxCopied, this.src, this.dst := t, maxCopied, src, dst;
      this.heapTop, this.mark, this.copied, this.quota := heapTop, 0, [], quota;
      this.gc, this.allocs := gc, 0;
    }

    ghost function S(): State
      reads this
    {
      State(src, dst, heapTop, copied, quota)
    }

    /** So far there was one allocation an object, the root's first, and the collector stayed idle. */
    ghost predicate Counted()
      reads this
    {
      && allocs == g.allocs0 + |copied| && Quiet(gc, g.allocs0, allocs)
      && (copied != [] ==> copied[0].src == g.root)
    }

    /** There is a reason for the copy to end in r. */
    ghost predicate Failed(r: Outcome)
      reads this
    {
      Failure(g.h, t, g.root, maxCopied, g.quota0, gc, g.allocs0, r, quota, allocs)
    }

    method SetMark()
      modifies this`mark
      ensures mark == heapTop
    {
      mark := heapTop;
    }

    /** The object under the mark, stepping the mark behind it; NULL at the end of the heap. */
    method AtMark(ghost i: nat) returns (r: Ref)
      requires Inv(t, maxCopied, S(), g) && i <= |copied| && mark == End(g.h, g.base, copied[..i])
      modifies this`mark
      ensures |copied| == |g.addrs|
      ensures i == |copied| ==> r == 0
      ensures i < |copied| ==> r == g.addrs[i] && r != 0 && mark == End(g.h, g.base, copied[..i + 1])
    {
      hide Kind, Size, TableInv, WellFormed, Forwarded;
      EndAtLeast(g.h, g.base, copied[..i]);
      assert copied[..|copied|] == copied;
      assert i < |copied| ==> Placed(g.h, g.base, heapTop, g.dst0, dst, copied, i, g.addrs[i]);
      if mark == 0 || mark >= heapTop {
        mark := 0;
        return 0;
      }
      r := mark + 4 * (1 + XMOFF);
      assert r == g.addrs[i];
      assert copied[..i + 1][..i] == copied[..i];
      SameSize(g.h, dst, copied[i].src, r);
      mark := mark + 4 * Size(dst[r]);
    }

    /** Zeroed memory at heapTop. The collector may run instead (the heap's epoch changes),
        or not find enough memory. */
    method Alloc(flags: nat, cls: ClassDesc, n: nat) returns (a: Allocation)
      modifies this`dst, this`heapTop, this`allocs
      ensures allocs == old(allocs) + 1
      ensures a.Allocated? <==> gc(old(allocs)) == Idle
      ensures a.Collected? <==> gc(old(allocs)) == Freed
      ensures a.Allocated? ==>
                && a.ref == old(heapTop) + 4 * (1 + XMOFF)
                && dst == old(dst)[a.ref := Obj(flags, cls, seq(n, _ => 0))]
                && heapTop == old(heapTop) + 4 * Size(Obj(flags, cls, seq(n, _ => 0)))
      ensures !a.Allocated? ==> dst == old(dst) && heapTop == old(heapTop)
    {
      var collector := gc(allocs);
      allocs := allocs + 1;
      if collector != Idle {
        return if collector == Freed then Collected else Exhausted;
      }
      var r := heapTop + 4 * (1 + XMOFF);
      dst := dst[r := Obj(flags, cls, seq(n, _ => 0))];
      heapTop := heapTop + 4 * Size(dst[r]);
      a := Allocated(r);
    }

    /** Records the original's flag word and overwrites it with a forwarding pointer. */
    method AddToRefTable(s: Ref, d: Ref) returns (ok: bool)
      requires s in src
      modifies this`copied, this`src
      ensures ok == (|old(copied)| != maxCopied)
      ensures ok ==> copied == old(copied) + [Entry(s, old(src)[s].flags)]
      ensures ok ==> src == old(src)[s := old(src)[s].(flags := d + 1)]
      ensures !ok ==> copied == old(copied) && src == old(src)
    {
      if |copied| == maxCopied {
        return false;
      }
      copied := copied + [Entry(s, src[s].flags)];
      src := src[s := src[s].(flags := d + 1)];
      return true;
    }

    /** Charges the quota for an object and allocates as much in the destination. */
    method Reserve(o: Obj) returns (r: Outcome)
      modifies this`dst, this`heapTop, this`quota, this`allocs
      ensures r.Panicked? <==> old(quota) < Size(o)
      ensures allocs == if r.Panicked? then old(allocs) else old(allocs) + 1
      ensures !r.Panicked? ==> r == match gc(old(allocs))
                                    case Idle => Copied(old(heapTop) + 4 * (1 + XMOFF))
                                    case Freed => Restart
                                    case Full => Thrown
      ensures quota == if r.Panicked? then old(quota) else old(quota) - Size(o)
      ensures r.Copied? ==>
                && heapTop == old(heapTop) + 4 * Size(o)
                && dst == old(dst)[r.ref := Obj(Kind(o.flags), o.cls, seq(|o.data|, _ => 0))]
      ensures !r.Copied? ==> dst == old(dst) && heapTop == old(heapTop)
    {
      if quota < Size(o) {
        return Panicked;
      }
      quota := quota - Size(o);
      SizeOfKind(o, Obj(Kind(o.flags), o.cls, seq(|o.data|, _ => 0)));
      var a := Alloc(Kind(o.flags), o.cls, |o.data|);
      match a {
        case Allocated(y) => r := Copied(y);
        case Collected => r := Restart;
        case Exhausted => r := Thrown;
      }
    }

    /** copy_shallow_object, _array, _portal and _domainproxy: charge the quota, allocate,
        enter the pair into the table and move the words as they are. */
    method CopyShallow(ref: Ref) returns (r: Outcome)
      requires Inv(t, maxCopied, S(), g) && Active(g.h, t, g.root) && Met(g.h, t, g.root, ref)
      requires ref in g.h && ref !in g.f && Treat(t, ref, g.h[ref]) == Duplicate
      requires Counted() && (copied == [] ==> ref == g.root)
      modifies this`src, this`dst, this`heapTop, this`copied, this`quota, this`allocs, this`g
      ensures !r.Copied? ==> g == old(g) && copied == old(copied) && Failed(r)
      ensures r.Restart? || r.Thrown? ==> Recoverable(t, S(), g)
      ensures r.Thrown? ==> gc(old(allocs)) == Full
      ensures r.Copied? ==> Counted()
      ensures r.Copied? ==> Shallow(t, maxCopied, old(S()), old(g), S(), g, ref, r.ref)
    {
      hide TableInv, HeapInv, Kind, Reachable, SumSizes, Copyable, End, Size, WellFormed, WellFormedObj, Treat, Met,
           Shallow, ReachSet, Extends, Header, PairsKept, ObjectsKept, Forwarded, Failure, Active, Quiet;
      MetIsReachable(g.h, t, g.root, ref);
      FlagWord(t, S(), g, ref);
      var o := src[ref];
      ghost var s0 := S();
      assert o == g.h[ref];
      assert Next(t, maxCopied, s0, g, gc, ref);
      r := Reserve(o);
      if r.Panicked? {
        NoRoom(t, maxCopied, s0, g, gc, ref, quota, allocs);
        return;
      } else if !r.Copied? {
        CollectorInterrupts(t, maxCopied, s0, g, gc, ref, quota, r);
        return;
      }
      QuietOn(gc, g.allocs0, old(allocs));
      dst := dst[r.ref := dst[r.ref].(data := o.data)];
      var ok := AddToRefTable(ref, r.ref);
      if !ok {
        NoRoom(t, maxCopied, s0, g, gc, ref, quota, allocs);
        return Panicked;
      }
      assert dst == s0.dst[r.ref := o.(flags := Kind(o.flags))];
      assert Moved(s0, ref, o, S(), r.ref);
      g := g.(f := g.f[ref := r.ref], addrs := g.addrs + [r.ref]);
      MovedIsShallow(t, maxCopied, s0, old(g), ref, S(), g, r.ref);
      assert copied[0] == if s0.copied == [] then Entry(ref, o.flags) else s0.copied[0];
    }

    /** copy_shallow_reference_internal */
    method CopyShallowReference(ref: Ref) returns (r: Outcome)
      requires Inv(t, maxCopied, S(), g) && Met(g.h, t, g.root, ref) && (ref == g.root || Active(g.h, t, g.root))
      requires Counted() && (copied == [] ==> ref == g.root)
      modifies this`src, this`dst, this`heapTop, this`copied, this`quota, this`allocs, this`g
      ensures !r.Copied? ==> g == old(g) && copied == old(copied) && Failed(r)
      ensures r.Restart? || r.Thrown? ==> Recoverable(t, S(), g)
      ensures r.Thrown? ==> ref in g.h && (Treat(t, ref, g.h[ref]) == Throw || gc(old(allocs)) == Full)
      ensures r.Copied? ==> Counted()
      ensures r.Copied? ==> Shallow(t, maxCopied, old(S()), old(g), S(), g, ref, r.ref)
    {
      hide TableInv, HeapInv, Reachable, SumSizes, Copyable, End, Size, Shallow, ReachSet, Extends, Header, Forwarded,
           RefSlot, Raw;
      if ref == 0 {
        ShallowUnmoved(t, maxCopied, S(), g, ref, 0);
        return Copied(0);
      }
      FlagWord(t, S(), g, ref);
      var flags := src[ref].flags;
      if flags % 2 == 1 {
        ShallowUnmoved(t, maxCopied, S(), g, ref, flags - 1);
        return Copied(flags - flags % 2);
      }
      var kind := Kind(flags);
      if kind == OBJFLAGS_OBJECT || kind == OBJFLAGS_ARRAY || kind == OBJFLAGS_DOMAIN {
        r := CopyShallow(ref);
      } else if kind == OBJFLAGS_PORTAL {
        var p := src[ref];
        if p.data[1] == t.id && !(p.data[1] == 0 && p.data[0] == 0 && p.data[2] == 0) {
          ShallowUnmoved(t, maxCopied, S(), g, ref, t.services[p.data[2]]);
          return Copied(t.services[p.data[2]]);
        }
        r := CopyShallow(ref);
      } else if kind == OBJFLAGS_EXTERNAL_STRING {
        ShallowUnmoved(t, maxCopied, S(), g, ref, ref);
        return Copied(ref);
      } else if kind == OBJFLAGS_ATOMVAR {
        UnhandledIsMet(g.h, t, g.root, ref, Throw);
        return Thrown;
      } else {
        UnhandledIsMet(g.h, t, g.root, ref, Panic);
        return Panicked;
      }
    }

    /** One reference of the object under the mark: a shallow copy of what it refers to,
        stored back into the slot. */
    method SweepSlot(y: Ref, ghost i: nat, k: nat) returns (r: Outcome)
      requires Sweeping(t, maxCopied, S(), g, i, k) && Active(g.h, t, g.root)
      requires y == g.addrs[i] && k < Length(S(), g, i) && copied[i].src in g.h
      requires RefSlot(g.h[copied[i].src], k)
      requires Counted()
      modifies this`src, this`dst, this`heapTop, this`copied, this`quota, this`allocs, this`g
      ensures g == old(g).(f := g.f, addrs := g.addrs)
      ensures r.Copied? ==> Counted()
      ensures !r.Copied? ==> Failed(r) && |old(copied)| <= |copied|
      ensures r.Restart? || r.Thrown? ==> Recoverable(t, S(), g)
      ensures r.Copied? ==> Later(old(S()), old(g), S(), g)
      ensures r.Copied? ==> Sweeping(t, maxCopied, S(), g, i, k + 1)
    {
      hide TableInv, HeapInv, Reachable, SumSizes, Copyable, End, Size, ReachSet, Header, Forwarded, RefSlot, Raw,
           Treat, Kind, IsDone, IsPending, WellFormedObj, PairsKept, ObjectsKept, Met, Failure;
      ghost var s0, g0 := S(), g;
      SlotUnderMark(t, maxCopied, s0, g0, i, k);
      r := CopyShallowReference(dst[y].data[k]);
      if r.Copied? {
        ghost var s1 := S();
        StoredKeepsSweep(t, maxCopied, s0, g0, i, k, s1, g, r.ref);
        dst := dst[y := dst[y].(data := dst[y].data[k := r.ref])];
        assert S() == Stored(s1, y, k, r.ref);
      }
    }

    /** copy_content_object: the class's reference map says, bit by bit, which words to sweep. */
    method CopyContentObject(y: Ref, ghost i: nat) returns (r: Outcome)
      requires Sweeping(t, maxCopied, S(), g, i, 0) && Active(g.h, t, g.root)
      requires i < |copied| == |g.addrs|
      requires y == g.addrs[i] && copied[i].src in g.h && Kind(g.h[copied[i].src].flags) == OBJFLAGS_OBJECT
      requires y in dst && dst[y].cls == g.h[copied[i].src].cls
      requires |dst[y].data| == Length(S(), g, i) <= 8 * |dst[y].cls.refMap|
      requires Counted()
      modifies this`src, this`dst, this`heapTop, this`copied, this`quota, this`allocs, this`g
      ensures g == old(g).(f := g.f, addrs := g.addrs)
      ensures r.Copied? ==> Counted()
      ensures !r.Copied? ==> Failed(r) && |old(copied)| <= |copied|
      ensures r.Restart? || r.Thrown? ==> Recoverable(t, S(), g)
      ensures r.Copied? ==> Later(old(S()), old(g), S(), g) && Sweeping(t, maxCopied, S(), g, i, Length(S(), g, i))
    {
      hide TableInv, HeapInv, Reachable, SumSizes, Copyable, End, Size, ReachSet, Forwarded, Raw, Treat, Pow2, MapBit,
           BitAt, IsDone, IsPending, WellFormedObj, PairsKept, ObjectsKept, Met, Sweeping, Restorable, Failure;
      ghost var x := copied[i].src;
      var size, refMap, b := |dst[y].data|, dst[y].cls.refMap, 0;
      LaterRefl(S(), g);
      r := Copied(0);
      for k := 0 to size
        invariant Counted() && |old(copied)| <= |copied|
        invariant r.Copied? && g == old(g).(f := g.f, addrs := g.addrs)
        invariant Later(old(S()), old(g), S(), g) && Sweeping(t, maxCopied, S(), g, i, k)
        invariant i < |copied| && copied[i].src == x && i < |g.addrs| && g.addrs[i] == y
        invariant size == Length(S(), g, i)
        invariant k % 8 != 0 ==> BitAt(refMap, k, b)
      {
        if k % 8 == 0 {
          FirstBit(refMap, k);
          b := refMap[k / 8];
        }
        NextBit(refMap, k, b);
        if b % 2 == 1 {
          ghost var s0, g0 := S(), g;
          r := SweepSlot(y, i, k);
          if !r.Copied? { return; }
          LaterTransitive(old(S()), old(g), s0, g0, S(), g);
        } else {
          NumericSlotKeepsSweep(t, maxCopied, S(), g, i, k);
        }
        b := b / 2;
      }
    }

    /** copy_content_array: every element of a reference array, nothing of any other. */
    method CopyContentArray(y: Ref, ghost i: nat) returns (r: Outcome)
      requires Swept(t, maxCopied, S(), g, i) && Active(g.h, t, g.root)
      requires NextObject(t, maxCopied, S(), g, i, y) && Kind(g.h[copied[i].src].flags) == OBJFLAGS_ARRAY
      requires Counted()
      modifies this`src, this`dst, this`heapTop, this`copied, this`quota, this`allocs, this`g
      ensures g == old(g).(f := g.f, addrs := g.addrs)
      ensures r.Copied? ==> Counted()
      ensures !r.Copied? ==> Failed(r) && |old(copied)| <= |copied|
      ensures r.Restart? || r.Thrown? ==> Recoverable(t, S(), g)
      ensures r.Copied? ==> Later(old(S()), old(g), S(), g) && Swept(t, maxCopied, S(), g, i + 1)
    {
      hide TableInv, HeapInv, Reachable, SumSizes, Copyable, End, Size, ReachSet, Forwarded, Raw, Treat,
           IsDone, IsPending, WellFormedObj, PairsKept, ObjectsKept, Met, Sweeping, Restorable, Swept, Failure;
      r := Copied(0);
      LaterRefl(S(), g);
      if !IsReferenceArray(dst[y].cls) {
        LeafSwept(t, maxCopied, S(), g, i);
        return;
      }
      ghost var x := copied[i].src;
      var size := |dst[y].data|;
      SweptBegin(t, maxCopied, S(), g, i);
      for k := 0 to size
        invariant Counted() && |old(copied)| <= |copied|
        invariant r.Copied? && g == old(g).(f := g.f, addrs := g.addrs)
        invariant Later(old(S()), old(g), S(), g) && Sweeping(t, maxCopied, S(), g, i, k)
        invariant i < |copied| && copied[i].src == x && i < |g.addrs| && g.addrs[i] == y
        invariant size == Length(S(), g, i)
      {
        ghost var s0, g0 := S(), g;
        r := SweepSlot(y, i, k);
        if !r.Copied? { return; }
        LaterTransitive(old(S()), old(g), s0, g0, S(), g);
      }
      SweptEnd(t, maxCopied, S(), g, i);
    }

    /** copy_content_reference_internal */
    method CopyContentReference(y: Ref, ghost i: nat) returns (r: Outcome)
      requires Swept(t, maxCopied, S(), g, i) && Active(g.h, t, g.root)
      requires NextObject(t, maxCopied, S(), g, i, y)
      requires Counted()
      modifies this`src, this`dst, this`heapTop, this`copied, this`quota, this`allocs, this`g
      ensures g == old(g).(f := g.f, addrs := g.addrs)
      ensures r.Copied? ==> Counted()
      ensures !r.Copied? ==> Failed(r) && |old(copied)| <= |copied|
      ensures r.Restart? || r.Thrown? ==> Recoverable(t, S(), g)
      ensures r.Copied? ==> Later(old(S()), old(g), S(), g) && Swept(t, maxCopied, S(), g, i + 1)
    {
      hide TableInv, HeapInv, Reachable, SumSizes, Copyable, End, Size, ReachSet, Forwarded, Raw, Treat,
           IsDone, IsPending, WellFormedObj, PairsKept, ObjectsKept, Met, Sweeping, Restorable, Swept, Failure;
      var flags := dst[y].flags;
      if flags % 2 == 1 {
        assert false;
      } else if flags == OBJFLAGS_OBJECT {
        SweptBegin(t, maxCopied, S(), g, i);
        r := CopyContentObject(y, i);
        if r.Copied? {
          SweptEnd(t, maxCopied, S(), g, i);
        }
      } else if flags == OBJFLAGS_ARRAY {
        r := CopyContentArray(y, i);
      } else if flags == OBJFLAGS_PORTAL || flags == OBJFLAGS_DOMAIN {
        LaterRefl(S(), g);
        LeafSwept(t, maxCopied, S(), g, i);
        r := Copied(0);
      } else {
        assert false;
      }
    }

    /** Puts every flag word back from the table. */
    method CorrectFlags()
      requires Restorable(t, S(), g)
      modifies this`src
      ensures src == g.h
    {
      hide WellFormed, TableInv, Forwarded, Unrestored;
      TableEntries(t, S(), g);
      AllUnrestored(t, S(), g);
      for i := 0 to |copied|
        invariant Unrestored(g.h, src, copied, i)
      {
        RestoreStep(g.h, src, copied, i);
        src := src[copied[i].src := src[copied[i].src].(flags := copied[i].flags)];
      }
      NoneUnrestored(g.h, src, copied);
    }

    /** copy_reference under NEW_COPY. */
    method CopyReference(srcDomain: nat, ref: Ref) returns (r: Outcome)
      requires WellFormed(src, t) && t.scan && (ref == 0 || ref in src) && HeapReady(dst, heapTop)
      modifies this
      ensures srcDomain == t.id ==> r == Copied(ref) && S() == old(S()) && allocs == old(allocs)
      // a graph that can be copied is copied, unless the collector has to run
      ensures srcDomain != t.id ==>
                (r.Copied? <==>
                   && Copyable(old(src), t, ref, old(quota), maxCopied)
                   && Quiet(gc, old(allocs), old(allocs) + ObjectCount(old(src), t, ref)))
      ensures allocs >= old(allocs)
      ensures !r.Copied? ==> Failure(old(src), t, ref, maxCopied, old(quota), gc, old(allocs), r, quota, allocs)
      // the copy is complete, pays for exactly what it copied and leaves the source as it was
      ensures srcDomain != t.id && r.Copied? ==>
                && IsCopy(old(src), t, ref, dst, r.ref, g.f) && src == old(src)
                && quota + Cost(old(src), t, ref) == old(quota)
                && allocs == old(allocs) + ObjectCount(old(src), t, ref)
                && ObjectsKept(old(dst), dst) && (forall x :: x in g.f ==> g.f[x] !in old(dst))
                && Laid(src, g.f, old(heapTop), heapTop)
      // after a restart the copy can be made again
      ensures r.Restart? ==> src == old(src) && ObjectsKept(old(dst), dst) && HeapReady(dst, heapTop)
      // an exception leaves forwarding pointers behind, except that of the very first object
      ensures r.Thrown? ==> (src == old(src) <==> !Active(old(src), t, ref) || gc(old(allocs)) == Full)
    {
      hide WellFormed, HeapInv, TableInv, Swept, Copyable, IsCopy, SumSizes, Translate, Resolved, End, Met, Forwarded,
           Reachable, ReachSet, NextObject, Failure, Treat, HeapReady, Cost, ObjectCount, PairsKept, ObjectsKept,
           Laid;
      if srcDomain == t.id {
        return Copied(ref);
      }
      copied := [];
      SetMark();
      g := History(src, dst, ref, quota, heapTop, allocs, map[], []);
      ghost var s0, g0 := S(), g;
      RootIsMet(src, t, ref);
      InitInv(t, maxCopied, S(), ref, allocs);
      r := CopyShallowReference(ref);
      if r.Copied? {
        SweepStarts(t, maxCopied, s0, g0, S(), g, ref, r.ref);
        SweepBounded(t, maxCopied, S(), g, 0);
        CopiedMeansActive(t, S(), g);
        var swept := Sweep(ref, r.ref);
        if !swept.Copied? {
          r := swept;
        }
      }
      if r.Copied? {
        SweptIsCopy(t, maxCopied, S(), g, r.ref);
        SweepBounded(t, maxCopied, S(), g, |copied|);
        CopiesAreNew(t, maxCopied, S(), g);
      } else {
        FailureIsNoCopy(g.h, t, ref, maxCopied, g.quota0, gc, g.allocs0, r, quota, allocs);
        if r.Panicked? { return; }
        if r.Thrown? {
          UnrestoredIff(t, S(), g);
          return;
        }
        HeapIsReady(t, S(), g);
      }
      CorrectFlags();
      copied := [];
    }

    /** The mark's way over the new objects, those that it adds itself included. */
    method Sweep(ref: Ref, ghost w: Ref) returns (r: Outcome)
      requires Swept(t, maxCopied, S(), g, 0) && mark == g.base && WellFormed(g.h, t)
      requires (Active(g.h, t, g.root) && ref == g.root) || copied == []
      requires Resolved(g.h, t, g.f, ref) && w == Translate(g.h, t, g.f, ref)
      requires Counted()
      modifies this
      ensures g == old(g).(f := g.f, addrs := g.addrs)
      ensures !r.Copied? ==> Failed(r)
      ensures r.Restart? || r.Thrown? ==> Recoverable(t, S(), g)
      ensures r.Thrown? ==> Active(g.h, t, g.root) && copied != [] && gc(g.allocs0) == Idle
      ensures r.Copied? ==> Counted() && Swept(t, maxCopied, S(), g, |copied|)
      ensures r.Copied? ==> Resolved(g.h, t, g.f, ref) && w == Translate(g.h, t, g.f, ref)
    {
      hide WellFormed, HeapInv, TableInv, Swept, Copyable, SumSizes, Translate, Resolved, Forwarded,
           Reachable, ReachSet, Active, NextObject, PairsKept, Failure;
      ghost var i := 0;
      SweepBounded(t, maxCopied, S(), g, 0);
      r := Copied(0);
      while true
        invariant g == old(g).(f := g.f, addrs := g.addrs) && WellFormed(g.h, t)
        invariant i <= |copied| <= |g.h|
        invariant r.Copied? && Swept(t, maxCopied, S(), g, i) && mark == End(g.h, g.base, copied[..i])
        invariant (Active(g.h, t, g.root) && ref == g.root) || copied == []
        invariant Resolved(g.h, t, g.f, ref) && w == Translate(g.h, t, g.f, ref)
        invariant Counted()
        decreases |g.h| - i
      {
        SweepBounded(t, maxCopied, S(), g, i);
        var newobj := AtMark(i);
        if newobj == 0 {
          break;
        }
        SweptBegin(t, maxCopied, S(), g, i);
        ghost var s0, g0 := S(), g;
        r := CopyContentReference(newobj, i);
        if !r.Copied? { return; }
        TranslationKept(t, s0, g0, S(), g, ref);
        i := i + 1;
        SweepBounded(t, maxCopied, S(), g, i);
        assert copied[..i] == s0.copied[..i];
      }
    }

    /** Nothing was copied or charged. */
    twostate predicate Same()
      reads this
    {
      src == old(src) && dst == old(dst) && heapTop == old(heapTop) && quota == old(quota) && allocs == old(allocs)
    }

    /** What receivers do: the copy is made again after every restart, from what is left of the
        quota. The trace tells what each attempt found. It terminates since none is free. */
    method CopyRetrying(srcDomain: nat, ref: Ref) returns (r: Outcome, ghost trace: seq<Attempt>)
      requires WellFormed(src, t) && t.scan && (ref == 0 || ref in src) && HeapReady(dst, heapTop)
      modifies this
      ensures srcDomain == t.id ==> r == Copied(ref) && Same()
      ensures srcDomain != t.id ==>
                && Retried(Request(old(src), t, ref, maxCopied, gc), trace, r, Attempt(quota, allocs))
                && trace[0] == Attempt(old(quota), old(allocs))
      ensures srcDomain != t.id && r.Copied? ==>
                && IsCopy(old(src), t, ref, dst, r.ref, g.f) && src == old(src)
                && ObjectsKept(old(dst), dst) && (forall x :: x in g.f ==> g.f[x] !in old(dst))
    {
      hide WellFormed, Copyable, IsCopy, Cost, HeapReady, Failure, Meets, ObjectCount, Treat, TooMuch, Chain, Quiet;
      ghost var q := Request(src, t, ref, maxCopied, gc);
      trace := [Attempt(quota, allocs)];
      assert Chain(q, trace) by { OneAttempt(q, trace); }
      while true
        invariant src == q.h && HeapReady(dst, heapTop) && ObjectsKept(old(dst), dst)
        invariant srcDomain == t.id ==> Same()
        invariant Chain(q, trace) && trace != [] && trace[|trace| - 1] == Attempt(quota, allocs)
        invariant trace[0] == Attempt(old(quota), old(allocs))
        decreases quota
      {
        ghost var x := Attempt(quota, allocs);
        r := CopyReference(srcDomain, ref);
        if r.Copied? {
          break;
        }
        FailureIsNoCopy(q.h, t, ref, maxCopied, x.quota, gc, x.alloc, r, quota, allocs);
        if !r.Restart? {
          break;
        }
        ChainMore(q, trace, Attempt(quota, allocs));
        SizePositive(src[ref]);
        trace := trace + [Attempt(quota, allocs)];
      }
    }
  }
}
