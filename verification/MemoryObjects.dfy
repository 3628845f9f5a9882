/** The operations on memory-object descriptors of kjvm/trunk/dom0/zero_Memory_org.c, in place
    on the table of descriptors. Interrupts are off during each of them. */
module MemoryObjects {
  import opened Chunks
  import opened Pointers

  /** Exhausted: too few free descriptors; dzmemory_alloc then waits for a collection.
      NotAllowed and Panicked: the refusals of joinPrevious and joinNext. */
  datatype Outcome = Done | OutOfBounds | Exhausted | NotAllowed | Panicked

  function Cuts(a: nat, b: nat): seq<nat> { [a, b] }

  /** d' is d with regions lo to hi (exclusive) of a chain invalidated. */
  ghost predicate Gathered(d: seq<Desc>, d': seq<Desc>, ids: seq<nat>, lo: nat, hi: nat) {
    && lo <= hi <= |ids| && |d'| == |d| && (forall q :: 0 <= q < |ids| ==> ids[q] < |d|)
    && (forall q :: lo <= q < hi ==> d'[ids[q]] == d[ids[q]].(valid := 0, mem := 0))
    && (forall i :: 0 <= i < |d| && i !in ids[lo..hi] ==> d'[i] == d[i])
  }

  ghost predicate Apart(ids: seq<nat>) {
    forall p, q :: 0 <= p < q < |ids| ==> ids[p] != ids[q]
  }

  lemma RegionsApart(d: seq<Desc>, head: int, l: Layout, k: nat)
    requires Inv(d, head, l) && k in l.live
    ensures Apart(l.live[k].ids)
  {
    if |l.live[k].ids| > 0 { NeighboursApart(d, head, l, k, 0, 0); }
  }

  /** Links lo to hi (exclusive) belong to dom. */
  ghost predicate Owned(links: seq<nat>, lo: nat, hi: nat, dom: nat) {
    hi <= |links| && forall q :: lo <= q < hi ==> links[q] == dom
  }

  lemma GatherNone(d: seq<Desc>, head: int, l: Layout, k: nat, lo: nat)
    requires Inv(d, head, l) && k in l.live && lo < |l.live[k].ids|
    ensures Gathered(d, d, l.live[k].ids, lo, lo)
  {
    IdsInTable(d, head, l, k);
    hide Inv;
  }

  lemma GatherStep(d: seq<Desc>, d': seq<Desc>, ids: seq<nat>, lo: nat, hi: nat)
    requires Gathered(d, d', ids, lo, hi) && hi < |ids| && Apart(ids)
    ensures lo <= hi && |d'| == |d| && d'[ids[hi]] == d[ids[hi]]
    ensures Gathered(d, d'[ids[hi] := d[ids[hi]].(valid := 0, mem := 0)], ids, lo, hi + 1)
  {
    assert ids[lo..hi + 1] == ids[lo..hi] + [ids[hi]];
    assert ids[hi] !in ids[lo..hi];
  }

  lemma GatherOne(d: seq<Desc>, head: int, l: Layout, k: nat, lo: nat, hi: nat, d': seq<Desc>)
    requires Inv(d, head, l) && k in l.live && hi < |l.live[k].ids| && Gathered(d, d', l.live[k].ids, lo, hi)
    ensures var c := l.live[k];
            && c.ids[hi] < |d| == |d'| && lo <= hi && |c.links| + 1 == |c.ids| && |c.cuts| == |c.ids| + 1
            && (var x := d'[c.ids[hi]];
                && c.cuts[lo] <= c.cuts[hi] && c.cuts[hi] + x.size == c.cuts[hi + 1]
                && x.next == At(c.ids, hi + 1) && (hi + 1 < |c.ids| ==>
                  x.nextOwner == c.links[hi] && c.ids[hi + 1] < |d|)
                && Gathered(d, d'[c.ids[hi] := x.(valid := 0, mem := 0)], c.ids, lo, hi + 1))
  {
    hide Inv, Gathered, Apart;
    var ids := l.live[k].ids;
    RegionFacts(d, head, l, k, hi);
    RegionsApart(d, head, l, k);
    GatherStep(d, d', ids, lo, hi);
    if hi + 1 < |ids| { RegionFacts(d, head, l, k, hi + 1); }
  }

  lemma GrowOwned(links: seq<nat>, lo: nat, hi: nat, dom: nat)
    requires Owned(links, lo, hi, dom)
    ensures hi < |links| && links[hi] == dom ==> Owned(links, lo, hi + 1, dom)
  {
  }

  /** The table after a gathered run was replaced by descriptor a. */
  ghost predicate HookTable(d: seq<Desc>, d': seq<Desc>, top: nat, last: int, a: nat, size: nat, mem: nat, dom: nat)
    requires top < |d| && NULL <= last < |d| && a < |d|
  {
    var o := d[top];
    var next := if last == NULL then NULL else d[last].next;
    && |d'| == |d| && NULL <= o.prev < |d| && NULL <= next < |d|
    && d'[a] == Desc(1, 1, mem, size, o.prev, next, o.prevOwner, if last == NULL then dom else d[last].nextOwner)
    && d'[top] == o.(prev := NULL, next := if last == top then NULL else o.next)
    && (last != NULL && last != top ==> d'[last] == d[last].(next := NULL))
    && (o.prev != NULL ==> d'[o.prev] == d[o.prev].(next := a))
    && (next != NULL ==> d'[next] == d[next].(prev := a))
    && (forall i :: 0 <= i < |d| && i != a && i != top && i != last && i != o.prev && i != next ==> d'[i] == d[i])
  }

  /** Regions lo to hi are linked by dom only, and no longer run with that property holds p. */
  ghost predicate MaximalRun(c: Chunk, dom: nat, lo: nat, p: nat, hi: nat) {
    && lo <= p <= hi < |c.ids| && |c.links| + 1 == |c.ids|
    && (forall q :: lo <= q < hi ==> c.links[q] == dom)
    && (lo > 0 ==> c.links[lo - 1] != dom) && (hi + 1 < |c.ids| ==> c.links[hi] != dom)
  }

  /** The maximal run around x of regions linked by dom, lo to hi of its chunk, gives way to
      region a, in the layout and in the table. */
  ghost predicate RunJoined(l: Layout, l': Layout, d: seq<Desc>, d': seq<Desc>, x: nat, dom: nat, lo: nat, hi: nat,
                            a: nat, k2: nat)
  {
    && x < |l.place| && l.place[x].Live? && l.place[x].k in l.live && a < |d|
    && (var c := l.live[l.place[x].k];
        && MaximalRun(c, dom, lo, l.place[x].p, hi) && lo <= hi < |c.ids| && |c.cuts| == |c.ids| + 1
        && (forall q :: 0 <= q < |c.ids| ==> c.ids[q] < |d|)
        && Replaced(l, l', c.ids[lo], c.ids[hi], [a], [], [], k2) && JoinTable(d, d', c, lo, hi, a))
  }

  lemma RunIsMaximal(c: Chunk, dom: nat, lo: nat, p: nat, hi: nat)
    requires |c.links| + 1 == |c.ids| && lo <= p < |c.ids| && lo <= hi < |c.ids|
    requires Owned(c.links, lo, p, dom) && Owned(c.links, lo, hi, dom)
    requires (lo > 0 ==> c.links[lo - 1] != dom) && (hi + 1 < |c.ids| ==> c.links[hi] != dom)
    ensures MaximalRun(c, dom, lo, p, hi)
  {
  }

  class DescTable {
    const dz: array<Desc>
    var head: int                 // dzMemoryFreeList
    var released: seq<Range>      // the calls of jxfree
    ghost var l: Layout
    ghost var s: Story
    ghost var nextDead: nat       // keys of dead chains are below this

    ghost predicate Valid()
      reads this, dz
    {
      && |l.place| == dz.Length
      && Inv(dz[..], head, l) && NoLeak(dz[..], l) && StoryOk(l, released, s)
      && (forall k :: k in l.dead ==> k < nextDead)
    }

    /** dzmemory_init: all descriptors go on the free list, then the first one is taken off
        again to stand for invalid memory. */
    constructor (n: nat)
      requires n > 0
      ensures Valid() && fresh(dz) && dz.Length == n && |l.free| == n - 1 && l.live == map[]
      ensures released == [] && s == Story([], [])
      ensures l.dead == map[0 := [n - 1]] && dz[n - 1].refcount == 1 && dz[n - 1].valid == 0
    {
      dz := new Desc[n];
      head := NULL;
      new;
      hide Inv, NoLeak, StoryOk, FreshLayout;
      var i := 0;
      while i < n
        invariant 0 <= i <= n && head == i - 1
        invariant forall j :: 0 <= j < i ==> FreshDesc(dz[j], j)
      {
        dz[i] := dz[i].(refcount := 0, valid := 2, mem := 0, prev := NULL, next := head);
        head := i;
        i := i + 1;
      }
      var invalid := AllocDescriptor();
      dz[invalid] := dz[invalid].(valid := 0);
      released, l, s, nextDead := [], FreshLayout(n), Story([], []), 1;
      FreshIsValid(n, dz[..], head);
    }

    /** Takes the first descriptor off the free list; dzmemory_alloc. */
    method AllocDescriptor() returns (i: nat)
      requires 0 <= head < dz.Length && dz[head].next >= NULL
      modifies this`head, dz
      ensures i == old(head) && head == old(dz[head].next)
      ensures dz[..] == old(dz[..])[i := old(dz[head]).(valid := 0, next := NULL, refcount := 1)]
    {
      i := head;
      head := dz[i].next;
      dz[i] := dz[i].(valid := 0, next := NULL, refcount := 1);
    }

    /** createDZMemory */
    method CreateDescriptor(size: nat, mem: nat) returns (i: nat)
      requires 0 <= head < dz.Length && dz[head].next >= NULL
      modifies this`head, dz
      ensures i == old(head) && head == old(dz[head].next)
      ensures dz[..] == old(dz[..])[i := Desc(1, 1, mem, size, NULL, NULL, 0, 0)]
    {
      i := AllocDescriptor();
      dz[i] := Desc(dz[i].refcount, 1, mem, size, NULL, NULL, 0, 0);
    }

    /** Whether n descriptors are free; the free list is walked no further than n. */
    method HasFree(n: nat) returns (b: bool)
      requires Valid()
      ensures b <==> n <= |l.free|
    {
      hide NoLeak, StoryOk, Inv;
      var h, k := head, 0;
      FreeFacts(dz[..], head, l, 0);
      while k < n
        invariant 0 <= k <= |l.free| && k <= n && h == At(l.free, k)
      {
        if h == NULL {
          return false;
        }
        FreeFacts(dz[..], head, l, k);
        h := dz[h].next;
        k := k + 1;
      }
      return true;
    }

    /** A chunk of one region for fresh memory. */
    method Create(size: nat, mem: nat) returns (r: Outcome, i: nat)
      requires Valid() && mem > 0
      modifies this, dz
      ensures Valid() && released == old(released)
      ensures r.Done? || (r.Exhausted? && old(l.free) == [])
      ensures r.Done? ==>
                && old(l.free) != [] && i == old(l.free)[0]
                && s == old(s).(created := old(s).created + [Range(mem, size)])
                && l.live == old(l).live[|old(s).created| := Chunk([i], [mem, mem + size], [])]
                && l.dead == old(l).dead && i < dz.Length
                && dz[..] == old(dz[..])[i := Desc(1, 1, mem, size, NULL, NULL, 0, 0)]
      ensures !r.Done? ==> dz[..] == old(dz[..]) && l == old(l) && s == old(s)
    {
      hide Inv, NoLeak, StoryOk;
      var ok := HasFree(1);
      if !ok { return Exhausted, 0; }
      FreeFacts(dz[..], head, l, 0);
      ghost var d0, l0, s0 := dz[..], l, s;
      i := CreateDescriptor(size, mem);
      l := CreateLayout(l0, |s0.created|, mem, size);
      s := s.(created := s.created + [Range(mem, size)]);
      CreateKeepsAll(d0, old(head), l0, mem, size, l, dz[..], head, released, s0);
      r := Done;
    }

    /** n entries of the free list are at hand, none of them entry i. */
    ghost predicate AtHand(n: nat, i: int)
      reads this`head, dz
    {
      && (n >= 1 ==> 0 <= head < dz.Length && head != i)
      && (n >= 2 ==> 0 <= dz[head].next < dz.Length && dz[head].next != i && dz[head].next != head)
      && (n >= 3 ==> var h := dz[dz[head].next].next;
                     0 <= h < dz.Length && h != i && h != head && h != dz[head].next)
    }

    /** The pointer surgery of dzmemory_split2. */
    method Unhook2(x: nat, offset: nat, dom: nat) returns (a: nat, b: nat)
      requires x < dz.Length && offset <= dz[x].size && AtHand(2, x) && NULL <= dz[dz[head].next].next
      requires NULL <= dz[x].prev < dz.Length && NULL <= dz[x].next < dz.Length
      requires dz[x].prev != x && dz[x].next != x && (dz[x].prev == dz[x].next ==> dz[x].prev == NULL)
      requires AtHand(2, dz[x].prev) && AtHand(2, dz[x].next)
      modifies this`head, dz
      ensures a == old(head) && b == old(dz[head].next) && head == old(dz[dz[head].next].next)
      ensures Split2Table(old(dz[..]), dz[..], x, a, b, offset, dom)
    {
      a := CreateDescriptor(offset, dz[x].mem);
      b := CreateDescriptor(dz[x].size - offset, dz[x].mem + offset);
      if dz[x].prev != NULL {
        dz[dz[x].prev] := dz[dz[x].prev].(next := a);
      }
      dz[a] := dz[a].(prev := dz[x].prev, prevOwner := dz[x].prevOwner, next := b, nextOwner := dom);
      dz[b] := dz[b].(prev := a, prevOwner := dom, next := dz[x].next, nextOwner := dz[x].nextOwner);
      if dz[x].next != NULL {
        dz[dz[x].next] := dz[dz[x].next].(prev := b);
      }
      dz[x] := dz[x].(prev := NULL, next := NULL, mem := 0, valid := 0);
    }

    /** dzmemory_split2: region x is split at offset into regions a and b. */
    method Split2(x: nat, offset: int, dom: nat) returns (r: Outcome, a: nat, b: nat)
      requires Valid() && x < dz.Length && l.place[x].Live? && dz[x].refcount > 0
      modifies this, dz
      ensures Valid() && released == old(released) && s == old(s)
      ensures r.OutOfBounds? <==> offset < 0 || offset > old(dz[x].size)
      ensures r.Done? || r.OutOfBounds? || (r.Exhausted? && |old(l.free)| < 2)
      ensures !r.Done? ==> dz[..] == old(dz[..]) && l == old(l)
      ensures r.Done? ==> Replaced(old(l), l, x, x, [a, b], [old(dz[x].mem) + offset], [dom], old(nextDead))
      ensures r.Done? ==> a < dz.Length && b < dz.Length && Split2Table(old(dz[..]), dz[..], x, a, b, offset, dom)
    {
      hide Inv, NoLeak, StoryOk, Replaced, Split2Table, ChunkOk, Replacement;
      PlaceFacts(dz[..], head, l, x);
      ghost var k, p := l.place[x].k, l.place[x].p;
      if offset < 0 || offset > dz[x].size {
        return OutOfBounds, 0, 0;
      }
      var ok := HasFree(2);
      if !ok { return Exhausted, 0, 0; }
      ghost var d0, l0 := dz[..], l;
      ReadyToSplit(d0, head, l, k, p, 2);
      a, b := Unhook2(x, offset, dom);
      l := CommitSplit2(d0, old(head), l0, k, p, x, a, b, offset, dom, dz[..], head, released, s, nextDead);
      nextDead := nextDead + 1;
      r := Done;
    }

    /** The three descriptors of dzmemory_split3, not yet linked. */
    method CreateThree(x: nat, offset: nat, len: nat) returns (a: nat, b: nat, e: nat)
      requires x < dz.Length && offset + len <= dz[x].size && AtHand(3, x) && NULL <= dz[dz[dz[head].next].next].next
      modifies this`head, dz
      ensures a == old(head) && b == old(dz[head].next) && e == old(dz[dz[head].next].next)
      ensures head == old(dz[dz[dz[head].next].next].next)
      ensures var o := old(dz[x]);
              && dz[a] == Desc(1, 1, o.mem, offset, NULL, NULL, 0, 0)
              && dz[b] == Desc(1, 1, o.mem + offset, len, NULL, NULL, 0, 0)
              && dz[e] == Desc(1, 1, o.mem + len + offset, o.size - len - offset, NULL, NULL, 0, 0)
              && (forall i :: 0 <= i < dz.Length && i != a && i != b && i != e ==> dz[i] == old(dz[i]))
    {
      a := CreateDescriptor(offset, dz[x].mem);
      assert forall i :: 0 <= i < dz.Length && i != a ==> dz[..][i] == old(dz[i]);
      b := CreateDescriptor(len, dz[x].mem + offset);
      assert forall i :: 0 <= i < dz.Length && i != a && i != b ==> dz[..][i] == old(dz[i]);
      assert dz[..][a] == Desc(1, 1, old(dz[x]).mem, offset, NULL, NULL, 0, 0);
      e := CreateDescriptor(dz[x].size - len - offset, dz[x].mem + len + offset);
      assert forall i :: 0 <= i < dz.Length && i != a && i != b && i != e ==> dz[..][i] == old(dz[i]);
    }

    /** Region x gives its neighbours to the new descriptors a, b and e. */
    method HookThree(x: nat, a: nat, b: nat, e: nat, dom: nat)
      requires x < dz.Length && a < dz.Length && b < dz.Length && e < dz.Length
      requires x != a && x != b && x != e && a != b && a != e && b != e
      requires NULL <= dz[x].prev < dz.Length && NULL <= dz[x].next < dz.Length
      requires dz[x].prev != x && dz[x].next != x && (dz[x].prev == dz[x].next ==> dz[x].prev == NULL)
      requires dz[x].prev != a && dz[x].prev != b && dz[x].prev != e
      requires dz[x].next != a && dz[x].next != b && dz[x].next != e
      modifies dz
      ensures var o := old(dz[x]);
              && dz[x] == o.(valid := 0, mem := 0, prev := NULL, next := NULL)
              && dz[a] == old(dz[a]).(prev := o.prev, next := b, nextOwner := dom, prevOwner := o.prevOwner)
              && dz[b] == old(dz[b]).(prev := a, next := e, nextOwner := dom, prevOwner := dom)
              && dz[e] == old(dz[e]).(prev := b, next := o.next, nextOwner := o.nextOwner, prevOwner := dom)
              && (o.prev != NULL ==> dz[o.prev] == old(dz[..])[o.prev].(next := a))
              && (o.next != NULL ==> dz[o.next] == old(dz[..])[o.next].(prev := e))
              && (forall i :: 0 <= i < dz.Length && i != a && i != b && i != e && i != x && i != o.prev && i != o.next
                    ==> dz[i] == old(dz[i]))
    {
      if dz[x].prev != NULL {
        dz[dz[x].prev] := dz[dz[x].prev].(next := a);
      }
      dz[a] := dz[a].(prev := dz[x].prev, next := b, nextOwner := dom, prevOwner := dz[x].prevOwner);
      dz[b] := dz[b].(prev := a, next := e, nextOwner := dom, prevOwner := dom);
      dz[e] := dz[e].(prev := b, next := dz[x].next, nextOwner := dz[x].nextOwner, prevOwner := dom);
      if dz[x].next != NULL {
        dz[dz[x].next] := dz[dz[x].next].(prev := e);
      }
      dz[x] := dz[x].(prev := NULL, next := NULL, valid := 0, mem := 0);
    }

    /** The pointer surgery of dzmemory_split3. */
    method Unhook3(x: nat, offset: nat, len: nat, dom: nat) returns (a: nat, b: nat, e: nat)
      requires x < dz.Length && offset + len <= dz[x].size && AtHand(3, x) && NULL <= dz[dz[dz[head].next].next].next
      requires NULL <= dz[x].prev < dz.Length && NULL <= dz[x].next < dz.Length
      requires dz[x].prev != x && dz[x].next != x && (dz[x].prev == dz[x].next ==> dz[x].prev == NULL)
      requires AtHand(3, dz[x].prev) && AtHand(3, dz[x].next)
      modifies this`head, dz
      ensures a == old(head) && b == old(dz[head].next) && e == old(dz[dz[head].next].next)
      ensures head == old(dz[dz[dz[head].next].next].next)
      ensures Split3Table(old(dz[..]), dz[..], x, a, b, e, offset, len, dom)
    {
      a, b, e := CreateThree(x, offset, len);
      HookThree(x, a, b, e, dom);
    }

    /** dzmemory_split3: region x is split into the regions before, inside and behind a range. */
    method Split3(x: nat, offset: int, len: int, dom: nat) returns (r: Outcome, a: nat, b: nat, e: nat)
      requires Valid() && x < dz.Length && l.place[x].Live? && dz[x].refcount > 0
      modifies this, dz
      ensures Valid() && released == old(released) && s == old(s)
      ensures r.OutOfBounds? <==> offset < 0 || len < 0 || offset + len > old(dz[x].size)
      ensures r.Done? || r.OutOfBounds? || (r.Exhausted? && |old(l.free)| < 3)
      ensures !r.Done? ==> dz[..] == old(dz[..]) && l == old(l)
      ensures r.Done? ==>
                Replaced(old(l), l, x, x, [a, b, e], Cuts(old(dz[x].mem) + offset, old(dz[x].mem) + len + offset),
                  [dom, dom], old(nextDead))
      ensures r.Done? ==>
                && a < dz.Length && b < dz.Length && e < dz.Length
                && Split3Table(old(dz[..]), dz[..], x, a, b, e, offset, len, dom)
    {
      hide Inv, NoLeak, StoryOk, Replaced, Split3Table, ChunkOk, Replacement;
      PlaceFacts(dz[..], head, l, x);
      ghost var k, p := l.place[x].k, l.place[x].p;
      if offset < 0 || len < 0 || offset + len > dz[x].size {
        return OutOfBounds, 0, 0, 0;
      }
      var ok := HasFree(3);
      if !ok { return Exhausted, 0, 0, 0; }
      ghost var d0, l0 := dz[..], l;
      ReadyToSplit(d0, head, l, k, p, 3);
      a, b, e := Unhook3(x, offset, len, dom);
      l := CommitSplit3(d0, old(head), l0, k, p, x, a, b, e, offset, len, dom, dz[..], head, released, s, nextDead);
      nextDead := nextDead + 1;
      r := Done;
    }

    /** The pointer surgery of dzmemory_join. */
    method UnhookPair(x: nat, y: nat) returns (a: nat)
      requires x < dz.Length && y < dz.Length && x != y && dz[x].next == y && dz[y].prev == x
      requires AtHand(1, x) && AtHand(1, y) && NULL <= dz[head].next
      requires NULL <= dz[x].prev < dz.Length && NULL <= dz[y].next < dz.Length
      requires dz[x].prev != x && dz[x].prev != y && dz[y].next != x && dz[y].next != y
      requires dz[x].prev == dz[y].next ==> dz[x].prev == NULL
      requires AtHand(1, dz[x].prev) && AtHand(1, dz[y].next)
      modifies this`head, dz
      ensures a == old(head) && head == old(dz[head].next)
      ensures PairTable(old(dz[..]), dz[..], x, y, a)
    {
      a := CreateDescriptor(dz[x].size + dz[y].size, dz[x].mem);
      if dz[x].prev != NULL {
        dz[dz[x].prev] := dz[dz[x].prev].(next := a);
      }
      dz[a] := dz[a].(prev := dz[x].prev, prevOwner := dz[x].prevOwner, next := dz[y].next,
        nextOwner := dz[y].nextOwner);
      if dz[y].next != NULL {
        dz[dz[a].next] := dz[dz[a].next].(prev := a);
      }
      dz[x] := dz[x].(prev := NULL, valid := 0, mem := 0);
      dz[y] := dz[y].(next := NULL, valid := 0, mem := 0);
    }

    /** dzmemory_join of region x with the region y behind it. */
    method Join(x: nat, y: nat) returns (r: Outcome, a: nat)
      requires Valid() && x < dz.Length && y < dz.Length && l.place[x].Live? && dz[x].next == y
      requires dz[x].refcount > 0 || dz[y].refcount > 0
      modifies this, dz
      ensures Valid() && released == old(released) && s == old(s)
      ensures r.Done? || (r.Exhausted? && |old(l.free)| < 1)
      ensures !r.Done? ==> dz[..] == old(dz[..]) && l == old(l)
      ensures r.Done? ==> Replaced(old(l), l, x, y, [a], [], [], old(nextDead))
      ensures r.Done? ==> a < dz.Length && PairTable(old(dz[..]), dz[..], x, y, a)
    {
      hide Inv, NoLeak, StoryOk, Replaced, PairTable, ChunkOk, Replacement;
      PlaceFacts(dz[..], head, l, x);
      ghost var k, p := l.place[x].k, l.place[x].p;
      var ok := HasFree(1);
      if !ok { return Exhausted, 0; }
      ghost var d0, l0 := dz[..], l;
      ReadyToJoin(d0, head, l, k, p);
      a := UnhookPair(x, y);
      l := CommitPair(d0, old(head), l0, k, p, x, y, a, dz[..], head, released, s, nextDead);
      nextDead := nextDead + 1;
      r := Done;
    }

    /** The first loop of memory_joinAll: up the chain as long as dom owns the link. */
    method FindTop(x: nat, dom: nat) returns (top: nat, ghost lo: nat)
      requires Valid() && x < dz.Length && l.place[x].Live?
      ensures l.place[x].k in l.live && lo <= l.place[x].p < |l.live[l.place[x].k].ids|
      ensures var c := l.live[l.place[x].k];
              && |c.links| + 1 == |c.ids| && top == c.ids[lo] && top < dz.Length
              && Owned(c.links, lo, l.place[x].p, dom) && (lo > 0 ==> c.links[lo - 1] != dom)
    {
      hide Inv, NoLeak, StoryOk;
      PlaceFacts(dz[..], head, l, x);
      ghost var k := l.place[x].k;
      top, lo := x, l.place[x].p;
      RegionFacts(dz[..], head, l, k, lo);
      while dz[top].prev != NULL && dz[top].prevOwner == dom
        invariant lo <= l.place[x].p && top == l.live[k].ids[lo] && top < dz.Length
        invariant dz[top].prev == At(l.live[k].ids, lo - 1) && (lo > 0 ==> dz[top].prevOwner == l.live[k].links[lo - 1])
        invariant Owned(l.live[k].links, lo, l.place[x].p, dom)
        decreases lo
      {
        RegionFacts(dz[..], head, l, k, lo - 1);
        top, lo := dz[top].prev, lo - 1;
      }
      hide ChunkOk;
    }

    /** The second loop of memory_joinAll: down the chain as long as dom owns the link,
        invalidating each region. The link behind a last region may be dom's as well; `last`
        is then NULL. */
    method Gather(top: nat, dom: nat, ghost k: nat, ghost lo: nat) returns (last: int, size: nat, ghost hi: nat)
      requires Valid() && k in l.live && lo < |l.live[k].ids| && l.live[k].ids[lo] == top && top < dz.Length
      modifies dz
      ensures k in l.live && lo <= hi < |l.live[k].ids| && ChunkOk(l.live[k]) && l == old(l) && head == old(head)
      ensures var c := l.live[k];
              && c.cuts[lo] <= c.cuts[hi + 1] && size == c.cuts[hi + 1] - c.cuts[lo]
              && |c.links| + 1 == |c.ids| && Owned(c.links, lo, hi, dom) && (hi + 1 < |c.ids| ==> c.links[hi] != dom)
              && (last == c.ids[hi] || (last == NULL && hi + 1 == |c.ids|))
      ensures Gathered(old(dz[..]), dz[..], l.live[k].ids, lo, hi + 1)
    {
      hide Inv, NoLeak, StoryOk;
      ghost var d0, c := dz[..], l.live[k];
      size := 0;
      last := top;
      hi := lo;
      RegionFacts(d0, head, l, k, lo);
      assert Owned(c.links, lo, lo, dom);
      hide ChunkOk, Gathered, Owned;
      GatherNone(d0, head, l, k, lo);
      while true
        invariant lo <= hi < |c.ids| && last == c.ids[hi] && last < dz.Length && ChunkOk(c)
        invariant c.cuts[lo] <= c.cuts[hi] && size == c.cuts[hi] - c.cuts[lo]
        invariant |c.links| + 1 == |c.ids| && Owned(c.links, lo, hi, dom)
        invariant Gathered(d0, dz[..], c.ids, lo, hi)
        decreases |c.ids| - hi
      {
        GatherOne(d0, head, l, k, lo, hi, dz[..]);
        size := size + dz[last].size;
        dz[last] := dz[last].(valid := 0, mem := 0);
        GrowOwned(c.links, lo, hi, dom);
        if dz[last].nextOwner != dom { break; }
        last := dz[last].next;
        if last == NULL { break; }
        hi := hi + 1;
      }
    }

    /** The new descriptor of memory_joinAll takes over the link in front of region top. */
    method HookTop(top: nat, size: nat, mem: nat) returns (a: nat)
      requires top < dz.Length && AtHand(1, top) && NULL <= dz[head].next
      requires NULL <= dz[top].prev < dz.Length && dz[top].prev != top && AtHand(1, dz[top].prev)
      modifies this`head, dz
      ensures a == old(head) && head == old(dz[head].next)
      ensures var o := old(dz[top]);
              && dz[a] == Desc(1, 1, mem, size, o.prev, NULL, o.prevOwner, 0)
              && dz[top] == o.(prev := NULL)
              && (o.prev != NULL ==> dz[o.prev] == old(dz[..])[o.prev].(next := a))
              && (forall i :: 0 <= i < dz.Length && i != a && i != top && i != o.prev ==> dz[i] == old(dz[i]))
    {
      a := CreateDescriptor(size, mem);
      if dz[top].prev != NULL {
        dz[dz[top].prev] := dz[dz[top].prev].(next := a);
      }
      dz[a] := dz[a].(prev := dz[top].prev, prevOwner := dz[top].prevOwner);
      dz[top] := dz[top].(prev := NULL);
    }

    /** And the link behind region last, if there is one. */
    method HookLast(last: int, a: nat, dom: nat)
      requires NULL <= last < dz.Length && a < dz.Length && last != a
      requires last != NULL ==> NULL <= dz[last].next < dz.Length && dz[last].next != last && dz[last].next != a
      modifies dz
      ensures var next := if last == NULL then NULL else old(dz[..])[last].next;
              && dz[a] == old(dz[a]).(next := next,
                                      nextOwner := if last == NULL then dom else old(dz[..])[last].nextOwner)
              && (last != NULL ==> dz[last] == old(dz[..])[last].(next := NULL))
              && (next != NULL ==> dz[next] == old(dz[..])[next].(prev := a))
              && (forall i :: 0 <= i < dz.Length && i != a && i != last && i != next ==> dz[i] == old(dz[i]))
    {
      if last != NULL {
        dz[a] := dz[a].(next := dz[last].next, nextOwner := dz[last].nextOwner);
        if dz[last].next != NULL {
          dz[dz[last].next] := dz[dz[last].next].(prev := a);
        }
        dz[last] := dz[last].(next := NULL);
      } else {
        dz[a] := dz[a].(next := NULL, nextOwner := dom);
      }
    }

    /** The relinking at the end of memory_joinAll. */
    method HookJoined(top: nat, last: int, size: nat, mem: nat, dom: nat) returns (a: nat)
      requires top < dz.Length && NULL <= last < dz.Length && AtHand(1, top) && AtHand(1, last) && NULL <= dz[head].next
      requires NULL <= dz[top].prev < dz.Length && dz[top].prev != top && AtHand(1, dz[top].prev)
      requires dz[top].prev != NULL ==> dz[top].prev != last
      requires last != NULL ==>
                 && NULL <= dz[last].next < dz.Length && dz[last].next != last && dz[last].next != top
                 && AtHand(1, dz[last].next) && (dz[last].next == dz[top].prev ==> dz[top].prev == NULL)
      modifies this`head, dz
      ensures a == old(head) && head == old(dz[head].next)
      ensures HookTable(old(dz[..]), dz[..], top, last, a, size, mem, dom)
    {
      a := HookTop(top, size, mem);
      HookLast(last, a, dom);
    }

    /** What memory_joinAll does to the table: the run that FindTop and Gather have found makes
        room for one descriptor. */
    method UnhookRun(x: nat, dom: nat) returns (a: nat, ghost lo: nat, ghost hi: nat)
      requires Valid() && x < dz.Length && l.place[x].Live? && |l.free| >= 1
      modifies this`head, dz
      ensures l.place[x].k in l.live && a == l.free[0] && a < dz.Length && head == At(l.free, 1)
      ensures var c := l.live[l.place[x].k];
              && MaximalRun(c, dom, lo, l.place[x].p, hi) && lo <= hi < |c.ids| && ChunkOk(c)
              && (forall q :: 0 <= q < |c.ids| ==> c.ids[q] < dz.Length)
              && c.ids[l.place[x].p] == x && JoinTable(old(dz[..]), dz[..], c, lo, hi, a)
    {
      hide Inv, NoLeak, StoryOk, HookTable, JoinTable, Gathered, ChunkOk, Owned;
      PlaceFacts(dz[..], head, l, x);
      ghost var k, p := l.place[x].k, l.place[x].p;
      ghost var d0, c := dz[..], l.live[k];
      var top;
      top, lo := FindTop(x, dom);
      var mem := dz[top].mem;
      RegionFacts(d0, head, l, k, lo);
      var last, size;
      last, size, hi := Gather(top, dom, k, lo);
      RunIsMaximal(c, dom, lo, p, hi);
      ReadyToHook(d0, head, l, k, lo, hi, dz[..], last);
      ghost var d1 := dz[..];
      a := HookJoined(top, last, size, mem, dom);
      HookedIsJoin(d0, old(head), l, k, lo, hi, d1, dz[..], last, a, dom);
    }

    /** memory_joinAll: the run of regions around x whose links all belong to dom becomes one. */
    method JoinAll(x: nat, dom: nat) returns (r: Outcome, a: nat, ghost lo: nat, ghost hi: nat)
      requires Valid() && x < dz.Length && l.place[x].Live? && dz[x].refcount > 0
      modifies this, dz
      ensures Valid() && released == old(released) && s == old(s)
      ensures r.Done? || (r.Exhausted? && |old(l.free)| < 1)
      ensures !r.Done? ==> dz[..] == old(dz[..]) && l == old(l)
      ensures r.Done? ==> RunJoined(old(l), l, old(dz[..]), dz[..], x, dom, lo, hi, a, old(nextDead))
    {
      hide Inv, NoLeak, StoryOk, Replaced, JoinTable, ChunkOk;
      ChunkShapes(dz[..], head, l);
      r, a, lo, hi := Exhausted, 0, 0, 0;
      var ok := HasFree(1);
      if !ok { return; }
      ghost var d0, l0 := dz[..], l;
      a, lo, hi := UnhookRun(x, dom);
      ghost var c := l0.live[l0.place[x].k];
      RegionFacts(d0, old(head), l, l.place[x].k, lo);
      RegionFacts(d0, old(head), l, l.place[x].k, hi);
      l := CommitJoin(d0, old(head), l0, l0.place[x].k, lo, hi, c.ids[lo], c.ids[hi], a, dz[..], head, released, s,
                      nextDead, l0.place[x].p);
      nextDead := nextDead + 1;
      r := Done;
    }

    /** memory_joinPrevious, for the domain dom. */
    method JoinPrevious(x: nat, dom: nat) returns (r: Outcome, a: nat)
      requires Valid() && x < dz.Length && l.place[x].Live? && dz[x].refcount > 0
      modifies this, dz
      ensures Valid() && released == old(released) && s == old(s)
      ensures r.Panicked? <==> old(dz[x].prevOwner) != dom || old(dz[x].prev) == NULL
      ensures r.Done? ==>
                && 0 <= old(dz[x].prev) < dz.Length && Replaced(old(l), l, old(dz[x].prev), x, [a], [], [],
                  old(nextDead))
                && a < dz.Length && PairTable(old(dz[..]), dz[..], old(dz[x].prev), x, a)
      ensures !r.Done? ==> dz[..] == old(dz[..]) && l == old(l)
    {
      hide Inv, NoLeak, StoryOk, Replaced, ChunkOk;
      PlaceFacts(dz[..], head, l, x);
      RegionFacts(dz[..], head, l, l.place[x].k, l.place[x].p);
      if dz[x].prevOwner != dom || dz[x].prev == NULL {
        return Panicked, 0;
      }
      RegionFacts(dz[..], head, l, l.place[x].k, l.place[x].p - 1);
      r, a := Join(dz[x].prev, x);
    }

    /** memory_joinNext, for the domain dom. */
    method JoinNext(x: nat, dom: nat) returns (r: Outcome, a: nat)
      requires Valid() && x < dz.Length && l.place[x].Live? && dz[x].refcount > 0
      modifies this, dz
      ensures Valid() && released == old(released) && s == old(s)
      ensures r.NotAllowed? <==> old(dz[x].nextOwner) != dom
      ensures r.Panicked? <==> old(dz[x].nextOwner) == dom && old(dz[x].next) == NULL
      ensures r.Done? ==>
                && 0 <= old(dz[x].next) < dz.Length && Replaced(old(l), l, x, old(dz[x].next), [a], [], [],
                  old(nextDead))
                && a < dz.Length && PairTable(old(dz[..]), dz[..], x, old(dz[x].next), a)
      ensures !r.Done? ==> dz[..] == old(dz[..]) && l == old(l)
    {
      hide Inv, NoLeak, StoryOk, Replaced, ChunkOk;
      PlaceFacts(dz[..], head, l, x);
      RegionFacts(dz[..], head, l, l.place[x].k, l.place[x].p);
      if dz[x].nextOwner != dom {
        return NotAllowed, 0;
      }
      if dz[x].next == NULL {
        return Panicked, 0;
      }
      RegionFacts(dz[..], head, l, l.place[x].k, l.place[x].p + 1);
      r, a := Join(x, dz[x].next);
    }

    /** dzmemory_free: puts descriptor i on the free list. */
    method FreeDescriptor(i: nat)
      requires i < dz.Length
      modifies this`head, dz
      ensures head == i && dz[..] == old(dz[..])[i := old(dz[i]).(valid := 2, next := old(head))]
    {
      dz[i] := dz[i].(valid := 2, next := head);
      head := i;
    }

    /** The first two loops of dzmemory_free_chunk: whether any descriptor of the chain of x is
        referenced, looking first behind x and then in front of it. */
    method ChunkReferenced(x: nat) returns (b: bool, top: nat)
      requires Inv(dz[..], head, l) && |l.place| == dz.Length && x < dz.Length && !l.place[x].Free?
      ensures b == Referenced(dz[..], ChainOf(l, l.place[x]))
      ensures !b ==> |ChainOf(l, l.place[x])| > 0 && top == ChainOf(l, l.place[x])[0]
    {
      hide Inv, Referenced;
      ghost var d, chain := dz[..], l.place[x];
      ghost var ids := ChainOf(l, chain);
      ChainFacts(d, head, l, x);
      ghost var q := chain.p;
      top := x;
      var n: int := x;
      while n != NULL
        invariant chain.p <= q <= |ids| && n == At(ids, q)
        invariant AllIdle(d, ids, chain.p, q)
        decreases |ids| - q
      {
        ChainRegion(d, head, l, chain, q);
        if dz[n].refcount != 0 {
          OneReferenced(d, ids, q);
          return true, top;
        }
        n := dz[n].next;
        q := q + 1;
      }
      q := chain.p;
      ChainRegion(d, head, l, chain, q);
      while dz[top].prev != NULL
        invariant 0 <= q <= chain.p && top == ids[q] && top < dz.Length && dz[top].prev == At(ids, q - 1)
        invariant AllIdle(d, ids, q, |ids|)
        decreases q
      {
        ChainRegion(d, head, l, chain, q - 1);
        top := dz[top].prev;
        q := q - 1;
        if dz[top].refcount != 0 {
          OneReferenced(d, ids, q);
          return true, top;
        }
      }
      NoneReferenced(d, ids);
      b := false;
    }

    /** The third loop of dzmemory_free_chunk: frees all descriptors behind the first one. */
    method FreeTail(top: nat, ghost chain: Place)
      requires Inv(dz[..], head, l) && !Referenced(dz[..], ChainOf(l, chain))
      requires |ChainOf(l, chain)| > 0 && top == ChainOf(l, chain)[0] && top < dz.Length
      modifies this`head, dz
      ensures TailFreed(old(dz[..]), dz[..], l, ChainOf(l, chain), |ChainOf(l, chain)|, head)
      ensures SizeSoFar(dz[..], l, chain, |ChainOf(l, chain)|)
    {
      hide Inv, Referenced, TailFreed, SizeSoFar;
      ghost var d, h, ids, q := dz[..], head, ChainOf(l, chain), 1;
      TailNone(d, head, l, chain);
      var next := dz[top].next;
      while next != NULL
        invariant 1 <= q <= |ids| && next == At(ids, q)
        invariant TailFreed(d, dz[..], l, ids, q, head) && SizeSoFar(dz[..], l, chain, q)
        decreases |ids| - q
      {
        TailOne(d, h, l, chain, q, dz[..], head);
        ghost var d1, h1, y := dz[..], head, dz[next];
        dz[top] := dz[top].(size := dz[top].size + dz[next].size);
        var after := dz[next].next;
        dz[next] := dz[next].(prev := NULL, mem := 0, size := 0, next := NULL);
        FreeDescriptor(next);
        assert dz[..] == d1[top := d1[top].(size := d1[top].size + y.size)]
                           [next := y.(prev := NULL, mem := 0, size := 0, next := h1, valid := 2)];
        next := after;
        q := q + 1;
      }
    }

    /** dzmemory_free_chunk */
    method FreeChunk(x: nat)
      requires Inv(dz[..], head, l) && StoryOk(l, released, s) && |l.place| == dz.Length
      requires x < dz.Length && !l.place[x].Free?
      modifies this`head, this`released, this`l, this`s, dz
      ensures var chain := old(l.place[x]);
              if Referenced(old(dz[..]), old(ChainOf(l, chain))) then
                && dz[..] == old(dz[..]) && head == old(head) && l == old(l) && released == old(released) && s == old(s)
              else
                && |old(ChainOf(l, chain))| > 0 && l == ReclaimLayout(old(l), chain)
                && Inv(dz[..], head, l) && StoryOk(l, released, s)
                && (forall i :: 0 <= i < dz.Length ==> ReclaimedDesc(old(dz[..])[i], dz[i], old(l), old(l.place)[i],
                  chain))
                && (chain.Live? ==>
                      && chain.k in old(l.live) && ChunkOk(old(l.live[chain.k]))
                      && released == old(released) + [RangeOf(old(l.live[chain.k]))]
                      && s == old(s).(keys := old(s).keys + [chain.k]))
                && (chain.Dead? ==> released == old(released) && s == old(s))
    {
      hide Inv, StoryOk, Referenced, TailFreed, SizeSoFar, ReclaimedDesc, ReclaimLayout, ChunkOk;
      ghost var d0, h0, l0, chain := dz[..], head, l, l.place[x];
      ghost var ids := ChainOf(l, chain);
      var b, top := ChunkReferenced(x);
      if b { return; }
      ChainRegion(d0, h0, l0, chain, 0);
      if dz[top].prev != NULL || dz[top].next != NULL {
        FreeTail(top, chain);
      } else {
        TailNone(d0, h0, l0, chain);
      }
      ghost var d1, h1 := dz[..], head;
      TailRange(d0, h0, l0, chain, d1, h1);
      dz[top] := dz[top].(next := NULL);
      if dz[top].mem != 0 {
        released := released + [Range(dz[top].mem, dz[top].size)];
        s := if chain.Live? then s.(keys := s.keys + [chain.k]) else s;
        dz[top] := dz[top].(mem := 0);
      }
      FreeDescriptor(top);
      l := ReclaimLayout(l0, chain);
      FinishTail(d0, h0, l0, chain, d1, h1, dz[..]);
      ReclaimKeepsInv(d0, h0, l0, chain, l, dz[..], head);
      ReclaimKeepsStory(l0, chain, l, old(released), old(s));
    }

    /** dzmemory_incRefcount */
    method IncRef(x: nat)
      requires Valid() && x < dz.Length && !l.place[x].Free?
      modifies dz
      ensures Valid() && dz[..] == old(dz[..])[x := old(dz[x]).(refcount := old(dz[x].refcount) + 1)]
    {
      hide Inv, NoLeak, StoryOk;
      CountKeepsInv(dz[..], head, l, x, dz[x].refcount + 1);
      PlacesAreOk(dz[..], head, l);
      CountLeaksNothing(dz[..], l, x, dz[x].refcount + 1);
      ghost var d' := dz[..][x := dz[x].(refcount := dz[x].refcount + 1)];
      dz[x] := dz[x].(refcount := dz[x].refcount + 1);
      assert dz[..] == d';
    }

    /** dzmemory_decRefcount. The chain is reclaimed exactly when this was the last reference to
        any of its descriptors, and memory is given back, as one range, exactly for a live one. */
    method DecRef(x: nat)
      requires Valid() && x < dz.Length && !l.place[x].Free? && dz[x].refcount > 0
      modifies this, dz
      ensures Valid()
      ensures var chain, d := old(l.place[x]), old(dz[..])[x := old(dz[x]).(refcount := old(dz[x].refcount) - 1)];
              if Referenced(d, old(ChainOf(l, chain))) then
                dz[..] == d && l == old(l) && released == old(released) && s == old(s)
              else
                && |old(ChainOf(l, chain))| > 0 && l == ReclaimLayout(old(l), chain) && |old(l.place)| == dz.Length
                && (forall i :: 0 <= i < dz.Length ==> ReclaimedDesc(d[i], dz[i], old(l), old(l.place)[i], chain))
                && (chain.Live? ==>
                      && chain.k in old(l.live) && ChunkOk(old(l.live[chain.k]))
                      && released == old(released) + [RangeOf(old(l.live[chain.k]))]
                      && s == old(s).(keys := old(s).keys + [chain.k]))
                && (chain.Dead? ==> released == old(released) && s == old(s))
    {
      hide Inv, NoLeak, StoryOk, Referenced, ReclaimedDesc, ReclaimLayout, ChunkOk;
      ghost var d0, l0, chain := dz[..], l, l.place[x];
      ghost var d1 := d0[x := d0[x].(refcount := d0[x].refcount - 1)];
      PlacesAreOk(d0, head, l);
      ChainFacts(d0, head, l, x);
      CountKeepsInv(d0, head, l, x, d0[x].refcount - 1);
      dz[x] := dz[x].(refcount := dz[x].refcount - 1);
      assert dz[..] == d1;
      if dz[x].refcount == 0 {
        FreeChunk(x);
      } else {
        OneReferenced(d1, ChainOf(l, chain), chain.p);
      }
      if Referenced(d1, ChainOf(l0, chain)) {
        CountLeaksNothing(d0, l0, x, d0[x].refcount - 1);
      } else {
        OthersReferenced(d0, l0, x, d0[x].refcount - 1);
        PlacesAreOk(d1, old(head), l0);
        ReclaimedNames(l0, chain, l);
        ReclaimLeaksNothing(d1, l0, chain, l, dz[..]);
      }
    }
  }

  /** Before a split: the free descriptors, the region and its neighbours are apart. */
  lemma ReadyToSplit(d: seq<Desc>, head: int, l: Layout, k: nat, p: nat, n: nat)
    requires Inv(d, head, l) && k in l.live && p < |l.live[k].ids| && l.live[k].ids[p] < |d|
    requires n <= |l.free| && 1 <= n <= 3
    ensures var o, x := d[l.live[k].ids[p]], l.live[k].ids[p];
            && NULL <= o.prev < |d| && NULL <= o.next < |d| && o.prev != x && o.next != x
            && (o.prev == o.next ==> o.prev == NULL)
            && head == l.free[0] < |d| && head != x && head != o.prev && head != o.next
            && (n >= 2 ==> var h := d[head].next;
                           h == l.free[1] < |d| && h != head && h != x && h != o.prev && h != o.next)
            && (n >= 3 ==> var h := d[d[head].next].next;
                           h == l.free[2] < |d| && h != head && h != d[head].next && h != x && h != o.prev
                             && h != o.next)
            && (n >= 1 ==> At(l.free, 1) == d[head].next >= NULL)
            && (n >= 2 ==> At(l.free, 2) == d[d[head].next].next >= NULL)
            && (n >= 3 ==> At(l.free, 3) == d[d[d[head].next].next].next >= NULL)
    ensures l.free[..n] == if n == 1 then [l.free[0]] else if n == 2 then [l.free[0], l.free[1]]
                           else [l.free[0], l.free[1], l.free[2]]
  {
    hide Inv;
    FreeFacts(d, head, l, 0);
    if n >= 2 { FreeFacts(d, head, l, 1); }
    if n >= 3 { FreeFacts(d, head, l, 2); }
    NeighboursApart(d, head, l, k, p, p);
    RegionFacts(d, head, l, k, p);
    hide ChunkOk;
  }

  /** Chunk of x and y, with the regions from x to y replaced by `ids`. */
  ghost predicate Replaced(l: Layout, l': Layout, x: nat, y: nat, ids: seq<nat>, cuts: seq<nat>, links: seq<nat>,
                           k2: nat)
  {
    && x < |l.place| && y < |l.place| && l.place[x].Live? && l.place[y].Live? && l.place[y].k == l.place[x].k
    && (var k, lo, hi := l.place[x].k, l.place[x].p, l.place[y].p;
        && k in l.live && ChunkOk(l.live[k]) && lo <= hi < |l.live[k].ids|
        && l'.live == l.live[k := ReplaceRun(l.live[k], lo, hi, ids, cuts, links)]
        && l'.dead == l.dead[k2 := l.live[k].ids[lo..hi + 1]] && k2 !in l.dead
        && |ids| <= |l.free| && ids == l.free[..|ids|] && l'.free == l.free[|ids|..])
  }

  /** A finished rewiring becomes part of the layout. */
  lemma CommitRewiring(d: seq<Desc>, head: int, l: Layout, k: nat, lo: nat, hi: nat, m: nat, ids: seq<nat>,
                       cuts: seq<nat>, links: seq<nat>, k2: nat, c': Chunk, d': seq<Desc>, head': int,
                       released: seq<Range>, s: Story, i: nat) returns (l': Layout)
    requires Inv(d, head, l) && NoLeak(d, l) && StoryOk(l, released, s)
    requires k in l.live && ChunkOk(l.live[k]) && lo <= hi < |l.live[k].ids| && 0 < m <= |l.free| && k2 !in l.dead
    requires |ids| == m && ids == l.free[..m] && CutsFit(l.live[k], lo, hi, m, cuts, links) && ChunkOk(c')
    requires c' == ReplaceRun(l.live[k], lo, hi, ids, cuts, links)
    requires Rewired(d, d', l.live[k], lo, hi, ids, c') && head' == At(l.free, m)
    requires lo <= i <= hi && l.live[k].ids[i] < |d| && d[l.live[k].ids[i]].refcount > 0
    ensures Inv(d', head', l') && NoLeak(d', l') && StoryOk(l', released, s) && |l'.place| == |l.place|
    ensures Replacement(l, k, lo, hi, m, cuts, links, k2, c', l')
  {
    hide Inv, NoLeak, StoryOk, ReplaceRun, ChunkOk, CutsFit, Rewired;
    l' := ReplaceLayout(l, k, lo, hi, m, cuts, links, k2);
    RewiringKeepsAll(d, head, l, k, lo, hi, m, cuts, links, k2, c', l', d', head', released, s, i);
  }

  lemma ReplacedSo(l: Layout, l': Layout, k: nat, lo: nat, hi: nat, x: nat, y: nat, m: nat, ids: seq<nat>,
                   cuts: seq<nat>, links: seq<nat>, k2: nat, c': Chunk)
    requires Replacement(l, k, lo, hi, m, cuts, links, k2, c', l') && |ids| == m && ids == l.free[..m]
    requires x < |l.place| && y < |l.place| && l.place[x] == Live(k, lo) && l.place[y] == Live(k, hi)
    ensures Replaced(l, l', x, y, ids, cuts, links, k2) && l'.dead.Keys == l.dead.Keys + {k2}
  {
    hide ReplaceRun, ChunkOk, CutsFit;
  }

  lemma CommitSplit2(d: seq<Desc>, head: int, l: Layout, k: nat, p: nat, x: nat, a: nat, b: nat, offset: nat, dom: nat,
                     d': seq<Desc>, head': int, released: seq<Range>, s: Story, k2: nat) returns (l': Layout)
    requires Inv(d, head, l) && NoLeak(d, l) && StoryOk(l, released, s) && k2 !in l.dead
    requires x < |d| == |l.place| && l.place[x] == Live(k, p)
    requires k in l.live && ChunkOk(l.live[k]) && p < |l.live[k].ids| && x == l.live[k].ids[p] && d[x].refcount > 0
    requires |l.free| >= 2 && l.free[..2] == [a, b] && a < |d| && b < |d| && head' == At(l.free, 2)
    requires Split2Table(d, d', x, a, b, offset, dom)
    ensures Inv(d', head', l') && NoLeak(d', l') && StoryOk(l', released, s) && |l'.place| == |l.place|
    ensures Replaced(l, l', x, x, [a, b], [d[x].mem + offset], [dom], k2) && l'.dead.Keys == l.dead.Keys + {k2}
  {
    hide Inv, NoLeak, StoryOk, ReplaceRun, ChunkOk, CutsFit, Rewired, Replaced, Replacement, Split2Table;
    var cuts, links := [d[x].mem + offset], [dom];
    var c' := ReplaceRun(l.live[k], p, p, [a, b], cuts, links);
    Split2Rewires(d, head, l, k, p, x, a, b, offset, dom, d', c');
    l' := CommitRewiring(d, head, l, k, p, p, 2, [a, b], cuts, links, k2, c', d', head', released, s, p);
    ReplacedSo(l, l', k, p, p, x, x, 2, [a, b], cuts, links, k2, c');
  }

  lemma CommitSplit3(d: seq<Desc>, head: int, l: Layout, k: nat, p: nat, x: nat, a: nat, b: nat, e: nat,
                     offset: nat, len: nat, dom: nat,
                     d': seq<Desc>, head': int, released: seq<Range>, s: Story, k2: nat) returns (l': Layout)
    requires Inv(d, head, l) && NoLeak(d, l) && StoryOk(l, released, s) && k2 !in l.dead
    requires x < |d| == |l.place| && l.place[x] == Live(k, p)
    requires k in l.live && ChunkOk(l.live[k]) && p < |l.live[k].ids| && x == l.live[k].ids[p] && d[x].refcount > 0
    requires |l.free| >= 3 && l.free[..3] == [a, b, e] && a < |d| && b < |d| && e < |d| && head' == At(l.free, 3)
    requires Split3Table(d, d', x, a, b, e, offset, len, dom)
    ensures Inv(d', head', l') && NoLeak(d', l') && StoryOk(l', released, s) && |l'.place| == |l.place|
    ensures Replaced(l, l', x, x, [a, b, e], Cuts(d[x].mem + offset, d[x].mem + len + offset), [dom, dom], k2)
    ensures l'.dead.Keys == l.dead.Keys + {k2}
  {
    hide Inv, NoLeak, StoryOk, ReplaceRun, ChunkOk, CutsFit, Rewired, Replaced, Replacement, Split3Table;
    var cuts, links := Cuts(d[x].mem + offset, d[x].mem + len + offset), [dom, dom];
    var c' := ReplaceRun(l.live[k], p, p, [a, b, e], cuts, links);
    Split3Rewires(d, head, l, k, p, x, a, b, e, offset, len, dom, d', c');
    l' := CommitRewiring(d, head, l, k, p, p, 3, [a, b, e], cuts, links, k2, c', d', head', released, s, p);
    ReplacedSo(l, l', k, p, p, x, x, 3, [a, b, e], cuts, links, k2, c');
  }

  /** The table after neighbours x and y were joined into a. */
  ghost predicate PairTable(d: seq<Desc>, d': seq<Desc>, x: nat, y: nat, a: nat)
    requires x < |d| && y < |d| && a < |d|
  {
    var o, q := d[x], d[y];
    && |d'| == |d| && NULL <= o.prev < |d| && NULL <= q.next < |d|
    && d'[a] == Desc(1, 1, o.mem, o.size + q.size, o.prev, q.next, o.prevOwner, q.nextOwner)
    && d'[x] == o.(prev := NULL, valid := 0, mem := 0) && d'[y] == q.(next := NULL, valid := 0, mem := 0)
    && (o.prev != NULL ==> d'[o.prev] == d[o.prev].(next := a))
    && (q.next != NULL ==> d'[q.next] == d[q.next].(prev := a))
    && (forall i :: 0 <= i < |d| && i != a && i != x && i != y && i != o.prev && i != q.next ==> d'[i] == d[i])
  }

  lemma PairIsJoin(d: seq<Desc>, d': seq<Desc>, c: Chunk, p: nat, a: nat)
    requires ChunkOk(c) && (forall q :: 0 <= q < |c.ids| ==> c.ids[q] < |d|) && a < |d| && p + 1 < |c.ids|
    requires Fits(d[c.ids[p]], c, p) && Fits(d[c.ids[p + 1]], c, p + 1)
    requires PairTable(d, d', c.ids[p], c.ids[p + 1], a)
    ensures JoinTable(d, d', c, p, p + 1, a)
  {
    forall i | 0 <= i < |d| && i != a && !Touched(c, p, p + 1, i) ensures d'[i] == d[i] {
      UntouchedIsElsewhere(c, p, p + 1, i);
    }
    hide Touched;
  }

  lemma CommitJoin(d: seq<Desc>, head: int, l: Layout, k: nat, lo: nat, hi: nat, x: nat, y: nat, a: nat,
                   d': seq<Desc>, head': int, released: seq<Range>, s: Story, k2: nat, i: nat) returns (l': Layout)
    requires Inv(d, head, l) && NoLeak(d, l) && StoryOk(l, released, s) && k2 !in l.dead
    requires x < |d| == |l.place| && y < |d| && l.place[x] == Live(k, lo) && l.place[y] == Live(k, hi)
    requires k in l.live && ChunkOk(l.live[k]) && lo <= hi < |l.live[k].ids|
    requires (forall q :: 0 <= q < |l.live[k].ids| ==> l.live[k].ids[q] < |d|) && a < |d|
    requires |l.free| >= 1 && l.free[0] == a && head' == At(l.free, 1)
    requires lo <= i <= hi && d[l.live[k].ids[i]].refcount > 0
    requires JoinTable(d, d', l.live[k], lo, hi, a)
    ensures Inv(d', head', l') && NoLeak(d', l') && StoryOk(l', released, s) && |l'.place| == |l.place|
    ensures Replaced(l, l', x, y, [a], [], [], k2) && l'.dead.Keys == l.dead.Keys + {k2}
  {
    hide Inv, NoLeak, StoryOk, ReplaceRun, ChunkOk, CutsFit, Rewired, Replaced, Replacement, JoinTable;
    var c' := ReplaceRun(l.live[k], lo, hi, [a], [], []);
    JoinRewires(d, head, l, k, lo, hi, a, d', c');
    assert l.free[..1] == [a];
    l' := CommitRewiring(d, head, l, k, lo, hi, 1, [a], [], [], k2, c', d', head', released, s, i);
    ReplacedSo(l, l', k, lo, hi, x, y, 1, [a], [], [], k2, c');
  }

  lemma CommitPair(d: seq<Desc>, head: int, l: Layout, k: nat, p: nat, x: nat, y: nat, a: nat,
                   d': seq<Desc>, head': int, released: seq<Range>, s: Story, k2: nat) returns (l': Layout)
    requires Inv(d, head, l) && NoLeak(d, l) && StoryOk(l, released, s) && k2 !in l.dead
    requires x < |d| == |l.place| && y < |d| && l.place[x] == Live(k, p) && d[x].next == y
    requires k in l.live && p < |l.live[k].ids| && x == l.live[k].ids[p]
    requires d[x].refcount > 0 || d[y].refcount > 0
    requires |l.free| >= 1 && l.free[0] == a && a < |d| && head' == At(l.free, 1) && PairTable(d, d', x, y, a)
    ensures Inv(d', head', l') && NoLeak(d', l') && StoryOk(l', released, s) && |l'.place| == |l.place|
    ensures Replaced(l, l', x, y, [a], [], [], k2) && l'.dead.Keys == l.dead.Keys + {k2}
  {
    hide Inv, NoLeak, StoryOk, ChunkOk, Replaced, PairTable, JoinTable;
    RegionFacts(d, head, l, k, p);
    RegionFacts(d, head, l, k, p + 1);
    RegionFits(d, head, l, k, p);
    RegionFits(d, head, l, k, p + 1);
    IdsInTable(d, head, l, k);
    hide Fits;
    PairIsJoin(d, d', l.live[k], p, a);
    l' := CommitJoin(d, head, l, k, p, p + 1, x, y, a, d', head', released, s, k2,
      if d[x].refcount > 0 then p else p + 1);
  }

  lemma ReadyToJoin(d: seq<Desc>, head: int, l: Layout, k: nat, p: nat)
    requires Inv(d, head, l) && k in l.live && p < |l.live[k].ids| && l.live[k].ids[p] < |d|
    requires 1 <= |l.free| && d[l.live[k].ids[p]].next >= 0
    ensures p + 1 < |l.live[k].ids| && d[l.live[k].ids[p]].next == l.live[k].ids[p + 1] < |d|
    ensures var x, y := l.live[k].ids[p], l.live[k].ids[p + 1];
            && x != y && d[y].prev == x
            && NULL <= d[x].prev < |d| && NULL <= d[y].next < |d|
            && d[x].prev != x && d[x].prev != y && d[y].next != x && d[y].next != y
            && (d[x].prev == d[y].next ==> d[x].prev == NULL)
            && head == l.free[0] < |d| && head != x && head != y && head != d[x].prev && head != d[y].next
            && d[head].next == At(l.free, 1) >= NULL
  {
    hide Inv;
    FreeFacts(d, head, l, 0);
    RegionFacts(d, head, l, k, p);
    RegionFacts(d, head, l, k, p + 1);
    NeighboursApart(d, head, l, k, p, p + 1);
    hide ChunkOk;
  }

  /** Free descriptors, a run of regions and the regions next to it are different entries. */
  lemma NeighboursApart(d: seq<Desc>, head: int, l: Layout, k: nat, lo: nat, hi: nat)
    requires Inv(d, head, l) && k in l.live && lo <= hi < |l.live[k].ids|
    ensures var c := l.live[k];
            && (forall q :: 0 <= q < |c.ids| ==> c.ids[q] < |d| && c.ids[q] !in l.free)
            && (forall p, q :: 0 <= p < q < |c.ids| ==> c.ids[p] != c.ids[q])
            && (forall p, q :: 0 <= p < q < |l.free| ==> l.free[p] != l.free[q])
  {
    assert LivePlaced(l, k, l.live[k].ids) && FreePlaced(l);
    hide DescOk, ChunkOk, DeadPlaced;
  }

  /** Before the relinking: the new descriptor, the run and its neighbours are apart. */
  lemma ReadyToHook(d: seq<Desc>, head: int, l: Layout, k: nat, lo: nat, hi: nat, d': seq<Desc>, last: int)
    requires Inv(d, head, l) && k in l.live && lo <= hi < |l.live[k].ids| && |l.free| >= 1
    requires Gathered(d, d', l.live[k].ids, lo, hi + 1)
    requires last == l.live[k].ids[hi] || (last == NULL && hi + 1 == |l.live[k].ids|)
    ensures var c := l.live[k];
            && |d'| == |d| && c.ids[lo] < |d| && NULL <= last < |d|
            && head == l.free[0] < |d| && d'[head].next == At(l.free, 1)
            && (var top := c.ids[lo];
                && head != top && head != last && d'[top].prev == At(c.ids, lo - 1)
                && NULL <= d'[top].prev < |d| && d'[top].prev != top && d'[top].prev != head
                && (d'[top].prev != NULL ==> d'[top].prev != last)
                && (last != NULL ==>
                      && d'[last].next == At(c.ids, hi + 1) && NULL <= d'[last].next < |d|
                      && d'[last].next != last && d'[last].next != top && d'[last].next != head
                      && (d'[last].next == d'[top].prev ==> d'[top].prev == NULL)))
  {
    var c := l.live[k];
    FreeFacts(d, head, l, 0);
    RegionFacts(d, head, l, k, lo);
    RegionFacts(d, head, l, k, hi);
    NeighboursApart(d, head, l, k, lo, hi);
    hide Inv, ChunkOk;
    assert head !in c.ids[lo..hi + 1];
  }

  lemma ChunkShapes(d: seq<Desc>, head: int, l: Layout)
    requires Inv(d, head, l)
    ensures forall k :: k in l.live ==> |l.live[k].cuts| == |l.live[k].ids| + 1
  {
    hide FreePlaced, LivePlaced, DeadPlaced, DescOk;
  }

  /** A gathered run as its neighbours see it. */
  ghost predicate RunIn(d: seq<Desc>, d1: seq<Desc>, c: Chunk, lo: nat, hi: nat) {
    && lo <= hi < |c.ids| && |d1| == |d| && (forall q :: 0 <= q < |c.ids| ==> c.ids[q] < |d|) && Apart(c.ids)
    && Fits(d[c.ids[lo]], c, lo) && Fits(d[c.ids[hi]], c, hi)
    && (forall q :: lo <= q <= hi ==> d1[c.ids[q]] == d[c.ids[q]].(valid := 0, mem := 0))
    && (forall i :: 0 <= i < |d| && (forall q :: lo <= q <= hi ==> i != c.ids[q]) ==> d1[i] == d[i])
  }

  lemma GatheredIsRun(d: seq<Desc>, head: int, l: Layout, k: nat, lo: nat, hi: nat, d1: seq<Desc>)
    requires Inv(d, head, l) && k in l.live && lo <= hi < |l.live[k].ids|
    requires Gathered(d, d1, l.live[k].ids, lo, hi + 1)
    ensures RunIn(d, d1, l.live[k], lo, hi) && |l.live[k].cuts| == |l.live[k].ids| + 1
  {
    hide Inv, Apart, ChunkOk, Gathered;
    var c := l.live[k];
    RegionsApart(d, head, l, k);
    GatheredShape(d, d1, c.ids, lo, hi);
    RegionFits(d, head, l, k, lo);
    RegionFits(d, head, l, k, hi);
    assert |c.cuts| == |c.ids| + 1;
    hide Fits;
    forall i | 0 <= i < |d| && (forall q :: lo <= q <= hi ==> i != c.ids[q]) ensures d1[i] == d[i] {
      GatheredOutside(d, d1, c.ids, lo, hi, i);
    }
  }

  lemma GatheredShape(d: seq<Desc>, d1: seq<Desc>, ids: seq<nat>, lo: nat, hi: nat)
    requires Gathered(d, d1, ids, lo, hi + 1)
    ensures |d1| == |d| && (forall q :: 0 <= q < |ids| ==> ids[q] < |d|)
    ensures forall q :: lo <= q <= hi ==> d1[ids[q]] == d[ids[q]].(valid := 0, mem := 0)
  {
  }

  lemma GatheredOutside(d: seq<Desc>, d1: seq<Desc>, ids: seq<nat>, lo: nat, hi: nat, i: nat)
    requires Gathered(d, d1, ids, lo, hi + 1) && i < |d| && (forall q :: lo <= q <= hi ==> i != ids[q])
    ensures d1[i] == d[i]
  {
    assert i !in ids[lo..hi + 1];
  }

  lemma FreeApart(d: seq<Desc>, head: int, l: Layout, k: nat)
    requires Inv(d, head, l) && k in l.live && |l.free| > 0
    ensures l.free[0] !in l.live[k].ids
  {
    if |l.live[k].ids| > 0 { NeighboursApart(d, head, l, k, 0, 0); }
  }

  /** The ends of the run and what lies beside it, once relinked. */
  lemma HookedEnds(d: seq<Desc>, d1: seq<Desc>, d2: seq<Desc>, c: Chunk, lo: nat, hi: nat, last: int, a: nat, size: nat,
                   dom: nat)
    requires RunIn(d, d1, c, lo, hi) && a < |d| && a !in c.ids
    requires last == c.ids[hi] || (last == NULL && hi + 1 == |c.ids|)
    requires HookTable(d1, d2, c.ids[lo], last, a, size, c.cuts[lo], dom)
    ensures |d2| == |d| && d[c.ids[lo]].mem == c.cuts[lo]
    ensures d2[a] == Desc(1, 1, c.cuts[lo], size, d[c.ids[lo]].prev, d[c.ids[hi]].next, d[c.ids[lo]].prevOwner,
            d2[a].nextOwner)
    ensures d[c.ids[hi]].next != NULL ==> d2[a].nextOwner == d[c.ids[hi]].nextOwner
    ensures lo > 0 ==> d2[c.ids[lo - 1]] == d[c.ids[lo - 1]].(next := a)
    ensures hi + 1 < |c.ids| ==> d2[c.ids[hi + 1]] == d[c.ids[hi + 1]].(prev := a)
  {
  }

  lemma HookedInside(d: seq<Desc>, d1: seq<Desc>, d2: seq<Desc>, c: Chunk, lo: nat, hi: nat, last: int, a: nat,
                     size: nat, dom: nat, q: nat)
    requires RunIn(d, d1, c, lo, hi) && a < |d| && a !in c.ids && lo <= q <= hi
    requires last == c.ids[hi] || (last == NULL && hi + 1 == |c.ids|)
    requires HookTable(d1, d2, c.ids[lo], last, a, size, c.cuts[lo], dom)
    ensures d2[c.ids[q]] == d[c.ids[q]].(valid := 0, mem := 0, prev := if q == lo then NULL else d[c.ids[q]].prev,
                                         next := if q == hi then NULL else d[c.ids[q]].next)
  {
  }

  lemma HookedOutside(d: seq<Desc>, d1: seq<Desc>, d2: seq<Desc>, c: Chunk, lo: nat, hi: nat, last: int, a: nat,
                      size: nat, dom: nat, i: nat)
    requires RunIn(d, d1, c, lo, hi) && a < |d| && i < |d| && i != a && !Touched(c, lo, hi, i)
    requires last == c.ids[hi] || (last == NULL && hi + 1 == |c.ids|)
    requires HookTable(d1, d2, c.ids[lo], last, a, size, c.cuts[lo], dom)
    ensures d2[i] == d[i]
  {
    UntouchedIsElsewhere(c, lo, hi, i);
    hide Touched;
  }

  /** All regions of the run are unhooked, and what is not in the table's corner is as before. */
  lemma HookedBody(d: seq<Desc>, d1: seq<Desc>, d2: seq<Desc>, c: Chunk, lo: nat, hi: nat, last: int, a: nat, size: nat,
                   dom: nat)
    requires RunIn(d, d1, c, lo, hi) && a < |d| && a !in c.ids
    requires last == c.ids[hi] || (last == NULL && hi + 1 == |c.ids|)
    requires HookTable(d1, d2, c.ids[lo], last, a, size, c.cuts[lo], dom)
    ensures |d2| == |d| && forall q :: 0 <= q < |c.ids| ==> c.ids[q] < |d|
    ensures forall q :: lo <= q <= hi ==>
              var u, v := d[c.ids[q]], d2[c.ids[q]];
              v == u.(valid := 0, mem := 0, prev := if q == lo then NULL else u.prev,
                next := if q == hi then NULL else u.next)
    ensures forall i :: 0 <= i < |d| && i != a && !Touched(c, lo, hi, i) ==> d2[i] == d[i]
  {
    HookedEnds(d, d1, d2, c, lo, hi, last, a, size, dom);
    hide Fits, HookTable, Touched;
    assert forall q :: 0 <= q < |c.ids| ==> c.ids[q] < |d|;
    hide RunIn;
    forall q | lo <= q <= hi
      ensures var u, v := d[c.ids[q]], d2[c.ids[q]];
              v == u.(valid := 0, mem := 0, prev := if q == lo then NULL else u.prev,
                next := if q == hi then NULL else u.next)
    {
      HookedInside(d, d1, d2, c, lo, hi, last, a, size, dom, q);
    }
    forall i | 0 <= i < |d| && i != a && !Touched(c, lo, hi, i) ensures d2[i] == d[i] {
      HookedOutside(d, d1, d2, c, lo, hi, last, a, size, dom, i);
    }
  }

  lemma HookedIsJoin(d: seq<Desc>, head: int, l: Layout, k: nat, lo: nat, hi: nat, d1: seq<Desc>, d2: seq<Desc>,
                     last: int, a: nat, dom: nat)
    requires Inv(d, head, l) && k in l.live && lo <= hi < |l.live[k].ids| && ChunkOk(l.live[k])
    requires |l.free| > 0 && a == l.free[0]
    requires last == l.live[k].ids[hi] || (last == NULL && hi + 1 == |l.live[k].ids|)
    requires Gathered(d, d1, l.live[k].ids, lo, hi + 1) && l.live[k].cuts[lo] <= l.live[k].cuts[hi + 1]
    requires NULL <= last < |d1| && l.live[k].ids[lo] < |d1| && a < |d1|
    requires HookTable(d1, d2, l.live[k].ids[lo], last, a, l.live[k].cuts[hi + 1] - l.live[k].cuts[lo],
                       l.live[k].cuts[lo], dom)
    ensures |d1| == |d| && (forall q :: 0 <= q < |l.live[k].ids| ==> l.live[k].ids[q] < |d|)
    ensures JoinTable(d, d2, l.live[k], lo, hi, a)
  {
    hide Inv, RunIn, HookTable, Touched, Gathered, ChunkOk;
    var c := l.live[k];
    GatheredIsRun(d, head, l, k, lo, hi, d1);
    var size := c.cuts[hi + 1] - c.cuts[lo];
    GatheredShape(d, d1, c.ids, lo, hi);
    FreeApart(d, head, l, k);
    HookedEnds(d, d1, d2, c, lo, hi, last, a, size, dom);
    HookedBody(d, d1, d2, c, lo, hi, last, a, size, dom);
  }

  // ------------------------------------------------------------ reclaiming a chain, step by step

  /** The chain of descriptor i. */
  lemma ChainFacts(d: seq<Desc>, head: int, l: Layout, i: nat)
    requires Inv(d, head, l) && i < |d| && |l.place| == |d| && !l.place[i].Free?
    ensures l.place[i].p < |ChainOf(l, l.place[i])| && ChainOf(l, l.place[i])[l.place[i].p] == i
  {
    assert DescOk(d[i], i, l, l.place[i]);
    hide PlacesOk, ChunkOk;
  }

  /** The q-th descriptor of a chain. */
  lemma ChainRegion(d: seq<Desc>, head: int, l: Layout, chain: Place, q: nat)
    requires Inv(d, head, l) && q < |ChainOf(l, chain)|
    ensures var ids := ChainOf(l, chain);
            && ids[q] < |d| == |l.place| && LinksOk(d[ids[q]], ids, q) && !chain.Free?
            && l.place[ids[q]] == (if chain.Live? then Live(chain.k, q) else Dead(chain.k, q))
            && (chain.Dead? ==> d[ids[q]].mem == 0)
            && (chain.Live? ==>
                  && chain.k in l.live && ChunkOk(l.live[chain.k]) && ids == l.live[chain.k].ids
                  && d[ids[q]].mem == l.live[chain.k].cuts[q] > 0
                  && l.live[chain.k].cuts[q] + d[ids[q]].size == l.live[chain.k].cuts[q + 1])
  {
    if chain.Live? {
      RegionFacts(d, head, l, chain.k, q);
    } else {
      var ids := l.dead[chain.k];
      assert DeadPlaced(l, chain.k, ids);
      assert DescOk(d[ids[q]], ids[q], l, Dead(chain.k, q));
    }
    hide PlacesOk;
  }

  lemma ChainApart(d: seq<Desc>, head: int, l: Layout, chain: Place)
    requires Inv(d, head, l)
    ensures Apart(ChainOf(l, chain)) && forall q :: 0 <= q < |ChainOf(l, chain)| ==> ChainOf(l, chain)[q] < |d|
  {
    hide Inv;
    var ids := ChainOf(l, chain);
    forall p, q | 0 <= p < q < |ids| ensures ids[p] != ids[q] {
      ChainRegion(d, head, l, chain, p);
      ChainRegion(d, head, l, chain, q);
    }
    forall q | 0 <= q < |ids| ensures ids[q] < |d| {
      ChainRegion(d, head, l, chain, q);
    }
  }

  /** None of the descriptors lo to hi (exclusive) of a chain is referenced. */
  ghost predicate AllIdle(d: seq<Desc>, ids: seq<nat>, lo: nat, hi: nat) {
    hi <= |ids| && forall q :: lo <= q < hi ==> ids[q] < |d| && d[ids[q]].refcount == 0
  }

  lemma OneReferenced(d: seq<Desc>, ids: seq<nat>, q: nat)
    requires q < |ids| && ids[q] < |d| && d[ids[q]].refcount != 0
    ensures Referenced(d, ids)
  {
  }

  lemma NoneReferenced(d: seq<Desc>, ids: seq<nat>)
    requires AllIdle(d, ids, 0, |ids|)
    ensures !Referenced(d, ids)
  {
  }

  ghost predicate TailDesc(y: Desc, l: Layout, ids: seq<nat>, p: nat)
    requires 1 <= p < |ids|
  {
    && y.valid == 2 && y.refcount == 0 && y.mem == 0 && y.prev == NULL
    && y.next == if p == 1 then At(l.free, 0) else ids[p - 1]
  }

  /** The table after all but the first of the first q descriptors of a chain were freed. */
  ghost predicate TailFreed(d: seq<Desc>, d': seq<Desc>, l: Layout, ids: seq<nat>, q: nat, head: int) {
    && 1 <= q <= |ids| && |d'| == |d| && (forall p :: 0 <= p < |ids| ==> ids[p] < |d|)
    && (forall p :: 1 <= p < q ==> TailDesc(d'[ids[p]], l, ids, p))
    && head == (if q == 1 then At(l.free, 0) else ids[q - 1])
    && d'[ids[0]] == d[ids[0]].(size := d'[ids[0]].size)
    && (forall i :: 0 <= i < |d| && i !in ids[..q] ==> d'[i] == d[i])
  }

  /** The first descriptor of a live chain holds the size of the first q regions. */
  ghost predicate SizeSoFar(d: seq<Desc>, l: Layout, chain: Place, q: nat) {
    chain.Live? && chain.k in l.live ==>
      var c := l.live[chain.k];
      0 < q < |c.cuts| && |c.ids| > 0 && c.ids[0] < |d| && d[c.ids[0]].mem == c.cuts[0]
      && d[c.ids[0]].mem + d[c.ids[0]].size == c.cuts[q]
  }

  lemma TailNone(d: seq<Desc>, head: int, l: Layout, chain: Place)
    requires Inv(d, head, l) && |ChainOf(l, chain)| > 0
    ensures TailFreed(d, d, l, ChainOf(l, chain), 1, head) && SizeSoFar(d, l, chain, 1)
    ensures ChainOf(l, chain)[0] < |d| && d[ChainOf(l, chain)[0]].next == At(ChainOf(l, chain), 1)
  {
    FreeFacts(d, head, l, 0);
    hide Inv, Apart;
    ChainApart(d, head, l, chain);
    ChainRegion(d, head, l, chain, 0);
  }

  lemma TailStep(d: seq<Desc>, d': seq<Desc>, l: Layout, ids: seq<nat>, q: nat, head: int, size: nat, d2: seq<Desc>)
    requires TailFreed(d, d', l, ids, q, head) && q < |ids| && Apart(ids) && ids[q] < |d| && d[ids[q]].refcount == 0
    requires ids[0] < |d'| == |d|
    requires d2 == d'[ids[0] := d'[ids[0]].(size := size)]
                     [ids[q] := d[ids[q]].(prev := NULL, mem := 0, size := 0, next := head, valid := 2)]
    ensures ids[0] != ids[q] && d'[ids[q]] == d[ids[q]]
    ensures TailFreed(d, d2, l, ids, q + 1, ids[q])
  {
    hide TailDesc;
    assert ids[0] != ids[q] && ids[q] !in ids[..q];
    assert d2[ids[0]] == d[ids[0]].(size := size);
    forall i | 0 <= i < |d| && i !in ids[..q + 1] ensures d2[i] == d[i] {
      assert ids[..q + 1] == ids[..q] + [ids[q]];
      assert ids[..q][0] == ids[0];
    }
    forall p | 1 <= p < q + 1 ensures TailDesc(d2[ids[p]], l, ids, p) {
      if p == q {
        NewTailDesc(d2[ids[q]], l, ids, q, head);
      } else {
        assert ids[p] != ids[q] && ids[0] != ids[p];
        assert d2[ids[p]] == d'[ids[p]];
      }
    }
    hide Apart;
  }

  lemma NewTailDesc(y: Desc, l: Layout, ids: seq<nat>, q: nat, head: int)
    requires 1 <= q < |ids| && head == if q == 1 then At(l.free, 0) else ids[q - 1]
    requires y.valid == 2 && y.refcount == 0 && y.mem == 0 && y.prev == NULL && y.next == head
    ensures TailDesc(y, l, ids, q)
  {
  }

  lemma TailOne(d: seq<Desc>, head: int, l: Layout, chain: Place, q: nat, d': seq<Desc>, h: int)
    requires Inv(d, head, l) && !Referenced(d, ChainOf(l, chain)) && q < |ChainOf(l, chain)|
    requires TailFreed(d, d', l, ChainOf(l, chain), q, h) && SizeSoFar(d', l, chain, q)
    ensures var ids := ChainOf(l, chain);
            && ids[0] < |d'| && ids[q] < |d'| && ids[0] != ids[q] && d'[ids[q]].next == At(ids, q + 1)
            && (var y := d'[ids[q]];
                var d1 := d'[ids[0] := d'[ids[0]].(size := d'[ids[0]].size + y.size)];
                var d2 := d1[ids[q] := y.(prev := NULL, mem := 0, size := 0, next := h, valid := 2)];
                TailFreed(d, d2, l, ids, q + 1, ids[q]) && SizeSoFar(d2, l, chain, q + 1))
  {
    var ids := ChainOf(l, chain);
    hide Inv, TailFreed, Apart;
    ChainApart(d, head, l, chain);
    ChainRegion(d, head, l, chain, q);
    assert d[ids[q]].refcount == 0;
    hide Referenced, ChunkOk;
    TailLength(d, d', l, ids, q, h);
    var size := d'[ids[0]].size + d[ids[q]].size;
    var d2 := d'[ids[0] := d'[ids[0]].(size := size)]
                [ids[q] := d[ids[q]].(prev := NULL, mem := 0, size := 0, next := h, valid := 2)];
    TailStep(d, d', l, ids, q, h, size, d2);
  }

  /** With the tail freed, the first descriptor knows the range of a live chunk. */
  lemma TailRange(d: seq<Desc>, head: int, l: Layout, chain: Place, d': seq<Desc>, h: int)
    requires Inv(d, head, l) && |ChainOf(l, chain)| > 0
    requires TailFreed(d, d', l, ChainOf(l, chain), |ChainOf(l, chain)|, h)
             && SizeSoFar(d', l, chain, |ChainOf(l, chain)|)
    ensures var ids := ChainOf(l, chain);
            && ids[0] < |d'| == |d| && d'[ids[0]].prev == NULL && (d'[ids[0]].mem != 0 <==> chain.Live?)
            && (chain.Live? ==>
                  && chain.k in l.live && ChunkOk(l.live[chain.k])
                  && RangeOf(l.live[chain.k]) == Range(d'[ids[0]].mem, d'[ids[0]].size))
  {
    hide Inv;
    ChainRegion(d, head, l, chain, 0);
    ChainRegion(d, head, l, chain, |ChainOf(l, chain)| - 1);
  }

  /** Freeing the first descriptor as well completes the reclamation. */
  lemma FinishTail(d: seq<Desc>, head: int, l: Layout, chain: Place, d': seq<Desc>, h: int, d2: seq<Desc>)
    requires Inv(d, head, l) && !Referenced(d, ChainOf(l, chain)) && |ChainOf(l, chain)| > 0
    requires TailFreed(d, d', l, ChainOf(l, chain), |ChainOf(l, chain)|, h)
    requires ChainOf(l, chain)[0] < |d'| && d'[ChainOf(l, chain)[0]].prev == NULL
    requires d2 == d'[ChainOf(l, chain)[0] := d'[ChainOf(l, chain)[0]].(valid := 2, next := h, mem := 0)]
    ensures |d2| == |d| == |l.place|
    ensures forall i :: 0 <= i < |d| ==> ReclaimedDesc(d[i], d2[i], l, l.place[i], chain)
  {
    hide Inv, Apart, ReclaimedDesc, TailFreed;
    var ids := ChainOf(l, chain);
    ChainRegion(d, head, l, chain, 0);
    assert d[ids[0]].refcount == 0;
    hide Referenced, ChunkOk, LinksOk;
    ChainApart(d, head, l, chain);
    assert |d'| == |d| by { TailLength(d, d', l, ids, |ids|, h); }
    forall i | 0 <= i < |d| ensures ReclaimedDesc(d[i], d2[i], l, l.place[i], chain) {
      if i in ids {
        var q :| 0 <= q < |ids| && ids[q] == i;
        ChainRegion(d, head, l, chain, q);
        FreedIsReclaimed(d, d', l, chain, h, d2, q);
      } else {
        if !l.place[i].Free? { ChainFacts(d, head, l, i); }
        FreedElsewhere(d, d', l, chain, h, d2, i);
      }
    }
  }

  lemma TailLength(d: seq<Desc>, d': seq<Desc>, l: Layout, ids: seq<nat>, q: nat, head: int)
    requires TailFreed(d, d', l, ids, q, head)
    ensures |d'| == |d| && ids[0] < |d|
  {
  }

  /** The first descriptor of the chain is the last one to be freed. */
  lemma FirstIsReclaimed(x: Desc, y: Desc, l: Layout, place: Place, chain: Place)
    requires |ChainOf(l, chain)| > 0 && !chain.Free?
    requires place == if chain.Live? then Live(chain.k, 0) else Dead(chain.k, 0)
    requires y.valid == 2 && y.refcount == 0 && y.mem == 0 && y.prev == NULL
    requires y.next == if |ChainOf(l, chain)| == 1 then At(l.free, 0) else ChainOf(l, chain)[|ChainOf(l, chain)| - 1]
    ensures ReclaimedDesc(x, y, l, place, chain)
  {
  }

  lemma TailIsReclaimed(x: Desc, y: Desc, l: Layout, place: Place, chain: Place, q: nat)
    requires 1 <= q < |ChainOf(l, chain)| && TailDesc(y, l, ChainOf(l, chain), q)
    requires !chain.Free? && place == if chain.Live? then Live(chain.k, q) else Dead(chain.k, q)
    ensures ReclaimedDesc(x, y, l, place, chain)
  {
    hide ChainOf;
  }

  lemma TailAt(d: seq<Desc>, d': seq<Desc>, l: Layout, ids: seq<nat>, h: int, q: nat)
    requires TailFreed(d, d', l, ids, |ids|, h) && q < |ids|
    ensures |d'| == |d| && ids[0] < |d| && ids[q] < |d|
    ensures q > 0 ==> TailDesc(d'[ids[q]], l, ids, q)
    ensures q == 0 ==> d'[ids[0]] == d[ids[0]].(size := d'[ids[0]].size)
    ensures h == if |ids| == 1 then At(l.free, 0) else ids[|ids| - 1]
  {
    hide TailDesc;
  }

  lemma FreedIsReclaimed(d: seq<Desc>, d': seq<Desc>, l: Layout, chain: Place, h: int, d2: seq<Desc>, q: nat)
    requires q < |ChainOf(l, chain)| && Apart(ChainOf(l, chain))
    requires TailFreed(d, d', l, ChainOf(l, chain), |ChainOf(l, chain)|, h)
    requires ChainOf(l, chain)[0] < |d'| && d'[ChainOf(l, chain)[0]].prev == NULL
             && d[ChainOf(l, chain)[0]].refcount == 0
    requires d2 == d'[ChainOf(l, chain)[0] := d'[ChainOf(l, chain)[0]].(valid := 2, next := h, mem := 0)]
    requires |l.place| == |d| && ChainOf(l, chain)[q] < |d| && !chain.Free?
    requires l.place[ChainOf(l, chain)[q]] == if chain.Live? then Live(chain.k, q) else Dead(chain.k, q)
    ensures var i := ChainOf(l, chain)[q]; ReclaimedDesc(d[i], d2[i], l, l.place[i], chain)
  {
    hide TailFreed, TailDesc, ReclaimedDesc, ChainOf;
    var ids := ChainOf(l, chain);
    TailAt(d, d', l, ids, h, q);
    if q == 0 {
      FirstIsReclaimed(d[ids[0]], d2[ids[0]], l, l.place[ids[0]], chain);
    } else {
      assert ids[0] != ids[q];
      TailIsReclaimed(d[ids[q]], d2[ids[q]], l, l.place[ids[q]], chain, q);
    }
  }

  lemma FreedElsewhere(d: seq<Desc>, d': seq<Desc>, l: Layout, chain: Place, h: int, d2: seq<Desc>, i: nat)
    requires TailFreed(d, d', l, ChainOf(l, chain), |ChainOf(l, chain)|, h) && |ChainOf(l, chain)| > 0
    requires ChainOf(l, chain)[0] < |d'|
    requires d2 == d'[ChainOf(l, chain)[0] := d'[ChainOf(l, chain)[0]].(valid := 2, next := h, mem := 0)]
    requires |l.place| == |d| && i < |d| && i !in ChainOf(l, chain)
    requires !l.place[i].Free? ==> l.place[i].p < |ChainOf(l, l.place[i])| && ChainOf(l, l.place[i])[l.place[i].p] == i
    ensures ReclaimedDesc(d[i], d2[i], l, l.place[i], chain)
  {
    var ids := ChainOf(l, chain);
    assert ids[..|ids|] == ids;
  }

  lemma PlacesAreOk(d: seq<Desc>, head: int, l: Layout)
    requires Inv(d, head, l)
    ensures PlacesOk(l, |d|)
  {
  }

  /** Counting down at x leaves the other chains referenced. */
  lemma OthersReferenced(d: seq<Desc>, l: Layout, x: nat, n: nat)
    requires PlacesOk(l, |d|) && NoLeak(d, l) && x < |d| && !l.place[x].Free?
    ensures var d' := d[x := d[x].(refcount := n)];
            && (forall k :: k in l.live && l.place[x] != Live(k, l.place[x].p) ==> Referenced(d', l.live[k].ids))
            && (forall k :: k in l.dead && l.place[x] != Dead(k, l.place[x].p) ==> Referenced(d', l.dead[k]))
  {
    var d' := d[x := d[x].(refcount := n)];
    hide ChunkOk, FreePlaced;
    forall k | k in l.live && l.place[x] != Live(k, l.place[x].p) ensures Referenced(d', l.live[k].ids) {
      assert LivePlaced(l, k, l.live[k].ids);
      StillReferenced(d, d', l.live[k].ids);
    }
    forall k | k in l.dead && l.place[x] != Dead(k, l.place[x].p) ensures Referenced(d', l.dead[k]) {
      assert DeadPlaced(l, k, l.dead[k]);
      StillReferenced(d, d', l.dead[k]);
    }
  }

  lemma ReclaimedNames(l: Layout, chain: Place, l': Layout)
    requires |ChainOf(l, chain)| > 0 && l' == ReclaimLayout(l, chain)
    ensures |l'.place| == |l.place|
    ensures l'.live.Keys == if chain.Live? then l.live.Keys - {chain.k} else l.live.Keys
    ensures l'.dead.Keys == if chain.Dead? then l.dead.Keys - {chain.k} else l.dead.Keys
  {
  }

  // ------------------------------------------------------------ the first table

  ghost predicate FreshDesc(x: Desc, i: int) {
    x.refcount == 0 && x.valid == 2 && x.mem == 0 && x.prev == NULL && x.next == i - 1
  }

  ghost function FreshLayout(n: nat): Layout
    requires n > 0
  {
    Layout(seq(n - 1, p requires 0 <= p < n - 1 => n - 2 - p), map[], map[0 := [n - 1]],
           seq(n, i requires 0 <= i < n => if i == n - 1 then Dead(0, 0) else Free(n - 2 - i)))
  }

  lemma FreshIsValid(n: nat, d: seq<Desc>, head: int)
    requires 0 < n == |d| && head == n - 2
    requires forall j :: 0 <= j < n - 1 ==> FreshDesc(d[j], j)
    requires d[n - 1].refcount == 1 && d[n - 1].valid == 0 && d[n - 1].mem == 0
    requires d[n - 1].prev == NULL && d[n - 1].next == NULL
    ensures Inv(d, head, FreshLayout(n)) && NoLeak(d, FreshLayout(n)) && StoryOk(FreshLayout(n), [], Story([], []))
    ensures |FreshLayout(n).place| == n && |FreshLayout(n).free| == n - 1
    ensures FreshLayout(n).live == map[] && FreshLayout(n).dead == map[0 := [n - 1]]
  {
    var l := FreshLayout(n);
    assert DeadPlaced(l, 0, l.dead[0]);
    assert l.dead[0][0] == n - 1;
    assert Referenced(d, l.dead[0]);
    forall i | 0 <= i < n ensures DescOk(d[i], i, l, l.place[i]) {
      assert i < n - 1 ==> l.free[n - 2 - i] == i && FreshDesc(d[i], i);
      assert 0 < i < n - 1 ==> l.free[n - 2 - i + 1] == i - 1;
    }
  }
}
