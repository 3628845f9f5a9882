/** What holds of memory objects over whole runs, read off the table itself. */
module MemoryTheorems {
  import opened Chunks
  import opened Pointers
  import opened MemoryObjects

  // ------------------------------------------------------------ the table in a reachable state

  /** A live chunk is a doubly linked list of valid descriptors whose regions tile the range
      handed to createDZMemory; both ends of a link name the same owner. */
  lemma LiveChunkTiles(d: seq<Desc>, head: int, l: Layout, released: seq<Range>, s: Story, k: nat)
    requires Inv(d, head, l) && StoryOk(l, released, s) && k in l.live
    ensures k < |s.created| && k !in s.keys
    ensures var ids, n := l.live[k].ids, |l.live[k].ids|;
            && n > 0 && (forall p :: 0 <= p < n ==> ids[p] < |d| && d[ids[p]].valid == 1)
            && (forall p, q :: 0 <= p < q < n ==> ids[p] != ids[q])
            && d[ids[0]].prev == NULL && d[ids[n - 1]].next == NULL
            && (forall p, q :: 0 <= p && q == p + 1 && q < n ==>
                  var x, y := d[ids[p]], d[ids[q]];
                  && x.next == ids[q] && y.prev == ids[p] && x.nextOwner == y.prevOwner && x.mem + x.size == y.mem)
            && d[ids[0]].mem == s.created[k].addr
            && d[ids[n - 1]].mem + d[ids[n - 1]].size == s.created[k].addr + s.created[k].size
  {
    hide Inv;
    var ids, n := l.live[k].ids, |l.live[k].ids|;
    RegionsApart(d, head, l, k);
    forall p | 0 <= p < n ensures ids[p] < |d| && d[ids[p]].valid == 1 {
      RegionFacts(d, head, l, k, p);
    }
    RegionFacts(d, head, l, k, 0);
    RegionFacts(d, head, l, k, n - 1);
    forall p, q | 0 <= p && q == p + 1 && q < n
      ensures var x, y := d[ids[p]], d[ids[q]];
              && x.next == ids[q] && y.prev == ids[p] && x.nextOwner == y.prevOwner && x.mem + x.size == y.mem
    {
      RegionFacts(d, head, l, k, p);
      RegionFacts(d, head, l, k, q);
    }
  }

  ghost function TotalSize(d: seq<Desc>, ids: seq<nat>): nat
    requires forall p :: 0 <= p < |ids| ==> ids[p] < |d|
  {
    if ids == [] then 0 else TotalSize(d, ids[..|ids| - 1]) + d[ids[|ids| - 1]].size
  }

  /** Splitting and joining neither lose nor invent memory. */
  lemma {:induction false} SizeIsConserved(d: seq<Desc>, head: int, l: Layout, released: seq<Range>, s: Story, k: nat)
    requires Inv(d, head, l) && StoryOk(l, released, s) && k in l.live
    ensures forall p :: 0 <= p < |l.live[k].ids| ==> l.live[k].ids[p] < |d|
    ensures k < |s.created| && TotalSize(d, l.live[k].ids) == s.created[k].size
  {
    IdsInTable(d, head, l, k);
    SizeUpTo(d, head, l, k, |l.live[k].ids|);
    assert l.live[k].ids[..|l.live[k].ids|] == l.live[k].ids;
  }

  lemma {:induction false} SizeUpTo(d: seq<Desc>, head: int, l: Layout, k: nat, p: nat)
    requires Inv(d, head, l) && k in l.live && p <= |l.live[k].ids|
    requires forall q :: 0 <= q < |l.live[k].ids| ==> l.live[k].ids[q] < |d|
    ensures ChunkOk(l.live[k]) && l.live[k].cuts[0] + TotalSize(d, l.live[k].ids[..p]) == l.live[k].cuts[p]
  {
    if p == 0 {
      assert ChunkOk(l.live[k]);
    } else {
      SizeUpTo(d, head, l, k, p - 1);
      RegionFacts(d, head, l, k, p - 1);
      assert l.live[k].ids[..p][..p - 1] == l.live[k].ids[..p - 1];
    }
    hide Inv;
  }

  /** The descriptors on the free list are those marked 2, each exactly once; those marked 1
      are the regions of live chunks and those marked 0 what splitting and joining left. */
  lemma FreeIffMarked(d: seq<Desc>, head: int, l: Layout, i: nat)
    requires Inv(d, head, l) && i < |d|
    ensures |l.place| == |d|
    ensures d[i].valid == 2 <==> i in l.free
    ensures d[i].valid == 1 <==> l.place[i].Live?
    ensures d[i].valid == 0 <==> l.place[i].Dead?
    ensures forall p, q :: 0 <= p < q < |l.free| ==> l.free[p] != l.free[q]
  {
    assert DescOk(d[i], i, l, l.place[i]) && FreePlaced(l);
    hide ChunkOk, LivePlaced, DeadPlaced;
  }

  /** Memory that was given back is nobody's: the range of every chunk ever created is either that
      of a live chunk or was given back, as a whole and once. */
  lemma ReleasedOnce(l: Layout, released: seq<Range>, s: Story, k: nat)
    requires StoryOk(l, released, s) && k < |s.created|
    ensures (k in l.live) != (k in s.keys)
    ensures k in s.keys ==>
              exists i :: 0 <= i < |released| && s.keys[i] == k && released[i] == s.created[k]
                          && forall j :: 0 <= j < |released| && j != i ==> s.keys[j] != k
  {
    hide ChunkOk, RangeOf;
    if k in s.keys {
      var i :| 0 <= i < |s.keys| && s.keys[i] == k;
      assert released[i] == s.created[k];
    }
  }

  // ------------------------------------------------------------ joins undo splits

  /** Joining the two halves of a split region gives the chunk back, the region under a new
      descriptor. */
  lemma JoinUndoesSplit2(c: Chunk, p: nat, a: nat, b: nat, cut: nat, dom: nat, e: nat)
    requires ChunkOk(c) && p < |c.ids| && c.cuts[p] <= cut <= c.cuts[p + 1]
    ensures var split := ReplaceRun(c, p, p, [a, b], [cut], [dom]);
            && ChunkOk(split)
            && ReplaceRun(split, p, p + 1, [e], [], []) == c.(ids := c.ids[p := e])
  {
    var cuts, links := [cut], [dom];
    assert cuts[0] == cut;
    ReplaceRunOk(c, p, p, [a, b], cuts, links);
  }

  lemma Split3Run(c: Chunk, p: nat, a: nat, b: nat, e: nat, cut: nat, cut': nat, dom: nat, split: Chunk)
    requires ChunkOk(c) && p < |c.ids| && c.cuts[p] <= cut <= cut' <= c.cuts[p + 1]
    requires split == ReplaceRun(c, p, p, [a, b, e], Cuts(cut, cut'), [dom, dom])
    ensures ChunkOk(split) && |split.ids| == |c.ids| + 2
    ensures split.links[p] == dom && split.links[p + 1] == dom
    ensures p > 0 ==> split.links[p - 1] == c.links[p - 1]
    ensures p + 1 < |c.ids| ==> split.links[p + 2] == c.links[p]
    ensures forall f: nat :: ReplaceRun(split, p, p + 2, [f], [], []) == c.(ids := c.ids[p := f])
  {
    ReplaceRunOk(c, p, p, [a, b, e], Cuts(cut, cut'), [dom, dom]);
    forall f: nat ensures ReplaceRun(split, p, p + 2, [f], [], []) == c.(ids := c.ids[p := f]) {
      var back := ReplaceRun(split, p, p + 2, [f], [], []);
      assert back.ids == c.ids[p := f];
      assert back.cuts == c.cuts;
      assert back.links == c.links;
    }
  }

  /** joinAll by the domain that split a region in three undoes the split from any of the
      three, exactly when the domain does not also own a link of the split region. */
  lemma JoinAllUndoesSplit3(c: Chunk, p: nat, a: nat, b: nat, e: nat, cut: nat, cut': nat, dom: nat, split: Chunk,
                            q: nat, lo: nat, hi: nat, f: nat)
    requires ChunkOk(c) && p < |c.ids| && c.cuts[p] <= cut <= cut' <= c.cuts[p + 1]
    requires split == ReplaceRun(c, p, p, [a, b, e], Cuts(cut, cut'), [dom, dom]) && ChunkOk(split)
    requires p <= q <= p + 2 && MaximalRun(split, dom, lo, q, hi)
    ensures (lo == p && hi == p + 2) <==> (p > 0 ==> c.links[p - 1] != dom) && (p + 1 < |c.ids| ==> c.links[p] != dom)
    ensures lo == p && hi == p + 2 ==> ReplaceRun(split, lo, hi, [f], [], []) == c.(ids := c.ids[p := f])
  {
    hide ReplaceRun, ChunkOk;
    Split3Run(c, p, a, b, e, cut, cut', dom, split);
  }

  /** Two regions of 50 bytes at 100, linked by domain 1. */
  const TWO_REGIONS := Chunk([7, 8], [100, 150, 200], [1])

  /** When the same domain splits the second of them in three, joinAll leaves one region of all. */
  lemma JoinAllTakesMore(a: nat, b: nat, e: nat, q: nat, lo: nat, hi: nat, f: nat)
    requires ChunkOk(TWO_REGIONS) && 1 <= q <= 3
    requires MaximalRun(ReplaceRun(TWO_REGIONS, 1, 1, [a, b, e], Cuts(160, 170), [1, 1]), 1, lo, q, hi)
    ensures var split := ReplaceRun(TWO_REGIONS, 1, 1, [a, b, e], Cuts(160, 170), [1, 1]);
            && ChunkOk(split) && lo == 0 && hi == 3
            && ReplaceRun(split, lo, hi, [f], [], []) == Chunk([f], [100, 200], [])
  {
    var split := ReplaceRun(TWO_REGIONS, 1, 1, [a, b, e], Cuts(160, 170), [1, 1]);
    assert split == Chunk([7, a, b, e], [100, 150, 160, 170, 200], [1, 1, 1]);
  }

  // ------------------------------------------------------------ runs

  datatype Op =
    | CreateOp(size: nat, mem: nat)
    | Split2Op(x: nat, offset: int, dom: nat)
    | Split3Op(x: nat, offset: int, len: int, dom: nat)
    | JoinPreviousOp(x: nat, dom: nat)
    | JoinNextOp(x: nat, dom: nat)
    | JoinAllOp(x: nat, dom: nat)
    | IncRefOp(x: nat)
    | DecRefOp(x: nat)

  /** Any run of operations on descriptors that are valid and referenced, as memory proxies
      guarantee it; reference counts also go up and down on invalidated descriptors. */
  method Run(m: DescTable, ops: seq<Op>)
    requires m.Valid()
    modifies m, m.dz
    ensures m.Valid() && |m.s.created| >= old(|m.s.created|) && old(m.released) <= m.released
  {
    var i := 0;
    while i < |ops|
      invariant 0 <= i <= |ops| && m.Valid()
      invariant |m.s.created| >= old(|m.s.created|) && old(m.released) <= m.released
    {
      Step(m, ops[i]);
      i := i + 1;
    }
  }

  method Step(m: DescTable, op: Op)
    requires m.Valid()
    modifies m, m.dz
    ensures m.Valid() && |m.s.created| >= old(|m.s.created|) && old(m.released) <= m.released
  {
    hide Inv, NoLeak, StoryOk, Referenced, Replaced;
    if op.CreateOp? {
      if op.mem > 0 {
        var _, _ := m.Create(op.size, op.mem);
      }
    } else if op.x < m.dz.Length && m.dz[op.x].refcount > 0 {
      Marked(m.dz[..], m.head, m.l, op.x);
      if op.IncRefOp? {
        m.IncRef(op.x);
      } else if op.DecRefOp? {
        m.DecRef(op.x);
      } else if m.dz[op.x].valid == 1 {
        match op
        case Split2Op(x, offset, dom) => var _, _, _ := m.Split2(x, offset, dom);
        case Split3Op(x, offset, len, dom) => var _, _, _, _ := m.Split3(x, offset, len, dom);
        case JoinPreviousOp(x, dom) => var _, _ := m.JoinPrevious(x, dom);
        case JoinNextOp(x, dom) => var _, _ := m.JoinNext(x, dom);
        case JoinAllOp(x, dom) => var _, _, _, _ := m.JoinAll(x, dom);
        case _ =>
      }
    }
  }

  lemma Marked(d: seq<Desc>, head: int, l: Layout, i: nat)
    requires Inv(d, head, l) && i < |d|
    ensures |l.place| == |d| && (d[i].valid == 1 ==> l.place[i].Live?) && (d[i].refcount > 0 ==> !l.place[i].Free?)
  {
    assert DescOk(d[i], i, l, l.place[i]);
    hide PlacesOk, ChunkOk;
  }
}
