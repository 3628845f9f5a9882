/** Memory-object descriptors of kjvm/trunk/dom0/zero_Memory_org.c, on values: the table of
    descriptors with its doubly linked chains, what the chains stand for, and the two steps
    that all operations on chunks come down to: replacing a run of neighbouring regions, and
    reclaiming a whole chain. */
module Chunks {
  import opened Pointers

  /** An entry of the descriptor table; prev and next are indices or NULL, mem 0 is NULL. */
  datatype Desc = Desc(refcount: nat, valid: nat, mem: nat, size: nat, prev: int, next: int,
                       prevOwner: nat, nextOwner: nat)

  /** A live chunk: its descriptors in address order, the n + 1 addresses that bound its n
      regions, and the owner of each of its n - 1 links. */
  datatype Chunk = Chunk(ids: seq<nat>, cuts: seq<nat>, links: seq<nat>)

  datatype Place = Free(p: nat) | Live(k: nat, p: nat) | Dead(k: nat, p: nat)

  /** What the table stands for: the free list, live chunks and dead chains by key, and the
      place of every descriptor in them. */
  datatype Layout = Layout(free: seq<nat>, live: map<nat, Chunk>, dead: map<nat, seq<nat>>, place: seq<Place>)

  ghost predicate ChunkOk(c: Chunk) {
    && |c.ids| > 0 && |c.cuts| == |c.ids| + 1 && |c.links| == |c.ids| - 1 && c.cuts[0] > 0
    && (forall p, q :: 0 <= p <= q < |c.cuts| ==> c.cuts[p] <= c.cuts[q])
  }

  /** Descriptor x says what its place in the layout demands. */
  ghost predicate DescOk(x: Desc, i: nat, l: Layout, place: Place) {
    match place
    case Free(p) =>
      && p < |l.free| && l.free[p] == i
      && x.valid == 2 && x.refcount == 0 && x.mem == 0 && x.prev == NULL && x.next == At(l.free, p + 1)
    case Live(k, p) =>
      && k in l.live && ChunkOk(l.live[k]) && p < |l.live[k].ids| && l.live[k].ids[p] == i
      && x.valid == 1 && LinksOk(x, l.live[k].ids, p)
      && x.mem == l.live[k].cuts[p] && x.mem + x.size == l.live[k].cuts[p + 1]
      && (p > 0 ==> x.prevOwner == l.live[k].links[p - 1])
      && (p + 1 < |l.live[k].ids| ==> x.nextOwner == l.live[k].links[p])
    case Dead(k, p) =>
      && k in l.dead && p < |l.dead[k]| && l.dead[k][p] == i
      && x.valid == 0 && x.mem == 0 && LinksOk(x, l.dead[k], p)
  }

  ghost predicate LinksOk(x: Desc, ids: seq<nat>, p: nat) {
    x.prev == At(ids, p - 1) && x.next == At(ids, p + 1)
  }

  ghost predicate FreePlaced(l: Layout) {
    forall p :: 0 <= p < |l.free| ==> l.free[p] < |l.place| && l.place[l.free[p]] == Free(p)
  }

  ghost predicate LivePlaced(l: Layout, k: nat, ids: seq<nat>) {
    forall p :: 0 <= p < |ids| ==> ids[p] < |l.place| && l.place[ids[p]] == Live(k, p)
  }

  ghost predicate DeadPlaced(l: Layout, k: nat, ids: seq<nat>) {
    forall p :: 0 <= p < |ids| ==> ids[p] < |l.place| && l.place[ids[p]] == Dead(k, p)
  }

  /** Lists, chunks and chains hold what the places say. */
  ghost predicate PlacesOk(l: Layout, n: nat) {
    && |l.place| == n && FreePlaced(l)
    && (forall k :: k in l.live ==> ChunkOk(l.live[k]) && LivePlaced(l, k, l.live[k].ids))
    && (forall k :: k in l.dead ==> DeadPlaced(l, k, l.dead[k]))
  }

  /** The shape of the table: every descriptor is in exactly one place and linked accordingly. */
  ghost predicate Inv(d: seq<Desc>, head: int, l: Layout) {
    && PlacesOk(l, |d|) && head == At(l.free, 0)
    && (forall i :: 0 <= i < |d| ==> DescOk(d[i], i, l, l.place[i]))
  }

  // ------------------------------------------------------------ replacing a run of regions

  /** Regions lo to hi of a chunk give way to the regions of `ids`, which are bounded inside
      by `cuts` and linked by `links`. */
  ghost function ReplaceRun(c: Chunk, lo: nat, hi: nat, ids: seq<nat>, cuts: seq<nat>, links: seq<nat>): Chunk
    requires ChunkOk(c) && lo <= hi < |c.ids|
  {
    Chunk(c.ids[..lo] + ids + c.ids[hi + 1..],
          c.cuts[..lo + 1] + cuts + c.cuts[hi + 1..],
          c.links[..lo] + links + c.links[hi..])
  }

  /** The new regions fill the range of the old ones. */
  ghost predicate CutsFit(c: Chunk, lo: nat, hi: nat, m: nat, cuts: seq<nat>, links: seq<nat>)
    requires ChunkOk(c) && lo <= hi < |c.ids|
  {
    && m > 0 && |cuts| == |links| == m - 1
    && (forall j :: 0 <= j < |cuts| ==> c.cuts[lo] <= cuts[j] <= c.cuts[hi + 1])
    && (forall i, j :: 0 <= i <= j < |cuts| ==> cuts[i] <= cuts[j])
  }

  lemma ReplaceRunOk(c: Chunk, lo: nat, hi: nat, ids: seq<nat>, cuts: seq<nat>, links: seq<nat>)
    requires ChunkOk(c) && lo <= hi < |c.ids| && CutsFit(c, lo, hi, |ids|, cuts, links)
    ensures ChunkOk(ReplaceRun(c, lo, hi, ids, cuts, links))
  {
    var c' := ReplaceRun(c, lo, hi, ids, cuts, links);
    var m := |cuts|;
    forall p, q | 0 <= p <= q < |c'.cuts| ensures c'.cuts[p] <= c'.cuts[q] {
      if lo < p <= q <= lo + m {
        assert c'.cuts[p] == cuts[p - lo - 1] && c'.cuts[q] == cuts[q - lo - 1];
      }
    }
  }

  /** Where descriptors are once regions lo to hi of chunk k were replaced by the first m
      descriptors of the free list, the old ones forming the dead chain k2. */
  ghost function MovePlace(place: Place, k: nat, lo: nat, hi: nat, m: nat, k2: nat): Place {
    match place
    case Free(p) => if p < m then Live(k, lo + p) else Free(p - m)
    case Live(j, p) =>
      if j != k || p < lo then place
      else if p <= hi then Dead(k2, p - lo)
      else Live(k, p - (hi + 1) + lo + m)
    case Dead(_, _) => place
  }

  ghost function ReplaceLayout(l: Layout, k: nat, lo: nat, hi: nat, m: nat, cuts: seq<nat>, links: seq<nat>,
                               k2: nat): Layout
    requires k in l.live && ChunkOk(l.live[k]) && lo <= hi < |l.live[k].ids| && m <= |l.free|
  {
    Layout(l.free[m..],
           l.live[k := ReplaceRun(l.live[k], lo, hi, l.free[..m], cuts, links)],
           l.dead[k2 := l.live[k].ids[lo..hi + 1]],
           seq(|l.place|, i requires 0 <= i < |l.place| => MovePlace(l.place[i], k, lo, hi, m, k2)))
  }

  /** A descriptor of the free list made the j-th region of the run that replaces lo to hi. */
  ghost predicate NewRegion(x: Desc, c: Chunk, c': Chunk, lo: nat, j: nat)
    requires ChunkOk(c')
  {
    && x.refcount == 1 && x.valid == 1 && LinksOk(x, c'.ids, lo + j)
    && lo + j < |c'.ids| && x.mem == c'.cuts[lo + j] && x.mem + x.size == c'.cuts[lo + j + 1]
    && (lo + j > 0 ==> x.prevOwner == c'.links[lo + j - 1])
    && (lo + j + 1 < |c'.ids| ==> x.nextOwner == c'.links[lo + j])
  }

  /** What replacing regions lo to hi of chunk k does to descriptor i. */
  ghost predicate ReplacedDesc(x: Desc, y: Desc, l: Layout, place: Place, k: nat, lo: nat, hi: nat, m: nat, c': Chunk)
    requires k in l.live && ChunkOk(c') && lo <= hi < |l.live[k].ids| && 0 < m <= |l.free|
  {
    match place
    case Free(p) => if p < m then NewRegion(y, l.live[k], c', lo, p) else y == x
    case Live(j, p) =>
      if j != k then y == x
      else if p + 1 == lo then y == x.(next := l.free[0])
      else if p == hi + 1 then y == x.(prev := l.free[m - 1])
      else if p < lo || p > hi then y == x
      else y == x.(valid := 0, mem := 0, size := y.size, prev := if p == lo then NULL else x.prev,
                   next := if p == hi then NULL else x.next)
    case Dead(_, _) => y == x
  }

  /** What the new chunk has left of the replaced run, and right of it. */
  lemma LeftOfRun(c: Chunk, lo: nat, hi: nat, ids: seq<nat>, cuts: seq<nat>, links: seq<nat>, p: nat)
    requires ChunkOk(c) && lo <= hi < |c.ids| && CutsFit(c, lo, hi, |ids|, cuts, links) && p < lo
    ensures var c' := ReplaceRun(c, lo, hi, ids, cuts, links);
            && p + 1 < |c'.ids| && p < |c'.links| && p + 1 < |c'.cuts|
            && c'.ids[p] == c.ids[p] && At(c'.ids, p - 1) == At(c.ids, p - 1)
            && c'.ids[p + 1] == (if p + 1 == lo then ids[0] else c.ids[p + 1])
            && c'.cuts[p] == c.cuts[p] && c'.cuts[p + 1] == c.cuts[p + 1]
            && c'.links[p] == c.links[p] && (p > 0 ==> c'.links[p - 1] == c.links[p - 1])
  {
  }

  lemma RightOfRun(c: Chunk, lo: nat, hi: nat, ids: seq<nat>, cuts: seq<nat>, links: seq<nat>, p: nat, q: nat)
    requires ChunkOk(c) && lo <= hi < |c.ids| && CutsFit(c, lo, hi, |ids|, cuts, links) && hi < p < |c.ids|
    requires q == p - (hi + 1) + lo + |ids|
    ensures var c' := ReplaceRun(c, lo, hi, ids, cuts, links);
            && 0 < q < |c'.ids| && q + 1 < |c'.cuts| && q <= |c'.links| && (q + 1 < |c'.ids| <==> p + 1 < |c.ids|)
            && c'.ids[q] == c.ids[p] && At(c'.ids, q + 1) == At(c.ids, p + 1)
            && c'.ids[q - 1] == (if p == hi + 1 then ids[|ids| - 1] else c.ids[p - 1])
            && c'.cuts[q] == c.cuts[p] && c'.cuts[q + 1] == c.cuts[p + 1]
            && c'.links[q - 1] == c.links[p - 1] && (p + 1 < |c.ids| ==> q < |c'.links| && c'.links[q] == c.links[p])
  {
  }

  lemma InsideRun(c: Chunk, lo: nat, hi: nat, ids: seq<nat>, cuts: seq<nat>, links: seq<nat>, j: nat)
    requires ChunkOk(c) && lo <= hi < |c.ids| && CutsFit(c, lo, hi, |ids|, cuts, links) && j < |ids|
    ensures var c' := ReplaceRun(c, lo, hi, ids, cuts, links); lo + j < |c'.ids| && c'.ids[lo + j] == ids[j]
  {
  }

  /** One replacement: its parts, the chunk it leaves and the layout it leaves. */
  ghost predicate Replacement(l: Layout, k: nat, lo: nat, hi: nat, m: nat, cuts: seq<nat>, links: seq<nat>, k2: nat,
                              c': Chunk, l': Layout)
  {
    && k in l.live && ChunkOk(l.live[k]) && lo <= hi < |l.live[k].ids| && 0 < m <= |l.free| && k2 !in l.dead
    && CutsFit(l.live[k], lo, hi, m, cuts, links)
    && c' == ReplaceRun(l.live[k], lo, hi, l.free[..m], cuts, links) && ChunkOk(c')
    && l' == ReplaceLayout(l, k, lo, hi, m, cuts, links, k2)
  }

  /** Every region of the new chunk lies where MovePlace says. */
  lemma RunPlaced(l: Layout, n: nat, k: nat, lo: nat, hi: nat, m: nat, cuts: seq<nat>, links: seq<nat>, k2: nat,
                  c': Chunk, l': Layout, p: nat)
    requires PlacesOk(l, n) && Replacement(l, k, lo, hi, m, cuts, links, k2, c', l') && p < |c'.ids|
    ensures c'.ids[p] < n && l'.place[c'.ids[p]] == Live(k, p)
  {
    var c := l.live[k];
    assert LivePlaced(l, k, c.ids);
    if p < lo {
      LeftOfRun(c, lo, hi, l.free[..m], cuts, links, p);
    } else if p < lo + m {
      InsideRun(c, lo, hi, l.free[..m], cuts, links, p - lo);
    } else {
      RightOfRun(c, lo, hi, l.free[..m], cuts, links, p - (lo + m) + (hi + 1), p);
    }
    hide CutsFit, ReplaceRun, ChunkOk;
  }

  lemma OthersPlaced(l: Layout, n: nat, k: nat, lo: nat, hi: nat, m: nat, cuts: seq<nat>, links: seq<nat>, k2: nat,
                     c': Chunk, l': Layout)
    requires PlacesOk(l, n) && Replacement(l, k, lo, hi, m, cuts, links, k2, c', l')
    ensures FreePlaced(l') && DeadPlaced(l', k2, l'.dead[k2])
    ensures forall j :: j in l.live && j != k ==> LivePlaced(l', j, l.live[j].ids)
    ensures forall j :: j in l.dead ==> DeadPlaced(l', j, l.dead[j])
  {
    hide CutsFit, ReplaceRun, ChunkOk;
    assert LivePlaced(l, k, l.live[k].ids);
    forall p | 0 <= p < |l'.dead[k2]| ensures l'.dead[k2][p] < n && l'.place[l'.dead[k2][p]] == Dead(k2, p) {
      assert l'.dead[k2][p] == l.live[k].ids[lo + p];
    }
  }

  lemma ReplacePlacesOk(l: Layout, n: nat, k: nat, lo: nat, hi: nat, m: nat, cuts: seq<nat>, links: seq<nat>, k2: nat,
                        c': Chunk, l': Layout)
    requires PlacesOk(l, n) && Replacement(l, k, lo, hi, m, cuts, links, k2, c', l')
    ensures PlacesOk(l', n)
  {
    OthersPlaced(l, n, k, lo, hi, m, cuts, links, k2, c', l');
    forall p | 0 <= p < |c'.ids| ensures c'.ids[p] < n && l'.place[c'.ids[p]] == Live(k, p) {
      RunPlaced(l, n, k, lo, hi, m, cuts, links, k2, c', l', p);
    }
    assert LivePlaced(l', k, c'.ids);
    hide CutsFit, ReplaceRun, ChunkOk, LivePlaced, DeadPlaced, FreePlaced;
  }

  lemma ReplacedLeft(l: Layout, k: nat, lo: nat, hi: nat, m: nat, cuts: seq<nat>, links: seq<nat>, k2: nat,
                     c': Chunk, l': Layout, i: nat, x: Desc, y: Desc, p: nat)
    requires Replacement(l, k, lo, hi, m, cuts, links, k2, c', l')
    requires DescOk(x, i, l, Live(k, p)) && ReplacedDesc(x, y, l, Live(k, p), k, lo, hi, m, c') && p < lo
    ensures DescOk(y, i, l', Live(k, p))
  {
    LeftOfRun(l.live[k], lo, hi, l.free[..m], cuts, links, p);
    hide CutsFit, ReplaceRun, ChunkOk;
  }

  lemma ReplacedRight(l: Layout, k: nat, lo: nat, hi: nat, m: nat, cuts: seq<nat>, links: seq<nat>, k2: nat,
                      c': Chunk, l': Layout, i: nat, x: Desc, y: Desc, p: nat, q: nat)
    requires Replacement(l, k, lo, hi, m, cuts, links, k2, c', l')
    requires DescOk(x, i, l, Live(k, p)) && ReplacedDesc(x, y, l, Live(k, p), k, lo, hi, m, c') && p > hi
    requires q == p - (hi + 1) + lo + m
    ensures DescOk(y, i, l', Live(k, q))
  {
    RightOfRun(l.live[k], lo, hi, l.free[..m], cuts, links, p, q);
    hide CutsFit, ReplaceRun, ChunkOk;
  }

  lemma ReplacedInside(l: Layout, k: nat, lo: nat, hi: nat, m: nat, cuts: seq<nat>, links: seq<nat>, k2: nat,
                       c': Chunk, l': Layout, i: nat, x: Desc, y: Desc, p: nat)
    requires Replacement(l, k, lo, hi, m, cuts, links, k2, c', l')
    requires DescOk(x, i, l, Live(k, p)) && ReplacedDesc(x, y, l, Live(k, p), k, lo, hi, m, c') && lo <= p <= hi
    ensures DescOk(y, i, l', Dead(k2, p - lo))
  {
    var ids := l.live[k].ids;
    assert p > lo ==> ids[lo..hi + 1][p - 1 - lo] == ids[p - 1];
    assert p < hi ==> ids[lo..hi + 1][p + 1 - lo] == ids[p + 1];
    hide CutsFit, ReplaceRun, ChunkOk;
  }

  lemma ReplacedElsewhere(l: Layout, k: nat, lo: nat, hi: nat, m: nat, cuts: seq<nat>, links: seq<nat>, k2: nat,
                          c': Chunk, l': Layout, i: nat, x: Desc, y: Desc, place: Place)
    requires Replacement(l, k, lo, hi, m, cuts, links, k2, c', l')
    requires DescOk(x, i, l, place) && ReplacedDesc(x, y, l, place, k, lo, hi, m, c')
    requires !place.Live? || place.k != k
    ensures DescOk(y, i, l', MovePlace(place, k, lo, hi, m, k2))
  {
    if place.Free? && place.p < m {
      InsideRun(l.live[k], lo, hi, l.free[..m], cuts, links, place.p);
    }
    hide CutsFit, ReplaceRun, ChunkOk;
  }

  lemma ReplacedDescOk(l: Layout, k: nat, lo: nat, hi: nat, m: nat, cuts: seq<nat>, links: seq<nat>, k2: nat,
                       c': Chunk, l': Layout, i: nat, x: Desc, y: Desc, place: Place)
    requires Replacement(l, k, lo, hi, m, cuts, links, k2, c', l')
    requires DescOk(x, i, l, place) && ReplacedDesc(x, y, l, place, k, lo, hi, m, c')
    ensures DescOk(y, i, l', MovePlace(place, k, lo, hi, m, k2))
  {
    hide DescOk, ReplacedDesc, Replacement;
    if !place.Live? || place.k != k {
      ReplacedElsewhere(l, k, lo, hi, m, cuts, links, k2, c', l', i, x, y, place);
    } else if place.p < lo {
      ReplacedLeft(l, k, lo, hi, m, cuts, links, k2, c', l', i, x, y, place.p);
    } else if place.p > hi {
      ReplacedRight(l, k, lo, hi, m, cuts, links, k2, c', l', i, x, y, place.p, place.p - (hi + 1) + lo + m);
    } else {
      ReplacedInside(l, k, lo, hi, m, cuts, links, k2, c', l', i, x, y, place.p);
    }
  }

  /** Replacing a run of regions keeps the shape of the table. */
  lemma ReplaceKeepsInv(d: seq<Desc>, head: int, l: Layout, k: nat, lo: nat, hi: nat, m: nat,
                        cuts: seq<nat>, links: seq<nat>, k2: nat, c': Chunk, l': Layout, d': seq<Desc>, head': int)
    requires Inv(d, head, l) && Replacement(l, k, lo, hi, m, cuts, links, k2, c', l')
    requires |d'| == |d| && head' == At(l.free, m)
    requires forall i :: 0 <= i < |d| ==> ReplacedDesc(d[i], d'[i], l, l.place[i], k, lo, hi, m, c')
    ensures Inv(d', head', l')
  {
    ReplacePlacesOk(l, |d|, k, lo, hi, m, cuts, links, k2, c', l');
    hide DescOk, ReplacedDesc, PlacesOk;
    assert |l.place| == |d| by { PlacesCover(l, |d|); }
    forall i | 0 <= i < |d| ensures DescOk(d'[i], i, l', l'.place[i]) {
      ReplacedDescOk(l, k, lo, hi, m, cuts, links, k2, c', l', i, d[i], d'[i], l.place[i]);
    }
  }

  lemma PlacesCover(l: Layout, n: nat)
    requires PlacesOk(l, n)
    ensures |l.place| == n
  {
  }

  // ------------------------------------------------------------ reclaiming a chain

  /** The free list after the chain `ids` was put on it: its first descriptor comes last. */
  ghost function FreeList(ids: seq<nat>, free: seq<nat>): seq<nat>
    requires |ids| > 0
  {
    seq(|ids|, p requires 0 <= p < |ids| => if p == 0 then ids[0] else ids[|ids| - p]) + free
  }

  ghost function FreePlace(place: Place, chain: Place, n: nat): Place {
    match place
    case Free(p) => Free(p + n)
    case Live(j, p) => if chain.Live? && j == chain.k then Free(if 0 < p <= n then n - p else 0) else place
    case Dead(j, p) => if chain.Dead? && j == chain.k then Free(if 0 < p <= n then n - p else 0) else place
  }

  /** The descriptors of the chain that `chain` is a place of. */
  ghost function ChainOf(l: Layout, chain: Place): seq<nat> {
    if chain.Live? && chain.k in l.live then l.live[chain.k].ids
    else if chain.Dead? && chain.k in l.dead then l.dead[chain.k]
    else []
  }

  ghost function ReclaimLayout(l: Layout, chain: Place): Layout
    requires |ChainOf(l, chain)| > 0
  {
    var ids := ChainOf(l, chain);
    Layout(FreeList(ids, l.free),
           if chain.Live? then l.live - {chain.k} else l.live,
           if chain.Dead? then l.dead - {chain.k} else l.dead,
           seq(|l.place|, i requires 0 <= i < |l.place| => FreePlace(l.place[i], chain, |ids|)))
  }

  /** What reclaiming a chain does to descriptor i. */
  ghost predicate ReclaimedDesc(x: Desc, y: Desc, l: Layout, place: Place, chain: Place)
  {
    var ids := ChainOf(l, chain);
    if (place.Live? && chain.Live? && place.k == chain.k) || (place.Dead? && chain.Dead? && place.k == chain.k) then
      && y.valid == 2 && y.refcount == 0 && y.mem == 0 && y.prev == NULL
      && y.next == (if |ids| <= 1 || place.p == 1 then At(l.free, 0)
                    else if place.p == 0 then ids[|ids| - 1]
                    else At(ids, place.p - 1))
    else y == x
  }

  lemma FreeListAt(ids: seq<nat>, free: seq<nat>, p: nat)
    requires |ids| > 0
    ensures var f := FreeList(ids, free);
            && |f| == |ids| + |free|
            && (p < |free| ==> f[p + |ids|] == free[p] && At(f, p + |ids| + 1) == At(free, p + 1))
            && (p == 0 ==> f[p] == ids[0] && At(f, 1) == if |ids| == 1 then At(free, 0) else ids[|ids| - 1])
            && (0 < p < |ids| ==> f[|ids| - p] == ids[p])
            && (0 < p < |ids| ==> At(f, |ids| - p + 1) == if p == 1 then At(free, 0) else ids[p - 1])
  {
  }

  lemma ReclaimedDescOk(l: Layout, chain: Place, l': Layout, i: nat, x: Desc, y: Desc, place: Place)
    requires |ChainOf(l, chain)| > 0 && l' == ReclaimLayout(l, chain)
    requires DescOk(x, i, l, place) && ReclaimedDesc(x, y, l, place, chain)
    ensures DescOk(y, i, l', FreePlace(place, chain, |ChainOf(l, chain)|))
  {
    FreeListAt(ChainOf(l, chain), l.free, place.p);
    FreeListAt(ChainOf(l, chain), l.free, 0);
    hide FreeList, ChunkOk;
  }

  lemma ReclaimFreePlaced(l: Layout, n: nat, chain: Place, l': Layout)
    requires PlacesOk(l, n) && |ChainOf(l, chain)| > 0 && l' == ReclaimLayout(l, chain)
    ensures FreePlaced(l')
  {
    hide ChunkOk;
    var ids := ChainOf(l, chain);
    assert chain.Live? ==> LivePlaced(l, chain.k, ids);
    assert chain.Dead? ==> DeadPlaced(l, chain.k, ids);
    forall p | 0 <= p < |l'.free| ensures l'.free[p] < n && l'.place[l'.free[p]] == Free(p) {
      if p >= |ids| {
        assert l'.free[p] == l.free[p - |ids|];
      }
    }
  }

  lemma ReclaimPlacesOk(l: Layout, n: nat, chain: Place, l': Layout)
    requires PlacesOk(l, n) && |ChainOf(l, chain)| > 0 && l' == ReclaimLayout(l, chain)
    ensures PlacesOk(l', n)
  {
    ReclaimFreePlaced(l, n, chain, l');
    hide ChunkOk, FreePlaced, FreeList;
    forall k | k in l'.live ensures LivePlaced(l', k, l'.live[k].ids) {
      assert LivePlaced(l, k, l.live[k].ids);
    }
    forall k | k in l'.dead ensures DeadPlaced(l', k, l'.dead[k]) {
      assert DeadPlaced(l, k, l.dead[k]);
    }
  }

  /** Putting a whole chain on the free list keeps the shape of the table. */
  lemma ReclaimKeepsInv(d: seq<Desc>, head: int, l: Layout, chain: Place, l': Layout, d': seq<Desc>, head': int)
    requires Inv(d, head, l) && |ChainOf(l, chain)| > 0 && l' == ReclaimLayout(l, chain)
    requires |d'| == |d| && head' == ChainOf(l, chain)[0]
    requires forall i :: 0 <= i < |d| ==> ReclaimedDesc(d[i], d'[i], l, l.place[i], chain)
    ensures Inv(d', head', l')
  {
    ReclaimPlacesOk(l, |d|, chain, l');
    FreeListAt(ChainOf(l, chain), l.free, 0);
    PlacesCover(l, |d|);
    hide DescOk, ReclaimedDesc, PlacesOk, FreeList;
    forall i | 0 <= i < |d| ensures DescOk(d'[i], i, l', l'.place[i]) {
      ReclaimedDescOk(l, chain, l', i, d[i], d'[i], l.place[i]);
    }
  }

  // ------------------------------------------------------------ memory over a whole run

  datatype Range = Range(addr: nat, size: nat)

  /** All that was ever handed to createDZMemory for fresh memory, by key, and the keys in
      the order in which memory was given back. */
  datatype Story = Story(created: seq<Range>, keys: seq<nat>)

  function RangeOf(c: Chunk): Range
    requires |c.cuts| > 0 && c.cuts[0] <= c.cuts[|c.cuts| - 1]
  {
    Range(c.cuts[0], c.cuts[|c.cuts| - 1] - c.cuts[0])
  }

  /** Every range ever created is either tiled by one live chunk or was given back once, whole. */
  ghost predicate StoryOk(l: Layout, released: seq<Range>, s: Story) {
    && (forall k :: k in l.live ==>
          ChunkOk(l.live[k]) && k < |s.created| && RangeOf(l.live[k]) == s.created[k] && k !in s.keys)
    && (forall k :: 0 <= k < |s.created| ==> k in l.live || k in s.keys)
    && |released| == |s.keys|
    && (forall i :: 0 <= i < |s.keys| ==> s.keys[i] < |s.created| && released[i] == s.created[s.keys[i]])
    && (forall i, j :: 0 <= i < j < |s.keys| ==> s.keys[i] != s.keys[j])
  }

  ghost predicate Referenced(d: seq<Desc>, ids: seq<nat>) {
    exists p :: 0 <= p < |ids| && ids[p] < |d| && d[ids[p]].refcount > 0
  }

  /** No chain is kept that nobody refers to. */
  ghost predicate NoLeak(d: seq<Desc>, l: Layout) {
    && (forall k :: k in l.live ==> Referenced(d, l.live[k].ids))
    && (forall k :: k in l.dead ==> Referenced(d, l.dead[k]))
  }

  /** The new regions take over the whole range of the old ones. */
  lemma ReplaceKeepsStory(l: Layout, k: nat, lo: nat, hi: nat, m: nat, cuts: seq<nat>, links: seq<nat>, k2: nat,
                          c': Chunk, l': Layout, released: seq<Range>, s: Story)
    requires Replacement(l, k, lo, hi, m, cuts, links, k2, c', l') && StoryOk(l, released, s)
    ensures StoryOk(l', released, s)
  {
    assert c'.cuts[0] == l.live[k].cuts[0];
    assert c'.cuts[|c'.cuts| - 1] == l.live[k].cuts[|l.live[k].cuts| - 1];
    hide ReplaceRun, CutsFit, ChunkOk;
  }

  lemma ReplacedReferenced(d: seq<Desc>, l: Layout, k: nat, lo: nat, hi: nat, m: nat, cuts: seq<nat>, links: seq<nat>,
                           k2: nat, c': Chunk, l': Layout, d': seq<Desc>, i: nat)
    requires PlacesOk(l, |d|) && Replacement(l, k, lo, hi, m, cuts, links, k2, c', l')
    requires |d'| == |d| && forall j :: 0 <= j < |d| ==> ReplacedDesc(d[j], d'[j], l, l.place[j], k, lo, hi, m, c')
    requires lo <= i <= hi && l.live[k].ids[i] < |d| && d[l.live[k].ids[i]].refcount > 0
    ensures Referenced(d', c'.ids) && Referenced(d', l'.dead[k2])
  {
    var c := l.live[k];
    assert LivePlaced(l, k, c.ids);
    InsideRun(c, lo, hi, l.free[..m], cuts, links, 0);
    hide ChunkOk, CutsFit, ReplaceRun;
    assert l'.dead[k2][i - lo] == c.ids[i];
    assert c'.ids[lo] == l.free[0];
  }

  lemma ReplaceLeaksNothing(d: seq<Desc>, l: Layout, k: nat, lo: nat, hi: nat, m: nat, cuts: seq<nat>, links: seq<nat>,
                            k2: nat, c': Chunk, l': Layout, d': seq<Desc>, i: nat)
    requires PlacesOk(l, |d|) && NoLeak(d, l) && Replacement(l, k, lo, hi, m, cuts, links, k2, c', l')
    requires |d'| == |d| && forall j :: 0 <= j < |d| ==> ReplacedDesc(d[j], d'[j], l, l.place[j], k, lo, hi, m, c')
    requires lo <= i <= hi && l.live[k].ids[i] < |d| && d[l.live[k].ids[i]].refcount > 0
    ensures NoLeak(d', l')
  {
    ReplacedReferenced(d, l, k, lo, hi, m, cuts, links, k2, c', l', d', i);
    hide ChunkOk, CutsFit, ReplaceRun, FreePlaced, NewRegion;
    forall j | j in l.live && j != k ensures Referenced(d', l.live[j].ids) {
      assert LivePlaced(l, j, l.live[j].ids);
      StillReferenced(d, d', l.live[j].ids);
    }
    forall j | j in l.dead ensures Referenced(d', l.dead[j]) {
      assert DeadPlaced(l, j, l.dead[j]);
      StillReferenced(d, d', l.dead[j]);
    }
    hide Referenced, DeadPlaced, LivePlaced, ReplacedDesc;
  }

  lemma StillReferenced(d: seq<Desc>, d': seq<Desc>, ids: seq<nat>)
    requires Referenced(d, ids) && |d'| == |d|
    requires forall p :: 0 <= p < |ids| && ids[p] < |d| ==> d'[ids[p]].refcount == d[ids[p]].refcount
    ensures Referenced(d', ids)
  {
  }

  // ------------------------------------------------------------ rewiring, as the operations do it

  ghost predicate Touched(c: Chunk, lo: nat, hi: nat, i: nat) {
    exists q :: 0 <= q < |c.ids| && lo - 1 <= q <= hi + 1 && c.ids[q] == i
  }

  /** d' is d with regions lo to hi of c unhooked and the descriptors `news` hooked in. */
  ghost predicate Rewired(d: seq<Desc>, d': seq<Desc>, c: Chunk, lo: nat, hi: nat, news: seq<nat>, c': Chunk)
    requires ChunkOk(c') && lo <= hi < |c.ids| && |news| > 0
  {
    && |d'| == |d| && (forall q :: 0 <= q < |c.ids| ==> c.ids[q] < |d|)
      && (forall j :: 0 <= j < |news| ==> news[j] < |d|)
    && (forall j :: 0 <= j < |news| ==> NewRegion(d'[news[j]], c, c', lo, j))
    && (forall q :: lo <= q <= hi ==>
          var x, y := d[c.ids[q]], d'[c.ids[q]];
          y == x.(valid := 0, mem := 0, size := y.size, prev := if q == lo then NULL else x.prev,
                  next := if q == hi then NULL else x.next))
    && (lo > 0 ==> d'[c.ids[lo - 1]] == d[c.ids[lo - 1]].(next := news[0]))
    && (hi + 1 < |c.ids| ==> d'[c.ids[hi + 1]] == d[c.ids[hi + 1]].(prev := news[|news| - 1]))
    && (forall i :: 0 <= i < |d| && i !in news && !Touched(c, lo, hi, i) ==> d'[i] == d[i])
  }

  /** Where the table is not rewired: behind the taken free descriptors, in dead chains, in
      other chunks and away from the run. */
  lemma RewiredElsewhere(d: seq<Desc>, l: Layout, k: nat, lo: nat, hi: nat, m: nat, i: nat)
    requires PlacesOk(l, |d|) && i < |d| && DescOk(d[i], i, l, l.place[i])
    requires k in l.live && lo <= hi < |l.live[k].ids| && 0 < m <= |l.free|
    ensures !(l.place[i].Free? && l.place[i].p < m) ==> i !in l.free[..m]
    ensures !(l.place[i].Live? && l.place[i].k == k && lo - 1 <= l.place[i].p <= hi + 1) ==>
              !Touched(l.live[k], lo, hi, i)
  {
    assert LivePlaced(l, k, l.live[k].ids) && FreePlaced(l);
    hide ChunkOk, DescOk, DeadPlaced;
  }

  lemma RewiredIsReplaced(d: seq<Desc>, d': seq<Desc>, l: Layout, k: nat, lo: nat, hi: nat, m: nat, c': Chunk, i: nat)
    requires PlacesOk(l, |d|) && i < |d| && DescOk(d[i], i, l, l.place[i])
    requires k in l.live && lo <= hi < |l.live[k].ids| && 0 < m <= |l.free| && ChunkOk(c')
    requires Rewired(d, d', l.live[k], lo, hi, l.free[..m], c')
    ensures |d'| == |d| && ReplacedDesc(d[i], d'[i], l, l.place[i], k, lo, hi, m, c')
  {
    RewiredElsewhere(d, l, k, lo, hi, m, i);
    PlaceOfDesc(d, l, i);
    hide ChunkOk, NewRegion, Touched, PlacesOk, LinksOk, DescOk, Rewired;
    if l.place[i].Free? && l.place[i].p < m {
      assert l.free[..m][l.place[i].p] == i;
      RewiredNew(d, d', l.live[k], lo, hi, l.free[..m], c', l.place[i].p);
    } else if l.place[i].Live? && l.place[i].k == k {
      RewiredRegion(d, d', l.live[k], lo, hi, l.free[..m], c', i, l.place[i].p);
    } else {
      RewiredNot(d, d', l.live[k], lo, hi, l.free[..m], c', i);
    }
  }

  /** A descriptor stands where its place says. */
  lemma PlaceOfDesc(d: seq<Desc>, l: Layout, i: nat)
    requires PlacesOk(l, |d|) && i < |d| && DescOk(d[i], i, l, l.place[i])
    ensures l.place[i].Free? ==> l.place[i].p < |l.free| && l.free[l.place[i].p] == i
    ensures l.place[i].Live? ==>
              l.place[i].k in l.live && l.place[i].p < |l.live[l.place[i].k].ids|
              && l.live[l.place[i].k].ids[l.place[i].p] == i
  {
    hide ChunkOk, LinksOk;
  }

  lemma RewiredNew(d: seq<Desc>, d': seq<Desc>, c: Chunk, lo: nat, hi: nat, news: seq<nat>, c': Chunk, j: nat)
    requires lo <= hi < |c.ids| && |news| > 0 && ChunkOk(c') && Rewired(d, d', c, lo, hi, news, c') && j < |news|
    ensures |d'| == |d| && news[j] < |d| && NewRegion(d'[news[j]], c, c', lo, j)
  {
    hide ChunkOk, NewRegion, Touched;
  }

  lemma RewiredNot(d: seq<Desc>, d': seq<Desc>, c: Chunk, lo: nat, hi: nat, news: seq<nat>, c': Chunk, i: nat)
    requires lo <= hi < |c.ids| && |news| > 0 && ChunkOk(c') && Rewired(d, d', c, lo, hi, news, c')
    requires i < |d| && i !in news && !Touched(c, lo, hi, i)
    ensures |d'| == |d| && d'[i] == d[i]
  {
    hide ChunkOk, NewRegion, Touched;
  }

  lemma RewiredRegion(d: seq<Desc>, d': seq<Desc>, c: Chunk, lo: nat, hi: nat, news: seq<nat>, c': Chunk, i: nat,
                      p: nat)
    requires i < |d| && p < |c.ids| && c.ids[p] == i && lo <= hi < |c.ids| && |news| > 0 && ChunkOk(c')
    requires Rewired(d, d', c, lo, hi, news, c') && i !in news
    requires !(lo - 1 <= p <= hi + 1) ==> !Touched(c, lo, hi, i)
    ensures |d'| == |d|
    ensures p + 1 == lo ==> d'[i] == d[i].(next := news[0])
    ensures p == hi + 1 ==> d'[i] == d[i].(prev := news[|news| - 1])
    ensures p + 1 < lo || p > hi + 1 ==> d'[i] == d[i]
    ensures lo <= p <= hi ==>
              d'[i] == d[i].(valid := 0, mem := 0, size := d'[i].size, prev := if p == lo then NULL else d[i].prev,
                             next := if p == hi then NULL else d[i].next)
  {
    hide ChunkOk, NewRegion, Touched;
  }

  /** The whole step: rewiring a run of referenced regions keeps everything there is to keep. */
  lemma RewiringKeepsAll(d: seq<Desc>, head: int, l: Layout, k: nat, lo: nat, hi: nat, m: nat,
                         cuts: seq<nat>, links: seq<nat>, k2: nat, c': Chunk, l': Layout, d': seq<Desc>, head': int,
                         released: seq<Range>, s: Story, i: nat)
    requires Inv(d, head, l) && Replacement(l, k, lo, hi, m, cuts, links, k2, c', l') && head' == At(l.free, m)
    requires Rewired(d, d', l.live[k], lo, hi, l.free[..m], c')
    requires NoLeak(d, l) && StoryOk(l, released, s)
    requires lo <= i <= hi && l.live[k].ids[i] < |d| && d[l.live[k].ids[i]].refcount > 0
    ensures Inv(d', head', l') && NoLeak(d', l') && StoryOk(l', released, s)
  {
    hide PlacesOk, DescOk, ReplacedDesc, NoLeak, StoryOk, ReplaceLayout, CutsFit, ReplaceRun, ChunkOk;
    PlacesCover(l, |d|);
    forall j | 0 <= j < |d| ensures ReplacedDesc(d[j], d'[j], l, l.place[j], k, lo, hi, m, c') {
      RewiredIsReplaced(d, d', l, k, lo, hi, m, c', j);
    }
    hide Rewired, Replacement;
    ReplaceKeepsInv(d, head, l, k, lo, hi, m, cuts, links, k2, c', l', d', head');
    ReplaceLeaksNothing(d, l, k, lo, hi, m, cuts, links, k2, c', l', d', i);
    ReplaceKeepsStory(l, k, lo, hi, m, cuts, links, k2, c', l', released, s);
  }

  // ------------------------------------------------------------ counting references

  /** Only a reference count changes, and not that of a free descriptor. */
  lemma CountKeepsInv(d: seq<Desc>, head: int, l: Layout, i: nat, n: nat)
    requires Inv(d, head, l) && i < |d| && !l.place[i].Free?
    ensures Inv(d[i := d[i].(refcount := n)], head, l)
  {
    hide PlacesOk, ChunkOk;
    PlacesCover(l, |d|);
  }

  lemma CountLeaksNothing(d: seq<Desc>, l: Layout, i: nat, n: nat)
    requires PlacesOk(l, |d|) && NoLeak(d, l) && i < |d|
    requires n > 0 || Referenced(d[i := d[i].(refcount := n)], ChainOf(l, l.place[i]))
    ensures NoLeak(d[i := d[i].(refcount := n)], l)
  {
    var d' := d[i := d[i].(refcount := n)];
    hide ChunkOk;
    forall j | j in l.live ensures Referenced(d', l.live[j].ids) {
      assert LivePlaced(l, j, l.live[j].ids);
      if i in l.live[j].ids && n > 0 {
        assert Referenced(d', l.live[j].ids);
      } else if i !in l.live[j].ids {
        StillReferenced(d, d', l.live[j].ids);
      }
    }
    forall j | j in l.dead ensures Referenced(d', l.dead[j]) {
      assert DeadPlaced(l, j, l.dead[j]);
      if i in l.dead[j] && n > 0 {
        assert Referenced(d', l.dead[j]);
      } else if i !in l.dead[j] {
        StillReferenced(d, d', l.dead[j]);
      }
    }
  }

  // ------------------------------------------------------------ the chain that was reclaimed

  lemma ReclaimLeaksNothing(d: seq<Desc>, l: Layout, chain: Place, l': Layout, d': seq<Desc>)
    requires PlacesOk(l, |d|) && |ChainOf(l, chain)| > 0 && l' == ReclaimLayout(l, chain)
    requires forall k :: k in l'.live ==> Referenced(d, l.live[k].ids)
    requires forall k :: k in l'.dead ==> Referenced(d, l.dead[k])
    requires |d'| == |d| && forall i :: 0 <= i < |d| ==> ReclaimedDesc(d[i], d'[i], l, l.place[i], chain)
    ensures NoLeak(d', l')
  {
    hide ChunkOk, FreeList;
    forall k | k in l'.live ensures Referenced(d', l'.live[k].ids) {
      assert LivePlaced(l, k, l.live[k].ids);
      StillReferenced(d, d', l.live[k].ids);
    }
    forall k | k in l'.dead ensures Referenced(d', l'.dead[k]) {
      assert DeadPlaced(l, k, l.dead[k]);
      StillReferenced(d, d', l.dead[k]);
    }
  }

  /** A live chain gives its whole range back, a dead one nothing. */
  lemma ReclaimKeepsStory(l: Layout, chain: Place, l': Layout, released: seq<Range>, s: Story)
    requires |ChainOf(l, chain)| > 0 && l' == ReclaimLayout(l, chain) && StoryOk(l, released, s)
    ensures chain.Dead? ==> StoryOk(l', released, s)
    ensures chain.Live? ==>
              && ChunkOk(l.live[chain.k])
              && StoryOk(l', released + [RangeOf(l.live[chain.k])], s.(keys := s.keys + [chain.k]))
  {
    hide ChunkOk, RangeOf, FreeList;
  }

  // ------------------------------------------------------------ fresh memory

  /** The layout with one more chunk of one region, made of the first free descriptor. */
  ghost function CreateLayout(l: Layout, k: nat, mem: nat, size: nat): Layout
    requires |l.free| > 0
  {
    Layout(l.free[1..], l.live[k := Chunk([l.free[0]], [mem, mem + size], [])], l.dead,
           seq(|l.place|, i requires 0 <= i < |l.place| =>
             match l.place[i]
             case Free(p) => if p == 0 then Live(k, 0) else Free(p - 1)
             case other => other))
  }

  lemma CreatePlacesOk(l: Layout, n: nat, k: nat, mem: nat, size: nat, l': Layout)
    requires PlacesOk(l, n) && |l.free| > 0 && k !in l.live && mem > 0 && l' == CreateLayout(l, k, mem, size)
    ensures PlacesOk(l', n)
  {
    assert FreePlaced(l);
    assert ChunkOk(l'.live[k]) && LivePlaced(l', k, l'.live[k].ids);
    forall p | 0 <= p < |l'.free| ensures l'.place[l'.free[p]] == Free(p) { assert l'.free[p] == l.free[p + 1]; }
    assert FreePlaced(l');
    hide ChunkOk, FreePlaced;
    forall j | j in l.live ensures LivePlaced(l', j, l.live[j].ids) { assert LivePlaced(l, j, l.live[j].ids); }
    forall j | j in l.dead ensures DeadPlaced(l', j, l.dead[j]) { assert DeadPlaced(l, j, l.dead[j]); }
    hide LivePlaced, DeadPlaced;
  }

  lemma CreateDescOk(l: Layout, k: nat, mem: nat, size: nat, l': Layout, i: nat, x: Desc, y: Desc)
    requires |l.free| > 0 && k !in l.live && mem > 0 && l' == CreateLayout(l, k, mem, size)
    requires i < |l.place| && DescOk(x, i, l, l.place[i])
    requires y == if l.place[i] == Free(0) then Desc(1, 1, mem, size, NULL, NULL, 0, 0) else x
    ensures DescOk(y, i, l', l'.place[i])
  {
    if l.place[i].Live? { hide ChunkOk; }
  }

  lemma CreateKeepsInv(d: seq<Desc>, head: int, l: Layout, k: nat, mem: nat, size: nat, l': Layout, x: Desc)
    requires Inv(d, head, l) && |l.free| > 0 && k !in l.live && mem > 0 && l.free[0] < |d|
    requires l' == CreateLayout(l, k, mem, size) && x == Desc(1, 1, mem, size, NULL, NULL, 0, 0)
    ensures Inv(d[l.free[0] := x], At(l.free, 1), l')
  {
    CreatePlacesOk(l, |d|, k, mem, size, l');
    PlacesCover(l, |d|);
    assert FreePlaced(l);
    var d' := d[l.free[0] := x];
    forall i | 0 <= i < |d|
      ensures DescOk(d'[i], i, l', l'.place[i])
    {
      assert DescOk(d[i], i, l, l.place[i]);
      CreateDescOk(l, k, mem, size, l', i, d[i], d'[i]);
    }
    hide PlacesOk, DescOk, FreePlaced;
  }

  lemma CreateLeaksNothing(d: seq<Desc>, l: Layout, k: nat, mem: nat, size: nat, l': Layout, x: Desc)
    requires PlacesOk(l, |d|) && |l.free| > 0 && mem > 0 && l.free[0] < |d| && NoLeak(d, l)
    requires k !in l.live && l' == CreateLayout(l, k, mem, size) && x == Desc(1, 1, mem, size, NULL, NULL, 0, 0)
    ensures NoLeak(d[l.free[0] := x], l')
  {
    assert FreePlaced(l);
    hide ChunkOk, FreePlaced;
    var d' := d[l.free[0] := x];
    forall j | j in l.live ensures Referenced(d', l.live[j].ids) {
      assert LivePlaced(l, j, l.live[j].ids);
      StillReferenced(d, d', l.live[j].ids);
    }
    forall j | j in l.dead ensures Referenced(d', l.dead[j]) {
      assert DeadPlaced(l, j, l.dead[j]);
      StillReferenced(d, d', l.dead[j]);
    }
    hide PlacesOk, LivePlaced, DeadPlaced;
    assert l'.live[k].ids[0] == l.free[0] && d'[l.free[0]] == x;
    assert Referenced(d', l'.live[k].ids);
    hide Referenced;
  }

  lemma CreateKeepsStory(l: Layout, mem: nat, size: nat, l': Layout, released: seq<Range>, s: Story)
    requires |l.free| > 0 && mem > 0 && StoryOk(l, released, s)
    requires l' == CreateLayout(l, |s.created|, mem, size)
    ensures StoryOk(l', released, s.(created := s.created + [Range(mem, size)]))
  {
    var k := |s.created|;
    assert ChunkOk(l'.live[k]) && RangeOf(l'.live[k]) == Range(mem, size);
    hide ChunkOk, RangeOf;
  }

  lemma CreateKeepsAll(d: seq<Desc>, head: int, l: Layout, mem: nat, size: nat, l': Layout, d': seq<Desc>, head': int,
                       released: seq<Range>, s: Story)
    requires Inv(d, head, l) && NoLeak(d, l) && StoryOk(l, released, s) && |l.free| > 0 && mem > 0 && l.free[0] < |d|
    requires l' == CreateLayout(l, |s.created|, mem, size) && head' == At(l.free, 1)
    requires d' == d[l.free[0] := Desc(1, 1, mem, size, NULL, NULL, 0, 0)]
    ensures Inv(d', head', l') && NoLeak(d', l')
    ensures StoryOk(l', released, s.(created := s.created + [Range(mem, size)]))
  {
    assert |s.created| !in l.live;
    hide NoLeak, StoryOk, CreateLayout, PlacesOk, DescOk;
    var x := Desc(1, 1, mem, size, NULL, NULL, 0, 0);
    CreateKeepsInv(d, head, l, |s.created|, mem, size, l', x);
    CreateLeaksNothing(d, l, |s.created|, mem, size, l', x);
    CreateKeepsStory(l, mem, size, l', released, s);
  }

  // ------------------------------------------------------------ reading the table

  /** The k-th entry of the free list. */
  lemma FreeFacts(d: seq<Desc>, head: int, l: Layout, k: nat)
    requires Inv(d, head, l)
    ensures head == At(l.free, 0)
    ensures k < |l.free| ==> l.free[k] < |d| && d[l.free[k]].next == At(l.free, k + 1)
    ensures k < |l.free| ==> l.free[k] < |l.place| && l.place[l.free[k]] == Free(k)
  {
    hide DescOk, LivePlaced, DeadPlaced, ChunkOk;
    if k < |l.free| {
      assert FreePlaced(l) && l.place[l.free[k]] == Free(k);
      assert DescOk(d[l.free[k]], l.free[k], l, Free(k));
      FreeDescFacts(d[l.free[k]], l.free[k], l, k);
    }
    hide PlacesOk;
  }

  lemma FreeDescFacts(x: Desc, i: nat, l: Layout, k: nat)
    requires DescOk(x, i, l, Free(k))
    ensures x.next == At(l.free, k + 1)
  {
  }

  /** Region q of chunk k. */
  lemma RegionFacts(d: seq<Desc>, head: int, l: Layout, k: nat, q: nat)
    requires Inv(d, head, l) && k in l.live && q < |l.live[k].ids|
    ensures var c := l.live[k];
            && ChunkOk(c) && c.ids[q] < |d| == |l.place| && l.place[c.ids[q]] == Live(k, q)
            && (var x := d[c.ids[q]];
                && x.valid == 1 && x.prev == At(c.ids, q - 1) && x.next == At(c.ids, q + 1)
                && x.mem == c.cuts[q] > 0 && x.mem + x.size == c.cuts[q + 1]
                && (q > 0 ==> x.prevOwner == c.links[q - 1])
                && (q + 1 < |c.ids| ==> x.nextOwner == c.links[q]))
  {
    var c := l.live[k];
    assert LivePlaced(l, k, c.ids);
    assert DescOk(d[c.ids[q]], c.ids[q], l, Live(k, q));
    hide PlacesOk;
  }

  /** Descriptor i, which its place says belongs to a chunk. */
  lemma PlaceFacts(d: seq<Desc>, head: int, l: Layout, i: nat)
    requires Inv(d, head, l) && i < |l.place| && l.place[i].Live?
    ensures |d| == |l.place|
    ensures var k, p := l.place[i].k, l.place[i].p;
            k in l.live && ChunkOk(l.live[k]) && p < |l.live[k].ids| && l.live[k].ids[p] == i
  {
    PlacesCover(l, |d|);
    assert DescOk(d[i], i, l, l.place[i]);
    hide PlacesOk;
  }

  // ------------------------------------------------------------ splitting and joining as rewirings

  /** The table after dzmemory_split2 of region p at offset; a and b are the new descriptors. */
  ghost predicate Split2Table(d: seq<Desc>, d': seq<Desc>, x: nat, a: nat, b: nat, offset: nat, dom: nat)
    requires x < |d| && a < |d| && b < |d|
  {
    var o := d[x];
    && |d'| == |d| && offset <= o.size && NULL <= o.prev < |d| && NULL <= o.next < |d|
    && d'[a] == Desc(1, 1, o.mem, offset, o.prev, b, o.prevOwner, dom)
    && d'[b] == Desc(1, 1, o.mem + offset, o.size - offset, a, o.next, dom, o.nextOwner)
    && d'[x] == o.(valid := 0, mem := 0, prev := NULL, next := NULL)
    && (o.prev != NULL ==> d'[o.prev] == d[o.prev].(next := a))
    && (o.next != NULL ==> d'[o.next] == d[o.next].(prev := b))
    && (forall i :: 0 <= i < |d| && i != a && i != b && i != x && i != o.prev && i != o.next ==> d'[i] == d[i])
  }

  /** The new chunk c' along the run of c that `ids` replaces. */
  ghost predicate Along(c: Chunk, c': Chunk, lo: nat, hi: nat, ids: seq<nat>, cuts: seq<nat>, links: seq<nat>) {
    && lo <= hi < |c.ids| && |c.cuts| == |c.ids| + 1 && |c.links| + 1 == |c.ids|
    && |ids| > 0 && |cuts| == |links| == |ids| - 1
    && |c'.ids| + (hi + 1 - lo) == |c.ids| + |ids| && |c'.cuts| == |c'.ids| + 1 && |c'.links| + 1 == |c'.ids|
    && At(c'.ids, lo - 1) == At(c.ids, lo - 1) && At(c'.ids, lo + |ids|) == At(c.ids, hi + 1)
    && (forall j :: 0 <= j < |ids| ==> c'.ids[lo + j] == ids[j])
    && c'.cuts[lo] == c.cuts[lo] && c'.cuts[lo + |ids|] == c.cuts[hi + 1]
    && (forall j :: 0 <= j < |cuts| ==> c'.cuts[lo + 1 + j] == cuts[j] && c'.links[lo + j] == links[j])
    && (lo > 0 ==> c'.links[lo - 1] == c.links[lo - 1])
    && (hi + 1 < |c.ids| ==> c'.links[lo + |ids| - 1] == c.links[hi])
  }

  lemma RunBorders(c: Chunk, lo: nat, hi: nat, ids: seq<nat>, cuts: seq<nat>, links: seq<nat>, c': Chunk)
    requires ChunkOk(c) && lo <= hi < |c.ids| && CutsFit(c, lo, hi, |ids|, cuts, links)
    requires c' == ReplaceRun(c, lo, hi, ids, cuts, links)
    ensures Along(c, c', lo, hi, ids, cuts, links)
  {
  }

  /** The outer fields of a region agree with its chunk. */
  ghost predicate Fits(o: Desc, c: Chunk, p: nat) {
    && p < |c.ids| && |c.cuts| == |c.ids| + 1 && |c.links| + 1 == |c.ids|
    && o.prev == At(c.ids, p - 1) && o.next == At(c.ids, p + 1)
    && o.mem == c.cuts[p] && o.mem + o.size == c.cuts[p + 1]
    && (p > 0 ==> o.prevOwner == c.links[p - 1])
    && (p + 1 < |c.ids| ==> o.nextOwner == c.links[p])
  }

  lemma Split2News(c: Chunk, c': Chunk, p: nat, o: Desc, a: nat, b: nat, offset: nat, dom: nat)
    requires Fits(o, c, p) && offset <= o.size && ChunkOk(c')
    requires Along(c, c', p, p, [a, b], [o.mem + offset], [dom])
    ensures NewRegion(Desc(1, 1, o.mem, offset, o.prev, b, o.prevOwner, dom), c, c', p, 0)
    ensures NewRegion(Desc(1, 1, o.mem + offset, o.size - offset, a, o.next, dom, o.nextOwner), c, c', p, 1)
  {
    var ids, cuts, links := [a, b], [o.mem + offset], [dom];
    assert ids[0] == a && ids[1] == b && cuts[0] == o.mem + offset && links[0] == dom;
    assert c'.ids[p + 0] == a && c'.ids[p + 1] == b;
  }

  lemma RegionFits(d: seq<Desc>, head: int, l: Layout, k: nat, p: nat)
    requires Inv(d, head, l) && k in l.live && p < |l.live[k].ids| && l.live[k].ids[p] < |d|
    ensures Fits(d[l.live[k].ids[p]], l.live[k], p) && ChunkOk(l.live[k])
  {
    RegionFacts(d, head, l, k, p);
  }

  lemma IdsInTable(d: seq<Desc>, head: int, l: Layout, k: nat)
    requires Inv(d, head, l) && k in l.live
    ensures forall q :: 0 <= q < |l.live[k].ids| ==> l.live[k].ids[q] < |d|
  {
    assert LivePlaced(l, k, l.live[k].ids);
  }

  /** What is not touched is neither in the run nor next to it. */
  lemma UntouchedIsElsewhere(c: Chunk, lo: nat, hi: nat, i: nat)
    requires lo <= hi < |c.ids| && !Touched(c, lo, hi, i)
    ensures lo > 0 ==> i != c.ids[lo - 1]
    ensures hi + 1 < |c.ids| ==> i != c.ids[hi + 1]
    ensures forall q :: lo <= q <= hi ==> i != c.ids[q]
  {
  }

  lemma Split2Wired(d: seq<Desc>, d': seq<Desc>, c: Chunk, c': Chunk, p: nat, a: nat, b: nat, offset: nat, dom: nat)
    requires ChunkOk(c') && (forall q :: 0 <= q < |c.ids| ==> c.ids[q] < |d|) && a < |d| && b < |d|
    requires p < |c.ids| && Fits(d[c.ids[p]], c, p) && Split2Table(d, d', c.ids[p], a, b, offset, dom)
    requires NewRegion(d'[a], c, c', p, 0) && NewRegion(d'[b], c, c', p, 1)
    ensures Rewired(d, d', c, p, p, [a, b], c')
  {
    forall i | 0 <= i < |d| && i !in [a, b] && !Touched(c, p, p, i) ensures d'[i] == d[i] {
      UntouchedIsElsewhere(c, p, p, i);
      assert [a, b][0] == a && [a, b][1] == b;
    }
    hide ChunkOk, NewRegion, Touched;
  }

  lemma Split2Rewires(d: seq<Desc>, head: int, l: Layout, k: nat, p: nat, x: nat, a: nat, b: nat, offset: nat, dom: nat,
                      d': seq<Desc>, c': Chunk)
    requires Inv(d, head, l) && k in l.live && p < |l.live[k].ids| && x == l.live[k].ids[p] && x < |d|
    requires a < |d| && b < |d| && Split2Table(d, d', x, a, b, offset, dom) && ChunkOk(l.live[k])
    requires c' == ReplaceRun(l.live[k], p, p, [a, b], [d[x].mem + offset], [dom])
    ensures CutsFit(l.live[k], p, p, 2, [d[x].mem + offset], [dom]) && ChunkOk(c')
    ensures Rewired(d, d', l.live[k], p, p, [a, b], c')
  {
    hide Inv, ChunkOk, ReplaceRun, NewRegion, Along, Rewired;
    var c := l.live[k];
    RegionFits(d, head, l, k, p);
    IdsInTable(d, head, l, k);
    assert d[x].mem == c.cuts[p] && d[x].mem + d[x].size == c.cuts[p + 1];
    hide Fits;
    var cuts, links := [d[x].mem + offset], [dom];
    assert CutsFit(c, p, p, 2, cuts, links) by { assert cuts[0] == d[x].mem + offset; }
    hide CutsFit;
    ReplaceRunOk(c, p, p, [a, b], cuts, links);
    RunBorders(c, p, p, [a, b], cuts, links, c');
    Split2News(c, c', p, d[x], a, b, offset, dom);
    Split2Wired(d, d', c, c', p, a, b, offset, dom);
  }

  /** The table after dzmemory_split3 of region x; a, b and e are the new descriptors. */
  ghost predicate Split3Table(d: seq<Desc>, d': seq<Desc>, x: nat, a: nat, b: nat, e: nat, offset: nat, len: nat,
                              dom: nat)
    requires x < |d| && a < |d| && b < |d| && e < |d|
  {
    var o := d[x];
    && |d'| == |d| && offset + len <= o.size && NULL <= o.prev < |d| && NULL <= o.next < |d|
    && d'[a] == Desc(1, 1, o.mem, offset, o.prev, b, o.prevOwner, dom)
    && d'[b] == Desc(1, 1, o.mem + offset, len, a, e, dom, dom)
    && d'[e] == Desc(1, 1, o.mem + len + offset, o.size - len - offset, b, o.next, dom, o.nextOwner)
    && d'[x] == o.(valid := 0, mem := 0, prev := NULL, next := NULL)
    && (o.prev != NULL ==> d'[o.prev] == d[o.prev].(next := a))
    && (o.next != NULL ==> d'[o.next] == d[o.next].(prev := e))
    && (forall i :: 0 <= i < |d| && i != a && i != b && i != e && i != x && i != o.prev && i != o.next ==>
      d'[i] == d[i])
  }

  lemma Split3News(c: Chunk, c': Chunk, p: nat, o: Desc, a: nat, b: nat, e: nat, offset: nat, len: nat, dom: nat)
    requires Fits(o, c, p) && offset + len <= o.size && ChunkOk(c')
    requires Along(c, c', p, p, [a, b, e], [o.mem + offset, o.mem + len + offset], [dom, dom])
    ensures NewRegion(Desc(1, 1, o.mem, offset, o.prev, b, o.prevOwner, dom), c, c', p, 0)
    ensures NewRegion(Desc(1, 1, o.mem + offset, len, a, e, dom, dom), c, c', p, 1)
    ensures NewRegion(Desc(1, 1, o.mem + len + offset, o.size - len - offset, b, o.next, dom, o.nextOwner), c, c', p, 2)
  {
    var ids, cuts, links := [a, b, e], [o.mem + offset, o.mem + len + offset], [dom, dom];
    assert ids[0] == a && ids[1] == b && ids[2] == e;
    assert cuts[0] == o.mem + offset && cuts[1] == o.mem + len + offset && links[0] == dom && links[1] == dom;
    assert c'.ids[p + 0] == a && c'.ids[p + 1] == b && c'.ids[p + 2] == e;
  }

  lemma Split3Wired(d: seq<Desc>, d': seq<Desc>, c: Chunk, c': Chunk, p: nat, a: nat, b: nat, e: nat,
                    offset: nat, len: nat, dom: nat)
    requires ChunkOk(c') && (forall q :: 0 <= q < |c.ids| ==> c.ids[q] < |d|) && a < |d| && b < |d| && e < |d|
    requires p < |c.ids| && Fits(d[c.ids[p]], c, p) && Split3Table(d, d', c.ids[p], a, b, e, offset, len, dom)
    requires NewRegion(d'[a], c, c', p, 0) && NewRegion(d'[b], c, c', p, 1) && NewRegion(d'[e], c, c', p, 2)
    ensures Rewired(d, d', c, p, p, [a, b, e], c')
  {
    forall i | 0 <= i < |d| && i !in [a, b, e] && !Touched(c, p, p, i) ensures d'[i] == d[i] {
      UntouchedIsElsewhere(c, p, p, i);
      assert [a, b, e][0] == a && [a, b, e][1] == b && [a, b, e][2] == e;
    }
    hide ChunkOk, NewRegion, Touched;
  }

  lemma Split3Rewires(d: seq<Desc>, head: int, l: Layout, k: nat, p: nat, x: nat, a: nat, b: nat, e: nat,
                      offset: nat, len: nat, dom: nat, d': seq<Desc>, c': Chunk)
    requires Inv(d, head, l) && k in l.live && p < |l.live[k].ids| && x == l.live[k].ids[p] && x < |d|
    requires a < |d| && b < |d| && e < |d| && Split3Table(d, d', x, a, b, e, offset, len, dom) && ChunkOk(l.live[k])
    requires c' == ReplaceRun(l.live[k], p, p, [a, b, e], [d[x].mem + offset, d[x].mem + len + offset], [dom, dom])
    ensures CutsFit(l.live[k], p, p, 3, [d[x].mem + offset, d[x].mem + len + offset], [dom, dom]) && ChunkOk(c')
    ensures Rewired(d, d', l.live[k], p, p, [a, b, e], c')
  {
    hide Inv, ChunkOk, ReplaceRun, NewRegion, Along, Rewired;
    var c := l.live[k];
    RegionFits(d, head, l, k, p);
    IdsInTable(d, head, l, k);
    assert d[x].mem == c.cuts[p] && d[x].mem + d[x].size == c.cuts[p + 1];
    hide Fits;
    var cuts, links := [d[x].mem + offset, d[x].mem + len + offset], [dom, dom];
    assert CutsFit(c, p, p, 3, cuts, links) by {
      assert cuts[0] == d[x].mem + offset && cuts[1] == d[x].mem + len + offset;
    }
    hide CutsFit;
    ReplaceRunOk(c, p, p, [a, b, e], cuts, links);
    RunBorders(c, p, p, [a, b, e], cuts, links, c');
    Split3News(c, c', p, d[x], a, b, e, offset, len, dom);
    Split3Wired(d, d', c, c', p, a, b, e, offset, len, dom);
  }

  /** The table after regions lo to hi of c were joined into the new descriptor a. */
  ghost predicate JoinTable(d: seq<Desc>, d': seq<Desc>, c: Chunk, lo: nat, hi: nat, a: nat)
    requires lo <= hi < |c.ids| && |c.cuts| == |c.ids| + 1 && (forall q :: 0 <= q < |c.ids| ==> c.ids[q] < |d|)
             && a < |d|
  {
    var x, y := d[c.ids[lo]], d[c.ids[hi]];
    && |d'| == |d| && c.cuts[lo] <= c.cuts[hi + 1]
    && d'[a] == Desc(1, 1, x.mem, c.cuts[hi + 1] - c.cuts[lo], x.prev, y.next, x.prevOwner, d'[a].nextOwner)
    && (y.next != NULL ==> d'[a].nextOwner == y.nextOwner)
    && (forall q :: lo <= q <= hi ==>
          var u, v := d[c.ids[q]], d'[c.ids[q]];
          v == u.(valid := 0, mem := 0, prev := if q == lo then NULL else u.prev,
            next := if q == hi then NULL else u.next))
    && (lo > 0 ==> d'[c.ids[lo - 1]] == d[c.ids[lo - 1]].(next := a))
    && (hi + 1 < |c.ids| ==> d'[c.ids[hi + 1]] == d[c.ids[hi + 1]].(prev := a))
    && (forall i :: 0 <= i < |d| && i != a && !Touched(c, lo, hi, i) ==> d'[i] == d[i])
  }

  lemma JoinNews(c: Chunk, c': Chunk, lo: nat, hi: nat, x: Desc, y: Desc, a: nat, z: Desc)
    requires Along(c, c', lo, hi, [a], [], []) && ChunkOk(c')
    requires Fits(x, c, lo) && Fits(y, c, hi) && c.cuts[lo] <= c.cuts[hi + 1]
    requires z == Desc(1, 1, x.mem, c.cuts[hi + 1] - c.cuts[lo], x.prev, y.next, x.prevOwner, z.nextOwner)
    requires y.next != NULL ==> z.nextOwner == y.nextOwner
    ensures NewRegion(z, c, c', lo, 0)
  {
  }

  lemma JoinWired(d: seq<Desc>, d': seq<Desc>, c: Chunk, c': Chunk, lo: nat, hi: nat, a: nat)
    requires ChunkOk(c') && lo <= hi < |c.ids| && |c.cuts| == |c.ids| + 1
    requires (forall q :: 0 <= q < |c.ids| ==> c.ids[q] < |d|) && a < |d| && JoinTable(d, d', c, lo, hi, a)
    requires NewRegion(d'[a], c, c', lo, 0)
    ensures Rewired(d, d', c, lo, hi, [a], c')
  {
    assert [a][0] == a;
    hide ChunkOk, NewRegion, Touched;
  }

  lemma JoinRewires(d: seq<Desc>, head: int, l: Layout, k: nat, lo: nat, hi: nat, a: nat, d': seq<Desc>, c': Chunk)
    requires Inv(d, head, l) && k in l.live && lo <= hi < |l.live[k].ids| && ChunkOk(l.live[k])
    requires (forall q :: 0 <= q < |l.live[k].ids| ==> l.live[k].ids[q] < |d|) && a < |d|
    requires JoinTable(d, d', l.live[k], lo, hi, a)
    requires c' == ReplaceRun(l.live[k], lo, hi, [a], [], [])
    ensures CutsFit(l.live[k], lo, hi, 1, [], []) && ChunkOk(c')
    ensures Rewired(d, d', l.live[k], lo, hi, [a], c')
  {
    hide Inv, ChunkOk, ReplaceRun, NewRegion, Along, Rewired;
    var c := l.live[k];
    RegionFits(d, head, l, k, lo);
    RegionFits(d, head, l, k, hi);
    assert CutsFit(c, lo, hi, 1, [], []);
    hide CutsFit, Fits;
    ReplaceRunOk(c, lo, hi, [a], [], []);
    RunBorders(c, lo, hi, [a], [], [], c');
    JoinNews(c, c', lo, hi, d[c.ids[lo]], d[c.ids[hi]], a, d'[a]);
    JoinWired(d, d', c, c', lo, hi, a);
  }
}
