/** The chained hash table with a bucket pool of kcfg/trunk/hashtable.c. Keys and values are
    pointers to what the caller owns; buckets are indices into everything ever allocated. */
module HashTable {
  import opened Pointers

  const HASHBUCKET_TAG := 0x62486b63
  const BLOCK_SIZE := 100

  datatype Bucket = Bucket(tag: nat, link: int, key: nat, val: nat)

  datatype Place = InPool(p: nat) | InSlot(i: nat, p: nat)

  /** What the links stand for: the pool, the chain of every slot and the place of every bucket. */
  datatype Shape = Shape(pool: seq<nat>, slots: seq<seq<nat>>, place: seq<Place>)

  /** The callbacks of the table, hash and comp, fit each other. */
  ghost predicate Equivalence(comp: (nat, nat) -> int) {
    && (forall a :: comp(a, a) == 0)
    && (forall a, b :: comp(a, b) == 0 ==> comp(b, a) == 0)
    && (forall a, b, c :: comp(a, b) == 0 && comp(b, c) == 0 ==> comp(a, c) == 0)
  }

  ghost predicate Agree(hash: nat -> nat, comp: (nat, nat) -> int) {
    forall a, b :: comp(a, b) == 0 ==> hash(a) == hash(b)
  }

  // ------------------------------------------------------------ the table as a finite map

  ghost predicate Has(m: map<nat, nat>, comp: (nat, nat) -> int, key: nat) {
    exists k :: k in m && comp(key, k) == 0
  }

  ghost function Without(m: map<nat, nat>, comp: (nat, nat) -> int, key: nat): map<nat, nat> {
    map k | k in m && comp(key, k) != 0 :: m[k]
  }

  /** No two keys are equal under comp. */
  ghost predicate KeysApart(m: map<nat, nat>, comp: (nat, nat) -> int) {
    forall a, b :: a in m && b in m && comp(a, b) == 0 ==> a == b
  }

  // ------------------------------------------------------------ the shape of the buckets

  ghost predicate LinkOk(x: Bucket, i: nat, sh: Shape, place: Place) {
    match place
    case InPool(p) => p < |sh.pool| && sh.pool[p] == i && x.tag == 0 && x.link == At(sh.pool, p + 1)
    case InSlot(s, p) =>
      && s < |sh.slots| && p < |sh.slots[s]| && sh.slots[s][p] == i
      && x.tag == HASHBUCKET_TAG && x.link == At(sh.slots[s], p + 1)
  }

  ghost predicate PoolPlaced(sh: Shape) {
    forall p :: 0 <= p < |sh.pool| ==> sh.pool[p] < |sh.place| && sh.place[sh.pool[p]] == InPool(p)
  }

  ghost predicate SlotPlaced(sh: Shape, s: nat, ids: seq<nat>) {
    forall p :: 0 <= p < |ids| ==> ids[p] < |sh.place| && sh.place[ids[p]] == InSlot(s, p)
  }

  ghost predicate Placed(sh: Shape, n: nat, size: nat) {
    && |sh.place| == n && |sh.slots| == size && PoolPlaced(sh)
    && (forall s :: 0 <= s < size ==> SlotPlaced(sh, s, sh.slots[s]))
  }

  /** Every bucket ever allocated is exactly once in the pool or in a chain. */
  ghost predicate Linked(b: seq<Bucket>, t: seq<int>, pool: int, sh: Shape) {
    && Placed(sh, |b|, |t|) && pool == At(sh.pool, 0)
    && (forall s :: 0 <= s < |t| ==> t[s] == At(sh.slots[s], 0))
    && (forall i :: 0 <= i < |b| ==> LinkOk(b[i], i, sh, sh.place[i]))
  }

  ghost predicate KeyOk(x: Bucket, i: nat, s: nat, size: nat, home: map<nat, nat>, m: map<nat, nat>, hash: nat -> nat) {
    && size > 0 && hash(x.key) % size == s
    && x.key in m && m[x.key] == x.val && x.key in home && home[x.key] == i
  }

  ghost predicate HomeOk(b: seq<Bucket>, place: seq<Place>, home: map<nat, nat>, k: nat) {
    && k in home && home[k] < |b| && home[k] < |place| && place[home[k]].InSlot? && b[home[k]].key == k
  }

  /** The chains hold exactly the map m, every key in the chain that its hash selects. */
  ghost predicate Keyed(b: seq<Bucket>, size: nat, place: seq<Place>, home: map<nat, nat>, m: map<nat, nat>,
                        hash: nat -> nat)
  {
    && |place| == |b|
    && (forall i :: 0 <= i < |b| && place[i].InSlot? ==> KeyOk(b[i], i, place[i].i, size, home, m, hash))
    && (forall k :: k in m ==> HomeOk(b, place, home, k)) && home.Keys == m.Keys
  }

  // ------------------------------------------------------------ a key that is there

  lemma WithoutOne(m: map<nat, nat>, comp: (nat, nat) -> int, key: nat, k: nat, v: nat)
    requires Equivalence(comp) && KeysApart(m, comp) && k in m && comp(key, k) == 0
    ensures Without(m, comp, key) == m - {k}
    ensures key in m ==> key == k
    ensures KeysApart((m - {k})[key := v], comp) && KeysApart(m - {k}, comp)
  {
    forall a | a in m && comp(key, a) == 0 ensures a == k {
      assert comp(a, key) == 0;
      assert comp(a, k) == 0;
    }
    assert key in m ==> comp(key, key) == 0;
  }

  lemma WithoutNone(m: map<nat, nat>, comp: (nat, nat) -> int, key: nat, v: nat)
    requires Equivalence(comp) && KeysApart(m, comp) && !Has(m, comp, key)
    ensures Without(m, comp, key) == m && key !in m
    ensures KeysApart(m[key := v], comp)
  {
    assert comp(key, key) == 0;
    forall a, b | a in m[key := v] && b in m[key := v] && comp(a, b) == 0 ensures a == b {
      assert comp(b, a) == 0;
    }
  }

  lemma UpdateKeepsLinks(b: seq<Bucket>, t: seq<int>, pool: int, sh: Shape, i: nat, key: nat, val: nat)
    requires Linked(b, t, pool, sh) && i < |b|
    ensures Linked(b[i := b[i].(key := key, val := val)], t, pool, sh)
  {
    hide Placed;
  }

  lemma UpdateKeepsKeys(b: seq<Bucket>, size: nat, place: seq<Place>, home: map<nat, nat>, m: map<nat, nat>,
                        hash: nat -> nat, i: nat, key: nat, val: nat, b': seq<Bucket>, home': map<nat, nat>,
                        m': map<nat, nat>)
    requires Keyed(b, size, place, home, m, hash) && i < |b| && place[i].InSlot? && hash(key) == hash(b[i].key)
    requires key in m ==> key == b[i].key
    requires b' == b[i := b[i].(key := key, val := val)]
    requires home' == (home - {b[i].key})[key := i] && m' == (m - {b[i].key})[key := val]
    ensures b[i].key in m && Keyed(b', size, place, home', m', hash)
  {
    var k0 := b[i].key;
    assert KeyOk(b[i], i, place[i].i, size, home, m, hash);
    forall j | 0 <= j < |b| && place[j].InSlot? ensures KeyOk(b'[j], j, place[j].i, size, home', m', hash) {
      assert KeyOk(b[j], j, place[j].i, size, home, m, hash);
    }
    forall k | k in m' ensures HomeOk(b', place, home', k) {
      if k != key { assert HomeOk(b, place, home, k) && k != k0; }
    }
    assert home'.Keys == (home.Keys - {k0}) + {key} && m'.Keys == (m.Keys - {k0}) + {key};
  }

  // ------------------------------------------------------------ a new block of buckets

  /** The pool after n-th and following buckets were put into the empty pool. */
  ghost function Grown(sh: Shape, n: nat): Shape {
    Shape(seq(BLOCK_SIZE, p requires 0 <= p < BLOCK_SIZE => n + BLOCK_SIZE - 1 - p), sh.slots,
          sh.place + seq(BLOCK_SIZE, j requires 0 <= j < BLOCK_SIZE => InPool(BLOCK_SIZE - 1 - j)))
  }

  /** Bucket i of a block that starts with bucket n. */
  function Pooled(i: nat, n: nat): Bucket {
    Bucket(0, if i == n then NULL else i - 1, 0, 0)
  }

  ghost predicate NewBlock(b: seq<Bucket>, b': seq<Bucket>, done: nat) {
    && |b'| == |b| + BLOCK_SIZE && done <= BLOCK_SIZE && b'[..|b|] == b
    && (forall i :: |b| <= i < |b| + done ==> b'[i] == Pooled(i, |b|))
  }

  lemma GrowPlaced(n: nat, size: nat, sh: Shape, sh': Shape)
    requires Placed(sh, n, size) && sh.pool == [] && sh' == Grown(sh, n)
    ensures Placed(sh', n + BLOCK_SIZE, size)
  {
    forall p | 0 <= p < |sh'.pool| ensures sh'.pool[p] < |sh'.place| && sh'.place[sh'.pool[p]] == InPool(p) {
      assert sh'.pool[p] == n + BLOCK_SIZE - 1 - p;
    }
    forall s | 0 <= s < size ensures SlotPlaced(sh', s, sh'.slots[s]) {
      assert SlotPlaced(sh, s, sh.slots[s]);
    }
  }

  lemma GrowKeepsLinks(b: seq<Bucket>, t: seq<int>, pool: int, sh: Shape, b': seq<Bucket>, sh': Shape)
    requires Linked(b, t, pool, sh) && pool == NULL && NewBlock(b, b', BLOCK_SIZE) && sh' == Grown(sh, |b|)
    ensures sh.pool == [] && Linked(b', t, |b| + BLOCK_SIZE - 1, sh')
  {
    assert sh.pool == [];
    GrowPlaced(|b|, |t|, sh, sh');
    assert |sh.place| == |b|;
    hide Placed;
    forall i | 0 <= i < |b'| ensures LinkOk(b'[i], i, sh', sh'.place[i]) {
      if i < |b| {
        assert b'[..|b|][i] == b[i] && LinkOk(b[i], i, sh, sh.place[i]);
      } else {
        var j := i - |b|;
        assert b'[i] == Pooled(i, |b|);
        assert sh'.pool[BLOCK_SIZE - 1 - j] == i;
      }
    }
  }

  lemma GrowKeepsKeys(b: seq<Bucket>, size: nat, sh: Shape, home: map<nat, nat>, m: map<nat, nat>, hash: nat -> nat,
                      b': seq<Bucket>, sh': Shape)
    requires Keyed(b, size, sh.place, home, m, hash) && NewBlock(b, b', BLOCK_SIZE) && sh' == Grown(sh, |b|)
    ensures Keyed(b', size, sh'.place, home, m, hash)
  {
    forall i | 0 <= i < |b'| && sh'.place[i].InSlot? ensures KeyOk(b'[i], i, sh'.place[i].i, size, home, m, hash) {
      assert b'[..|b|][i] == b[i];
      assert KeyOk(b[i], i, sh.place[i].i, size, home, m, hash);
    }
    forall k | k in m ensures HomeOk(b', sh'.place, home, k) {
      assert HomeOk(b, sh.place, home, k);
      assert b'[..|b|][home[k]] == b[home[k]];
    }
  }

  // ------------------------------------------------------------ a bucket from the pool into a chain

  ghost function Taken(sh: Shape, s: nat): Shape
    requires |sh.pool| > 0 && s < |sh.slots|
  {
    Shape(sh.pool[1..], sh.slots[s := [sh.pool[0]] + sh.slots[s]],
          seq(|sh.place|, i requires 0 <= i < |sh.place| =>
            match sh.place[i]
            case InPool(p) => if p == 0 then InSlot(s, 0) else InPool(p - 1)
            case InSlot(r, p) => if r == s then InSlot(s, p + 1) else sh.place[i]))
  }

  lemma TakePlaced(n: nat, size: nat, sh: Shape, s: nat, sh': Shape)
    requires Placed(sh, n, size) && |sh.pool| > 0 && s < size && sh' == Taken(sh, s)
    ensures Placed(sh', n, size)
  {
    forall p | 0 <= p < |sh'.pool| ensures sh'.pool[p] < n && sh'.place[sh'.pool[p]] == InPool(p) {
      assert sh'.pool[p] == sh.pool[p + 1];
    }
    forall r | 0 <= r < size ensures SlotPlaced(sh', r, sh'.slots[r]) {
      assert SlotPlaced(sh, r, sh.slots[r]);
    }
  }

  lemma TakeLink(x: Bucket, y: Bucket, i: nat, sh: Shape, s: nat, h: nat, sh': Shape)
    requires |sh.pool| > 0 && s < |sh.slots| && sh' == Taken(sh, s) && i < |sh.place|
    requires LinkOk(x, i, sh, sh.place[i])
    requires sh.place[i] == InPool(0) ==> i == h && y.tag == HASHBUCKET_TAG && y.link == At(sh.slots[s], 0)
    requires sh.place[i] != InPool(0) ==> y == x
    ensures LinkOk(y, i, sh', sh'.place[i])
  {
    if sh.place[i].InSlot? && sh.place[i].i == s {
      assert sh'.slots[s] == [sh.pool[0]] + sh.slots[s];
    }
  }

  lemma TakeHeads(t: seq<int>, sh: Shape, s: nat, h: nat, sh': Shape)
    requires |sh.pool| > 0 && s < |sh.slots| == |t| && sh' == Taken(sh, s) && h == sh.pool[0]
    requires forall r :: 0 <= r < |t| ==> t[r] == At(sh.slots[r], 0)
    ensures At(sh'.pool, 0) == At(sh.pool, 1)
    ensures forall r :: 0 <= r < |t| ==> t[s := h][r] == At(sh'.slots[r], 0)
  {
  }

  lemma TakeKeepsLinks(b: seq<Bucket>, t: seq<int>, pool: int, sh: Shape, s: nat, h: nat, x: Bucket, sh': Shape)
    requires Linked(b, t, pool, sh) && s < |t| && pool == h < |b| && |sh.slots| == |t|
    requires x.tag == HASHBUCKET_TAG && x.link == t[s]
    requires |sh.pool| > 0 && sh' == Taken(sh, s)
    ensures Linked(b[h := x], t[s := h], b[h].link, sh')
  {
    TakePlaced(|b|, |t|, sh, s, sh');
    PoolFacts(b, t, pool, sh);
    TakeHeads(t, sh, s, h, sh');
    assert LinkOk(b[h], h, sh, sh.place[h]);
    assert forall i :: 0 <= i < |b| ==> LinkOk(b[i], i, sh, sh.place[i]);
    hide Placed, PoolPlaced, Taken, LinkOk;
    assert b[h].link == At(sh.pool, 1) by { PoolLink(b[h], h, sh); }
    forall i | 0 <= i < |b| ensures LinkOk(b[h := x][i], i, sh', sh'.place[i]) {
      TakeLink(b[i], b[h := x][i], i, sh, s, h, sh');
    }
  }

  lemma PoolLink(x: Bucket, h: nat, sh: Shape)
    requires LinkOk(x, h, sh, InPool(0))
    ensures x.link == At(sh.pool, 1)
  {
  }

  lemma TakeKeepsKeys(b: seq<Bucket>, sh: Shape, home: map<nat, nat>, m: map<nat, nat>, hash: nat -> nat,
                      s: nat, h: nat, x: Bucket, sh': Shape)
    requires Keyed(b, |sh.slots|, sh.place, home, m, hash) && s < |sh.slots| && h < |b| && sh.place[h] == InPool(0)
    requires PoolPlaced(sh) && forall i :: 0 <= i < |b| && sh.place[i] == InPool(0) ==> i == h
    requires |sh.pool| > 0 && sh' == Taken(sh, s) && hash(x.key) % |sh.slots| == s && x.key !in m
    ensures Keyed(b[h := x], |sh.slots|, sh'.place, home[x.key := h], m[x.key := x.val], hash)
  {
    var size, b', home', m' := |sh.slots|, b[h := x], home[x.key := h], m[x.key := x.val];
    forall i | 0 <= i < |b| && sh'.place[i].InSlot? ensures KeyOk(b'[i], i, sh'.place[i].i, size, home', m', hash) {
      if i != h { assert KeyOk(b[i], i, sh.place[i].i, size, home, m, hash); }
    }
    forall k | k in m' ensures HomeOk(b', sh'.place, home', k) {
      if k != x.key { assert HomeOk(b, sh.place, home, k); }
    }
  }

  // ------------------------------------------------------------ a bucket from a chain into the pool

  ghost function Dropped(sh: Shape, s: nat, q: nat): Shape
    requires s < |sh.slots| && q < |sh.slots[s]|
  {
    Shape([sh.slots[s][q]] + sh.pool, sh.slots[s := sh.slots[s][..q] + sh.slots[s][q + 1..]],
          seq(|sh.place|, i requires 0 <= i < |sh.place| =>
            match sh.place[i]
            case InPool(p) => InPool(p + 1)
            case InSlot(r, p) =>
              if r != s || p < q then sh.place[i] else if p == q then InPool(0) else InSlot(s, p - 1)))
  }

  lemma DropPlaced(n: nat, size: nat, sh: Shape, s: nat, q: nat, sh': Shape)
    requires Placed(sh, n, size) && s < size && q < |sh.slots[s]| && sh' == Dropped(sh, s, q)
    ensures Placed(sh', n, size)
  {
    assert SlotPlaced(sh, s, sh.slots[s]);
    forall p | 0 <= p < |sh'.pool| ensures sh'.pool[p] < n && sh'.place[sh'.pool[p]] == InPool(p) {
      if p > 0 { assert sh'.pool[p] == sh.pool[p - 1]; }
    }
    forall r | 0 <= r < size ensures SlotPlaced(sh', r, sh'.slots[r]) {
      assert SlotPlaced(sh, r, sh.slots[r]);
    }
  }

  /** The buckets after bucket h was unhooked from its chain, where it is the q-th. */
  ghost predicate Unhooked(b: seq<Bucket>, b': seq<Bucket>, t: seq<int>, t': seq<int>, pool: int, sh: Shape,
                           s: nat, q: nat, h: nat)
    requires s < |sh.slots| == |t| && q < |sh.slots[s]|
  {
    && |b'| == |b| && h == sh.slots[s][q] && h < |b| && b'[h] == Bucket(0, pool, 0, 0)
    && (q > 0 ==> sh.slots[s][q - 1] < |b| && b'[sh.slots[s][q - 1]] == b[sh.slots[s][q - 1]].(link := b[h].link))
    && (forall i :: 0 <= i < |b| && i != h && (q > 0 ==> i != sh.slots[s][q - 1]) ==> b'[i] == b[i])
    && t' == if q == 0 then t[s := b[h].link] else t
  }

  lemma DropLink(b: seq<Bucket>, t: seq<int>, pool: int, sh: Shape, s: nat, q: nat, h: nat, b': seq<Bucket>,
                 t': seq<int>, sh': Shape, i: nat)
    requires s < |sh.slots| == |t| && q < |sh.slots[s]| && Unhooked(b, b', t, t', pool, sh, s, q, h)
    requires sh' == Dropped(sh, s, q) && pool == At(sh.pool, 0) && |sh.place| == |b| && i < |b|
    requires LinkOk(b[i], i, sh, sh.place[i]) && LinkOk(b[h], h, sh, InSlot(s, q))
    requires sh.place[i] == InSlot(s, q) <==> i == h
    requires q > 0 ==> (sh.place[i] == InSlot(s, q - 1) <==> i == sh.slots[s][q - 1])
    ensures LinkOk(b'[i], i, sh', sh'.place[i])
  {
  }

  lemma DropKeepsLinks(b: seq<Bucket>, t: seq<int>, pool: int, sh: Shape, s: nat, q: nat, h: nat, b': seq<Bucket>,
                       t': seq<int>, sh': Shape)
    requires Linked(b, t, pool, sh) && s < |sh.slots| == |t| && q < |sh.slots[s]|
    requires Unhooked(b, b', t, t', pool, sh, s, q, h) && sh' == Dropped(sh, s, q)
    ensures Linked(b', t', h, sh') && |b'| == |b| && |t'| == |t|
  {
    DropPlaced(|b|, |t|, sh, s, q, sh');
    assert SlotPlaced(sh, s, sh.slots[s]) && |sh.place| == |b|;
    hide Placed;
    forall i | 0 <= i < |b| ensures LinkOk(b'[i], i, sh', sh'.place[i]) {
      DropLink(b, t, pool, sh, s, q, h, b', t', sh', i);
    }
    assert b[h].link == At(sh.slots[s], q + 1);
    hide LinkOk;
    DropHeads(b, b', t, t', pool, sh, s, q, h, sh');
    hide Unhooked;
  }

  lemma DropHeads(b: seq<Bucket>, b': seq<Bucket>, t: seq<int>, t': seq<int>, pool: int, sh: Shape, s: nat, q: nat,
                  h: nat, sh': Shape)
    requires s < |sh.slots| == |t| && q < |sh.slots[s]| && Unhooked(b, b', t, t', pool, sh, s, q, h)
    requires forall r :: 0 <= r < |t| ==> t[r] == At(sh.slots[r], 0)
    requires h < |b| && b[h].link == At(sh.slots[s], q + 1) && sh' == Dropped(sh, s, q)
    ensures |t'| == |t| && |b'| == |b| && h == At(sh'.pool, 0)
    ensures forall r :: 0 <= r < |t| ==> t'[r] == At(sh'.slots[r], 0)
  {
  }

  lemma DropKeepsKeys(b: seq<Bucket>, t: seq<int>, pool: int, sh: Shape, home: map<nat, nat>, m: map<nat, nat>,
                      hash: nat -> nat, s: nat, q: nat, h: nat, b': seq<Bucket>, t': seq<int>, sh': Shape)
    requires Keyed(b, |t|, sh.place, home, m, hash) && s < |sh.slots| == |t| && q < |sh.slots[s]| && h < |b|
    requires Unhooked(b, b', t, t', pool, sh, s, q, h) && sh' == Dropped(sh, s, q)
    requires forall i :: 0 <= i < |b| ==> (sh.place[i] == InSlot(s, q) <==> i == h)
    ensures b[h].key in m && |b'| == |b| && Keyed(b', |t|, sh'.place, home - {b[h].key}, m - {b[h].key}, hash)
  {
    var k0 := b[h].key;
    var home', m' := home - {k0}, m - {k0};
    assert KeyOk(b[h], h, sh.place[h].i, |t|, home, m, hash);
    forall i | 0 <= i < |b| && sh'.place[i].InSlot? ensures KeyOk(b'[i], i, sh'.place[i].i, |t|, home', m', hash) {
      assert KeyOk(b[i], i, sh.place[i].i, |t|, home, m, hash) && i != h;
      assert b'[i].key == b[i].key && b'[i].val == b[i].val;
    }
    forall k | k in m' ensures HomeOk(b', sh'.place, home', k) {
      assert HomeOk(b, sh.place, home, k);
    }
    assert home'.Keys == home.Keys - {k0} && m'.Keys == m.Keys - {k0};
  }

  // ------------------------------------------------------------ visiting the entries

  datatype Visit = Visit(slot: nat, key: nat, val: nat)

  /** The first n entries of the chain `ids` of slot s. */
  ghost function ChainVisits(b: seq<Bucket>, s: nat, ids: seq<nat>, n: nat): seq<Visit>
    requires n <= |ids| && forall p :: 0 <= p < n ==> ids[p] < |b|
  {
    seq(n, p requires 0 <= p < n => Visit(s, b[ids[p]].key, b[ids[p]].val))
  }

  /** The entries of the first n slots, in chain order. */
  ghost function SlotVisits(b: seq<Bucket>, sh: Shape, n: nat): seq<Visit>
    requires n <= |sh.slots| && forall s :: 0 <= s < n ==> SlotPlaced(sh, s, sh.slots[s])
    requires |sh.place| == |b|
  {
    if n == 0 then []
    else
      assert SlotPlaced(sh, n - 1, sh.slots[n - 1]);
      SlotVisits(b, sh, n - 1) + ChainVisits(b, n - 1, sh.slots[n - 1], |sh.slots[n - 1]|)
  }

  ghost function AllVisits(b: seq<Bucket>, t: seq<int>, pool: int, sh: Shape): seq<Visit>
    requires Linked(b, t, pool, sh)
  {
    SlotVisits(b, sh, |t|)
  }

  /** A visit reports an entry of the map, in the slot that its hash selects. */
  lemma {:induction false} VisitIsEntry(b: seq<Bucket>, sh: Shape, home: map<nat, nat>, m: map<nat, nat>,
                                        hash: nat -> nat, n: nat, j: nat)
    requires Keyed(b, |sh.slots|, sh.place, home, m, hash) && n <= |sh.slots|
    requires forall s :: 0 <= s < n ==> SlotPlaced(sh, s, sh.slots[s])
    requires j < |SlotVisits(b, sh, n)|
    ensures var v := SlotVisits(b, sh, n)[j];
            && v.slot < n && v.key in m && m[v.key] == v.val && hash(v.key) % |sh.slots| == v.slot
  {
    var before := SlotVisits(b, sh, n - 1);
    if j < |before| {
      VisitIsEntry(b, sh, home, m, hash, n - 1, j);
    } else {
      var i := sh.slots[n - 1][j - |before|];
      assert SlotPlaced(sh, n - 1, sh.slots[n - 1]);
      assert KeyOk(b[i], i, sh.place[i].i, |sh.slots|, home, m, hash);
    }
  }

  lemma {:induction false} VisitedOnce(b: seq<Bucket>, sh: Shape, home: map<nat, nat>, m: map<nat, nat>,
                                       hash: nat -> nat, n: nat, i: nat, j: nat)
    requires Keyed(b, |sh.slots|, sh.place, home, m, hash) && n <= |sh.slots|
    requires forall s :: 0 <= s < n ==> SlotPlaced(sh, s, sh.slots[s])
    requires i < j < |SlotVisits(b, sh, n)|
    ensures SlotVisits(b, sh, n)[i].key != SlotVisits(b, sh, n)[j].key
  {
    var before := SlotVisits(b, sh, n - 1);
    if j < |before| {
      VisitedOnce(b, sh, home, m, hash, n - 1, i, j);
    } else {
      assert SlotPlaced(sh, n - 1, sh.slots[n - 1]);
      VisitIsEntry(b, sh, home, m, hash, n, j);
      if i < |before| {
        VisitIsEntry(b, sh, home, m, hash, n - 1, i);
        assert SlotVisits(b, sh, n)[i] == before[i];
        assert SlotVisits(b, sh, n)[j].slot == n - 1;
      } else {
        var x, y := sh.slots[n - 1][i - |before|], sh.slots[n - 1][j - |before|];
        assert KeyOk(b[x], x, sh.place[x].i, |sh.slots|, home, m, hash);
        assert KeyOk(b[y], y, sh.place[y].i, |sh.slots|, home, m, hash);
      }
    }
  }

  lemma {:induction false} SlotVisited(b: seq<Bucket>, sh: Shape, n: nat, s: nat, p: nat) returns (j: nat)
    requires n <= |sh.slots| && |sh.place| == |b| && s < n && p < |sh.slots[s]|
    requires forall s :: 0 <= s < n ==> SlotPlaced(sh, s, sh.slots[s])
    ensures sh.slots[s][p] < |b| && j < |SlotVisits(b, sh, n)|
    ensures SlotVisits(b, sh, n)[j] == Visit(s, b[sh.slots[s][p]].key, b[sh.slots[s][p]].val)
  {
    assert SlotPlaced(sh, s, sh.slots[s]);
    if s == n - 1 {
      j := |SlotVisits(b, sh, n - 1)| + p;
    } else {
      j := SlotVisited(b, sh, n - 1, s, p);
    }
  }

  lemma AllPlaced(b: seq<Bucket>, t: seq<int>, pool: int, sh: Shape)
    requires Linked(b, t, pool, sh)
    ensures |sh.slots| == |t| && |sh.place| == |b| && forall s :: 0 <= s < |t| ==> SlotPlaced(sh, s, sh.slots[s])
  {
    hide SlotPlaced, LinkOk, PoolPlaced;
  }

  lemma {:induction false} VisitsAreEntries(b: seq<Bucket>, t: seq<int>, pool: int, sh: Shape, home: map<nat, nat>,
                                            m: map<nat, nat>, hash: nat -> nat)
    requires Linked(b, t, pool, sh) && Keyed(b, |t|, sh.place, home, m, hash)
    ensures var all := AllVisits(b, t, pool, sh);
            forall j :: 0 <= j < |all| ==> all[j].key in m && m[all[j].key] == all[j].val
  {
    hide Linked, Keyed, SlotVisits;
    AllPlaced(b, t, pool, sh);
    var all := AllVisits(b, t, pool, sh);
    forall j | 0 <= j < |all| ensures all[j].key in m && m[all[j].key] == all[j].val {
      VisitIsEntry(b, sh, home, m, hash, |t|, j);
    }
  }

  lemma {:induction false} VisitsApart(b: seq<Bucket>, t: seq<int>, pool: int, sh: Shape, home: map<nat, nat>,
                                       m: map<nat, nat>, hash: nat -> nat)
    requires Linked(b, t, pool, sh) && Keyed(b, |t|, sh.place, home, m, hash)
    ensures var all := AllVisits(b, t, pool, sh); forall i, j :: 0 <= i < j < |all| ==> all[i].key != all[j].key
  {
    hide Linked, Keyed, SlotVisits;
    AllPlaced(b, t, pool, sh);
    var all := AllVisits(b, t, pool, sh);
    forall i, j | 0 <= i < j < |all| ensures all[i].key != all[j].key {
      VisitedOnce(b, sh, home, m, hash, |t|, i, j);
    }
  }

  /** Where the bucket of a key is. */
  lemma {:induction false} HomeIsInSlot(b: seq<Bucket>, t: seq<int>, pool: int, sh: Shape, home: map<nat, nat>,
                                        m: map<nat, nat>, hash: nat -> nat, k: nat)
    requires Linked(b, t, pool, sh) && Keyed(b, |t|, sh.place, home, m, hash) && k in m
    ensures k in home && home[k] < |b| == |sh.place| && b[home[k]].key == k
    ensures var x := sh.place[home[k]];
            x.InSlot? && x.i < |sh.slots| && x.p < |sh.slots[x.i]| && sh.slots[x.i][x.p] == home[k]
  {
    assert HomeOk(b, sh.place, home, k);
    hide Keyed;
    assert LinkOk(b[home[k]], home[k], sh, sh.place[home[k]]);
  }

  lemma {:induction false} EntryIsVisited(b: seq<Bucket>, t: seq<int>, pool: int, sh: Shape, home: map<nat, nat>,
                                          m: map<nat, nat>, hash: nat -> nat, k: nat) returns (j: nat)
    requires Linked(b, t, pool, sh) && Keyed(b, |t|, sh.place, home, m, hash) && k in m
    ensures j < |AllVisits(b, t, pool, sh)| && AllVisits(b, t, pool, sh)[j].key == k
  {
    HomeIsInSlot(b, t, pool, sh, home, m, hash, k);
    AllPlaced(b, t, pool, sh);
    hide Linked, Keyed, SlotVisits;
    j := SlotVisited(b, sh, |t|, sh.place[home[k]].i, sh.place[home[k]].p);
  }

  /** Going through all slots visits every entry of the map exactly once, and nothing else. */
  lemma {:induction false} VisitsAreTheMap(b: seq<Bucket>, t: seq<int>, pool: int, sh: Shape, home: map<nat, nat>,
                                           m: map<nat, nat>, hash: nat -> nat, k: nat)
    requires Linked(b, t, pool, sh) && Keyed(b, |t|, sh.place, home, m, hash)
    ensures var all := AllVisits(b, t, pool, sh);
            && (k in m <==> exists j :: 0 <= j < |all| && all[j].key == k)
            && (forall j :: 0 <= j < |all| && all[j].key == k ==> k in m && all[j].val == m[k])
            && (forall i, j :: 0 <= i < j < |all| ==> all[i].key != all[j].key)
  {
    hide Linked, Keyed, AllVisits;
    VisitsAreEntries(b, t, pool, sh, home, m, hash);
    VisitsApart(b, t, pool, sh, home, m, hash);
    if k in m {
      var j := EntryIsVisited(b, t, pool, sh, home, m, hash, k);
    }
  }

  /** The user's function wants to go on after each of these visits. */
  ghost predicate GoesOn(f: (nat, nat, nat) -> int, visits: seq<Visit>) {
    forall j :: 0 <= j < |visits| ==> f(visits[j].slot, visits[j].key, visits[j].val) == 0
  }

  // ------------------------------------------------------------ the table

  class Table {
    const hash: nat -> nat
    const comp: (nat, nat) -> int
    const kdel: bool                 // whether the key destructor is there
    const vdel: bool                 // whether the value destructor is there
    const table: array<int>
    var buckets: seq<Bucket>
    var pool: int
    var itemCount: nat
    var keysDeleted: seq<nat>        // calls of kdel
    var valsDeleted: seq<nat>        // calls of vdel
    ghost var sh: Shape
    ghost var home: map<nat, nat>
    ghost var m: map<nat, nat>

    ghost predicate Valid()
      reads this, table
    {
      && Equivalence(comp) && Agree(hash, comp) && table.Length > 0
      && Linked(buckets, table[..], pool, sh) && Keyed(buckets, table.Length, sh.place, home, m, hash)
      && KeysApart(m, comp) && itemCount == |m|
    }

    /** Puts a fresh block of buckets into the empty pool. */
    method AddBlock()
      requires pool == NULL
      modifies this`buckets, this`pool
      ensures NewBlock(old(buckets), buckets, BLOCK_SIZE) && pool == |old(buckets)| + BLOCK_SIZE - 1
    {
      var n := |buckets|;
      buckets := buckets + seq(BLOCK_SIZE, _ => Bucket(0, NULL, 0, 0));
      var i := 0;
      while i < BLOCK_SIZE
        invariant 0 <= i <= BLOCK_SIZE && pool == (if i == 0 then NULL else n + i - 1)
        invariant NewBlock(old(buckets), buckets, i)
      {
        buckets := buckets[n + i := Bucket(0, pool, 0, 0)];
        pool := n + i;
        i := i + 1;
      }
    }

    /** ht_create, given that memory is available. */
    constructor (size: nat, hash: nat -> nat, comp: (nat, nat) -> int, kdel: bool, vdel: bool)
      requires size > 0 && Equivalence(comp) && Agree(hash, comp)
      ensures Valid() && fresh(table) && m == map[] && itemCount == 0 && table.Length == size
      ensures this.hash == hash && this.comp == comp && this.kdel == kdel && this.vdel == vdel
      ensures keysDeleted == [] && valsDeleted == [] && |buckets| == BLOCK_SIZE
    {
      this.hash, this.comp, this.kdel, this.vdel := hash, comp, kdel, vdel;
      table := new int[size](_ => NULL);
      buckets, pool, itemCount := [], NULL, 0;
      keysDeleted, valsDeleted := [], [];
      home, m := map[], map[];
      new;
      hide Linked, Keyed, Equivalence, Agree, KeysApart, NewBlock, Grown;
      ghost var none := Shape([], seq(size, _ => []), []);
      NothingYet(table[..], size, none, hash, comp);
      sh := none;
      var _ := Reserve(true);
    }

    /** lookup: the slot of a key, and its bucket with the one before it if there is one. */
    method Lookup(key: nat) returns (code: int, slot: nat, bucket: int, prev: int, val: nat)
      requires Valid()
      ensures slot == hash(key) % table.Length
      ensures code == if Has(m, comp, key) then 0 else -1
      ensures code == 0 ==>
                && 0 <= bucket < |buckets| && slot < |sh.slots| == table.Length
                && comp(key, buckets[bucket].key) == 0 && buckets[bucket].key in m
                && val == buckets[bucket].val == m[buckets[bucket].key]
                && InChain(sh, slot, bucket, prev) && bucket < |sh.place| && sh.place[bucket].InSlot?
      ensures code != 0 ==> bucket == NULL && prev == NULL && val == 0
    {
      hide Linked, Keyed, Equivalence, Agree, KeysApart, InChain, NoneBefore, Has;
      slot := hash(key) % table.Length;
      InSlotFacts(buckets, table[..], pool, sh, home, m, hash, slot, 0);
      bucket, prev := table[slot], NULL;
      ghost var ids, p := sh.slots[slot], 0;
      StartOfSlot(buckets, table[..], pool, sh, slot, key, comp);
      while bucket != NULL
        invariant 0 <= p <= |ids| && bucket == At(ids, p) && prev == At(ids, p - 1)
        invariant NoneBefore(buckets, ids, p, key, comp)
        decreases |ids| - p
      {
        InSlotFacts(buckets, table[..], pool, sh, home, m, hash, slot, p);
        if buckets[bucket].tag != HASHBUCKET_TAG {
          assert false;
          code := 4;
          return;
        }
        if comp(key, buckets[bucket].key) == 0 {
          FoundHere(sh, slot, p, m, comp, key, buckets[bucket].key);
          return 0, slot, bucket, prev, buckets[bucket].val;
        }
        GrowNone(buckets, ids, p, key, comp);
        prev := bucket;
        bucket := buckets[bucket].link;
        p := p + 1;
      }
      NotThere(buckets, table[..], pool, sh, home, m, hash, comp, key);
      return -1, slot, NULL, NULL, 0;
    }

    /** ht_lookup */
    method Find(key: nat) returns (code: int, val: nat)
      requires Valid()
      ensures code == if Has(m, comp, key) then 0 else 2
      ensures code == 0 ==> exists k :: k in m && comp(key, k) == 0 && m[k] == val
    {
      hide Linked, Keyed, Equivalence, Agree, KeysApart, InChain, Has;
      var slot, bucket, prev;
      code, slot, bucket, prev, val := Lookup(key);
      if code != 0 {
        code := 2;
      }
    }

    /** The first half of ht_insert on a key that is there: its bucket gets the new key and value. */
    method Update(bucket: nat, key: nat, val: nat)
      requires Valid() && bucket < |buckets| && bucket < |sh.place| && sh.place[bucket].InSlot?
      requires buckets[bucket].key in m && comp(key, buckets[bucket].key) == 0
      modifies this
      ensures Valid() && m == Without(old(m), comp, key)[key := val] && itemCount == old(itemCount)
      ensures keysDeleted == old(keysDeleted) + if kdel then [old(buckets[bucket].key)] else []
      ensures valsDeleted == old(valsDeleted) + if vdel then [old(buckets[bucket].val)] else []
      ensures |buckets| == old(|buckets|)
    {
      hide Linked, Keyed, Equivalence, KeysApart, Without;
      ghost var b', t0 := buckets[bucket := buckets[bucket].(key := key, val := val)], table[..];
      ghost var home', m' := CommitUpdate(buckets, t0, pool, sh, home, m, hash, comp, bucket, key, val, b');
      if kdel { keysDeleted := keysDeleted + [buckets[bucket].key]; }
      if vdel { valsDeleted := valsDeleted + [buckets[bucket].val]; }
      buckets := buckets[bucket := buckets[bucket].(key := key, val := val)];
      home, m := home', m';
      assert table[..] == t0;
    }

    /** Makes sure that the pool is not empty. */
    method Reserve(available: bool) returns (code: int)
      requires Valid()
      modifies this`buckets, this`pool, this`sh
      ensures Valid() && code == (if old(pool) == NULL && !available then 4 else 0) && (code == 0 ==> pool != NULL)
      ensures |buckets| == old(|buckets|) + if code == 0 && old(pool) == NULL then BLOCK_SIZE else 0
      ensures code == 4 ==> buckets == old(buckets)
    {
      hide Linked, Keyed, Equivalence, Agree, KeysApart, NewBlock, Grown;
      if pool == NULL {
        if !available {
          return 4;
        }
        ghost var b0, sh0 := buckets, sh;
        AddBlock();
        sh := Grown(sh0, |b0|);
        GrowKeepsLinks(b0, table[..], NULL, sh0, buckets, sh);
        GrowKeepsKeys(b0, table.Length, sh0, home, m, hash, buckets, sh);
      }
      code := 0;
    }

    /** The second half of ht_insert on a key that is not there. */
    method Add(slot: nat, key: nat, val: nat, available: bool) returns (code: int)
      requires Valid() && !Has(m, comp, key) && slot == hash(key) % table.Length
      modifies this, table
      ensures Valid() && keysDeleted == old(keysDeleted) && valsDeleted == old(valsDeleted)
      ensures code == if old(pool) == NULL && !available then 4 else 0
      ensures code == 0 ==> m == Without(old(m), comp, key)[key := val]
      ensures code == 0 ==> |buckets| == old(|buckets|) + if old(pool) == NULL then BLOCK_SIZE else 0
      ensures code == 4 ==> m == old(m) && buckets == old(buckets) && table[..] == old(table[..])
    {
      hide Linked, Keyed, Equivalence, Agree, KeysApart, Without, Has;
      code := Reserve(available);
      if code != 0 {
        return;
      }
      PoolFacts(buckets, table[..], pool, sh);
      ghost var b1, t1, sh1 := buckets, table[..], sh;
      var hb := pool;
      pool := buckets[hb].link;
      buckets := buckets[hb := buckets[hb].(link := NULL)];
      buckets := buckets[hb := buckets[hb].(val := val, key := key, link := table[slot])];
      table[slot] := hb;
      buckets := buckets[hb := buckets[hb].(tag := HASHBUCKET_TAG)];
      itemCount := itemCount + 1;
      ghost var home', m';
      sh, home', m' := CommitAdd(b1, t1, hb, sh1, home, m, hash, comp, slot, key, val, buckets, table[..], pool);
      home, m := home', m';
    }

    /** ht_insert; `available` says whether kzalloc would deliver another block. */
    method Insert(key: nat, val: nat, available: bool) returns (code: int)
      requires Valid()
      modifies this, table
      ensures Valid()
      ensures code == if !Has(old(m), comp, key) && old(pool) == NULL && !available then 4 else 0
      ensures code == 0 ==> m == Without(old(m), comp, key)[key := val]
      ensures code == 4 ==> m == old(m) && buckets == old(buckets) && table[..] == old(table[..])
      ensures if kdel && Has(old(m), comp, key)
              then exists k :: k in old(m) && comp(key, k) == 0 && keysDeleted == old(keysDeleted) + [k]
              else keysDeleted == old(keysDeleted)
      ensures if vdel && Has(old(m), comp, key)
              then exists k :: k in old(m) && comp(key, k) == 0 && valsDeleted == old(valsDeleted) + [old(m)[k]]
              else valsDeleted == old(valsDeleted)
    {
      hide Linked, Keyed, Equivalence, Agree, KeysApart, Without, Has;
      var found, slot, bucket, _, _ := Lookup(key);
      if found > 0 {
        assert false;
      }
      if bucket != NULL {
        ghost var k := buckets[bucket].key;
        assert comp(key, k) == 0 && k in m && m[k] == buckets[bucket].val;
        Update(bucket, key, val);
        code := 0;
      } else {
        code := Add(slot, key, val, available);
      }
    }

    /** The second half of ht_remove, with the bucket at hand. */
    method Drop(key: nat, slot: nat, bucket: nat, prev: int)
      requires Valid() && slot == hash(key) % table.Length && bucket < |buckets| && InChain(sh, slot, bucket, prev)
      requires buckets[bucket].key in m && comp(key, buckets[bucket].key) == 0
      modifies this, table
      ensures Valid() && m == Without(old(m), comp, key) && |buckets| == old(|buckets|)
      ensures keysDeleted == old(keysDeleted) + if kdel then [old(buckets[bucket].key)] else []
      ensures valsDeleted == old(valsDeleted) + if vdel then [old(buckets[bucket].val)] else []
    {
      hide Linked, Keyed, Equivalence, Agree, KeysApart, Without, Unhooked, InChain;
      ghost var b0, t0, pool0, sh0 := buckets, table[..], pool, sh;
      ghost var q := ChainPosition(b0, t0, pool0, sh0, slot, bucket, prev);
      if kdel { keysDeleted := keysDeleted + [buckets[bucket].key]; }
      if vdel { valsDeleted := valsDeleted + [buckets[bucket].val]; }
      Unhook(slot, bucket, prev, q);
      itemCount := itemCount - 1;
      ghost var home', m';
      sh, home', m' := CommitRemove(b0, t0, pool0, sh0, home, m, hash, comp, slot, q, bucket, key, buckets, table[..]);
      home, m := home', m';
    }

    /** ht_remove. The value is handed out even when the table deletes it. */
    method Remove(key: nat) returns (code: int, val: nat)
      requires Valid()
      modifies this, table
      ensures Valid() && m == Without(old(m), comp, key) && |buckets| == old(|buckets|)
      ensures code == if Has(old(m), comp, key) then 0 else 2
      ensures code == 0 ==> exists k :: k in old(m) && comp(key, k) == 0 && val == old(m)[k]
                                        && keysDeleted == old(keysDeleted) + (if kdel then [k] else [])
                                        && valsDeleted == old(valsDeleted) + (if vdel then [val] else [])
      ensures code == 2 ==> keysDeleted == old(keysDeleted) && valsDeleted == old(valsDeleted)
    {
      hide Linked, Keyed, Equivalence, Agree, KeysApart, Without, Has, InChain;
      var found, slot, bucket, prev;
      found, slot, bucket, prev, val := Lookup(key);
      if found != 0 {
        WithoutNone(m, comp, key, 0);
        return 2, val;
      }
      ghost var k := buckets[bucket].key;
      assert k in m && comp(key, k) == 0 && val == m[k];
      Drop(key, slot, bucket, prev);
      code := 0;
    }

    /** ht_iterate: code 0 after visiting all entries, 5 if the user's function stopped with rv. */
    method Iterate(f: (nat, nat, nat) -> int) returns (code: int, rv: int, ghost visited: seq<Visit>)
      requires Valid()
      ensures code == 0 || code == 5
      ensures code == 0 ==> visited == AllVisits(buckets, table[..], pool, sh) && GoesOn(f, visited) && rv == 0
      ensures code == 5 ==>
                && 0 < |visited| && visited <= AllVisits(buckets, table[..], pool, sh)
                && GoesOn(f, visited[..|visited| - 1])
                && (var v := visited[|visited| - 1]; rv == f(v.slot, v.key, v.val) != 0)
    {
      hide Linked, Keyed, Equivalence, Agree, KeysApart, GoesOn, AllVisits, VisitedSoFar;
      code, rv, visited := 0, 0, [];
      var i := 0;
      NothingVisited(buckets, table[..], pool, sh, f);
      while i < table.Length
        invariant 0 <= i <= table.Length && rv == 0 && GoesOn(f, visited)
        invariant VisitedSoFar(buckets, table[..], pool, sh, i, 0, visited)
      {
        var hb := table[i];
        ghost var p := 0;
        InSlotFacts(buckets, table[..], pool, sh, home, m, hash, i, 0);
        HeadOfSlot(buckets, table[..], pool, sh, i);
        while hb != NULL
          invariant i < table.Length == |sh.slots| && 0 <= p <= |sh.slots[i]| && hb == At(sh.slots[i], p)
          invariant rv == 0 && GoesOn(f, visited) && VisitedSoFar(buckets, table[..], pool, sh, i, p, visited)
          decreases |sh.slots[i]| - p
        {
          InSlotFacts(buckets, table[..], pool, sh, home, m, hash, i, p);
          if buckets[hb].tag != HASHBUCKET_TAG {
            assert false;
            code := 4;
            return;
          }
          rv := f(i, buckets[hb].key, buckets[hb].val);
          OneMoreVisit(buckets, table[..], pool, sh, i, p, visited);
          OneMoreGoes(visited, Visit(i, buckets[hb].key, buckets[hb].val), f);
          visited := visited + [Visit(i, buckets[hb].key, buckets[hb].val)];
          if rv != 0 {
            code := 5;
            return;
          }
          hb := buckets[hb].link;
          p := p + 1;
        }
        SlotDone(buckets, table[..], pool, sh, i, visited);
        i := i + 1;
      }
      AllDone(buckets, table[..], pool, sh, visited);
    }

    /** Takes a bucket out of its chain and puts it into the pool. */
    method Unhook(slot: nat, bucket: nat, prev: int, ghost q: nat)
      requires slot < table.Length == |sh.slots| && q < |sh.slots[slot]| && bucket < |buckets|
      requires bucket == sh.slots[slot][q] && NULL <= prev < |buckets| && prev != bucket && (prev == NULL <==> q == 0)
      requires prev == At(sh.slots[slot], q - 1) && (table[slot] == bucket <==> q == 0)
      modifies this`buckets, this`pool, table
      ensures pool == bucket
      ensures Unhooked(old(buckets), buckets, old(table[..]), table[..], old(pool), sh, slot, q, bucket)
    {
      if prev != NULL {
        buckets := buckets[prev := buckets[prev].(link := buckets[bucket].link)];
      }
      if table[slot] == bucket {
        table[slot] := buckets[bucket].link;
      }
      buckets := buckets[bucket := buckets[bucket].(key := 0, val := 0, link := pool)];
      pool := bucket;
      buckets := buckets[bucket := buckets[bucket].(tag := 0)];
    }
  }

  lemma CommitUpdate(b: seq<Bucket>, t: seq<int>, pool: int, sh: Shape, home: map<nat, nat>, m: map<nat, nat>,
                     hash: nat -> nat, comp: (nat, nat) -> int, i: nat, key: nat, val: nat, b': seq<Bucket>)
    returns (home': map<nat, nat>, m': map<nat, nat>)
    requires Linked(b, t, pool, sh) && Keyed(b, |t|, sh.place, home, m, hash)
    requires KeysApart(m, comp) && Equivalence(comp) && Agree(hash, comp)
    requires i < |b| && i < |sh.place| && sh.place[i].InSlot? && b[i].key in m && comp(key, b[i].key) == 0
    requires b' == b[i := b[i].(key := key, val := val)]
    ensures Linked(b', t, pool, sh) && Keyed(b', |t|, sh.place, home', m', hash) && KeysApart(m', comp)
    ensures m' == Without(m, comp, key)[key := val] && |m'| == |m|
  {
    assert hash(key) == hash(b[i].key);
    hide Linked, Keyed, Equivalence, KeysApart, Without, Agree;
    var k0 := b[i].key;
    home', m' := (home - {k0})[key := i], (m - {k0})[key := val];
    WithoutOne(m, comp, key, k0, val);
    UpdateKeepsLinks(b, t, pool, sh, i, key, val);
    UpdateKeepsKeys(b, |t|, sh.place, home, m, hash, i, key, val, b', home', m');
    SameCount(m, k0, key, val);
  }

  lemma CommitAdd(b: seq<Bucket>, t: seq<int>, h: nat, sh: Shape, home: map<nat, nat>, m: map<nat, nat>,
                  hash: nat -> nat, comp: (nat, nat) -> int, s: nat, key: nat, val: nat,
                  b': seq<Bucket>, t': seq<int>, pool': int)
    returns (sh': Shape, home': map<nat, nat>, m': map<nat, nat>)
    requires Linked(b, t, h, sh) && Keyed(b, |t|, sh.place, home, m, hash) && KeysApart(m, comp) && Equivalence(comp)
    requires !Has(m, comp, key) && |t| > 0 && s == hash(key) % |t| && s < |t| && h < |b|
    requires b' == b[h := Bucket(HASHBUCKET_TAG, t[s], key, val)] && t' == t[s := h] && pool' == b[h].link
    ensures Linked(b', t', pool', sh') && Keyed(b', |t|, sh'.place, home', m', hash) && KeysApart(m', comp)
    ensures m' == Without(m, comp, key)[key := val] && |m'| == |m| + 1
  {
    hide Linked, Keyed, Equivalence, KeysApart, Without, Has;
    WithoutNone(m, comp, key, val);
    PoolFacts(b, t, h, sh);
    sh' := Taken(sh, s);
    var x := Bucket(HASHBUCKET_TAG, t[s], key, val);
    TakeKeepsLinks(b, t, h, sh, s, h, x, sh');
    TakeKeepsKeys(b, sh, home, m, hash, s, h, x, sh');
    home', m' := home[key := h], m[key := val];
    assert m'.Keys == m.Keys + {key};
  }

  lemma CommitRemove(b: seq<Bucket>, t: seq<int>, pool: int, sh: Shape, home: map<nat, nat>, m: map<nat, nat>,
                     hash: nat -> nat, comp: (nat, nat) -> int, s: nat, q: nat, h: nat, key: nat,
                     b': seq<Bucket>, t': seq<int>)
    returns (sh': Shape, home': map<nat, nat>, m': map<nat, nat>)
    requires Linked(b, t, pool, sh) && Keyed(b, |t|, sh.place, home, m, hash) && KeysApart(m, comp) && Equivalence(comp)
    requires s < |sh.slots| == |t| && q < |sh.slots[s]| && h < |b| && |sh.place| == |b|
    requires forall i :: 0 <= i < |b| ==> (sh.place[i] == InSlot(s, q) <==> i == h)
    requires b[h].key in m && comp(key, b[h].key) == 0 && Unhooked(b, b', t, t', pool, sh, s, q, h)
    ensures Linked(b', t', h, sh') && Keyed(b', |t|, sh'.place, home', m', hash) && KeysApart(m', comp)
    ensures m' == Without(m, comp, key) && |m'| + 1 == |m| && |b'| == |b|
  {
    hide Linked, Keyed, Equivalence, KeysApart, Without, Unhooked, Dropped;
    var k0 := b[h].key;
    WithoutOne(m, comp, key, k0, 0);
    sh' := Dropped(sh, s, q);
    DropKeepsLinks(b, t, pool, sh, s, q, h, b', t', sh');
    DropKeepsKeys(b, t, pool, sh, home, m, hash, s, q, h, b', t', sh');
    home', m' := home - {k0}, m - {k0};
    assert m.Keys == m'.Keys + {k0};
  }

  lemma NothingYet(t: seq<int>, size: nat, none: Shape, hash: nat -> nat, comp: (nat, nat) -> int)
    requires |t| == size && (forall s :: 0 <= s < size ==> t[s] == NULL) && none == Shape([], seq(size, _ => []), [])
    ensures Linked([], t, NULL, none) && Keyed([], size, none.place, map[], map[], hash) && KeysApart(map[], comp)
  {
  }

  lemma SameCount(m: map<nat, nat>, k: nat, key: nat, val: nat)
    requires k in m && (key in m ==> key == k)
    ensures |(m - {k})[key := val]| == |m|
  {
    assert (m - {k})[key := val].Keys == (m.Keys - {k}) + {key};
  }

  lemma PoolFacts(b: seq<Bucket>, t: seq<int>, pool: int, sh: Shape)
    requires Linked(b, t, pool, sh) && pool != NULL
    ensures 0 <= pool < |b| == |sh.place| && |sh.slots| == |t| && |sh.pool| > 0 && sh.place[pool] == InPool(0)
    ensures PoolPlaced(sh) && forall i :: 0 <= i < |b| && sh.place[i] == InPool(0) ==> i == pool
  {
    forall i | 0 <= i < |b| && sh.place[i] == InPool(0) ensures i == pool {
      assert LinkOk(b[i], i, sh, sh.place[i]);
    }
  }

  /** Where the bucket that lookup found is in its chain. */
  lemma ChainPosition(b: seq<Bucket>, t: seq<int>, pool: int, sh: Shape, s: nat, h: nat, prev: int) returns (q: nat)
    requires Linked(b, t, pool, sh) && InChain(sh, s, h, prev) && s < |t|
    ensures |sh.slots| == |t| && |sh.place| == |b| && q < |sh.slots[s]| && sh.slots[s][q] == h < |b|
    ensures prev == At(sh.slots[s], q - 1) && NULL <= prev < |b| && prev != h && (prev == NULL <==> q == 0)
    ensures t[s] == h <==> q == 0
    ensures forall i :: 0 <= i < |b| ==> (sh.place[i] == InSlot(s, q) <==> i == h)
  {
    q :| 0 <= q < |sh.slots[s]| && sh.slots[s][q] == h && prev == At(sh.slots[s], q - 1);
    assert SlotPlaced(sh, s, sh.slots[s]);
    hide PoolPlaced;
    forall i | 0 <= i < |b| && sh.place[i] == InSlot(s, q) ensures i == h {
      assert LinkOk(b[i], i, sh, sh.place[i]);
    }
  }

  /** None of the first p buckets of a chain holds the key. */
  ghost predicate NoneBefore(b: seq<Bucket>, ids: seq<nat>, p: nat, key: nat, comp: (nat, nat) -> int) {
    p <= |ids| && forall q :: 0 <= q < p ==> ids[q] < |b| && comp(key, b[ids[q]].key) != 0
  }

  lemma StartOfSlot(b: seq<Bucket>, t: seq<int>, pool: int, sh: Shape, s: nat, key: nat, comp: (nat, nat) -> int)
    requires Linked(b, t, pool, sh) && s < |t|
    ensures |sh.slots| == |t| && t[s] == At(sh.slots[s], 0) && NoneBefore(b, sh.slots[s], 0, key, comp)
  {
  }

  lemma GrowNone(b: seq<Bucket>, ids: seq<nat>, p: nat, key: nat, comp: (nat, nat) -> int)
    requires NoneBefore(b, ids, p, key, comp) && p < |ids| && ids[p] < |b| && comp(key, b[ids[p]].key) != 0
    ensures NoneBefore(b, ids, p + 1, key, comp)
  {
  }

  lemma FoundHere(sh: Shape, s: nat, p: nat, m: map<nat, nat>, comp: (nat, nat) -> int, key: nat, k: nat)
    requires s < |sh.slots| && p < |sh.slots[s]| && k in m && comp(key, k) == 0
    ensures InChain(sh, s, sh.slots[s][p], At(sh.slots[s], p - 1)) && Has(m, comp, key)
  {
  }

  lemma NotThere(b: seq<Bucket>, t: seq<int>, pool: int, sh: Shape, home: map<nat, nat>, m: map<nat, nat>,
                 hash: nat -> nat, comp: (nat, nat) -> int, key: nat)
    requires Linked(b, t, pool, sh) && Keyed(b, |t|, sh.place, home, m, hash) && Agree(hash, comp)
    requires |t| > 0 && |sh.slots| == |t| && hash(key) % |t| < |t|
    requires NoneBefore(b, sh.slots[hash(key) % |t|], |sh.slots[hash(key) % |t|]|, key, comp)
    ensures !Has(m, comp, key)
  {
    hide Linked, Keyed;
    forall k | k in m ensures comp(key, k) != 0 {
      KeyIsInSlot(b, t, pool, sh, home, m, hash, k);
      assert comp(key, k) == 0 ==> hash(key) == hash(k);
    }
  }

  /** Bucket h is in the chain of slot s, behind bucket prev. */
  ghost predicate InChain(sh: Shape, s: nat, h: int, prev: int) {
    s < |sh.slots| && exists p :: 0 <= p < |sh.slots[s]| && sh.slots[s][p] == h && prev == At(sh.slots[s], p - 1)
  }

  lemma LinkInSlot(b: seq<Bucket>, t: seq<int>, pool: int, sh: Shape, s: nat, p: nat)
    requires Linked(b, t, pool, sh) && s < |t|
    ensures |sh.slots| == |t| && |sh.place| == |b|
    ensures p < |sh.slots[s]| ==>
              var i := sh.slots[s][p];
              && i < |b| && b[i].tag == HASHBUCKET_TAG && b[i].link == At(sh.slots[s], p + 1)
              && sh.place[i] == InSlot(s, p)
  {
    AllPlaced(b, t, pool, sh);
    hide PoolPlaced, Placed;
    if p < |sh.slots[s]| {
      var i := sh.slots[s][p];
      assert SlotPlaced(sh, s, sh.slots[s]);
      assert LinkOk(b[i], i, sh, sh.place[i]);
    }
  }

  lemma InSlotFacts(b: seq<Bucket>, t: seq<int>, pool: int, sh: Shape, home: map<nat, nat>, m: map<nat, nat>,
                    hash: nat -> nat, s: nat, p: nat)
    requires Linked(b, t, pool, sh) && Keyed(b, |t|, sh.place, home, m, hash) && s < |t|
    ensures |sh.slots| == |t| && |sh.place| == |b|
    ensures p < |sh.slots[s]| ==>
              var i := sh.slots[s][p];
              && i < |b| && b[i].tag == HASHBUCKET_TAG && b[i].link == At(sh.slots[s], p + 1)
              && sh.place[i] == InSlot(s, p) && KeyOk(b[i], i, s, |t|, home, m, hash)
  {
    LinkInSlot(b, t, pool, sh, s, p);
    hide Linked, KeyOk, HomeOk;
  }

  lemma KeyIsInSlot(b: seq<Bucket>, t: seq<int>, pool: int, sh: Shape, home: map<nat, nat>, m: map<nat, nat>,
                    hash: nat -> nat, k: nat)
    requires Linked(b, t, pool, sh) && Keyed(b, |t|, sh.place, home, m, hash) && k in m
    ensures |t| > 0 && |sh.slots| == |t|
    ensures var s := hash(k) % |t|;
            exists p :: 0 <= p < |sh.slots[s]| && sh.slots[s][p] < |b| && b[sh.slots[s][p]].key == k
  {
    assert HomeOk(b, sh.place, home, k);
    var i := home[k];
    assert LinkOk(b[i], i, sh, sh.place[i]) && KeyOk(b[i], i, sh.place[i].i, |t|, home, m, hash);
    assert sh.slots[sh.place[i].i][sh.place[i].p] == i;
  }

  // ------------------------------------------------------------ how far an iteration has come

  /** All entries of the slots below i and the first p ones of slot i. */
  ghost predicate VisitedSoFar(b: seq<Bucket>, t: seq<int>, pool: int, sh: Shape, i: nat, p: nat, visited: seq<Visit>) {
    && Linked(b, t, pool, sh) && i <= |t| && (p > 0 ==> i < |t| && p <= |sh.slots[i]|)
    && (i < |t| ==> SlotPlaced(sh, i, sh.slots[i]))
    && visited == SlotVisits(b, sh, i) + (if p == 0 then [] else ChainVisits(b, i, sh.slots[i], p))
  }

  lemma NothingVisited(b: seq<Bucket>, t: seq<int>, pool: int, sh: Shape, f: (nat, nat, nat) -> int)
    requires Linked(b, t, pool, sh)
    ensures VisitedSoFar(b, t, pool, sh, 0, 0, []) && GoesOn(f, [])
  {
  }

  lemma HeadOfSlot(b: seq<Bucket>, t: seq<int>, pool: int, sh: Shape, i: nat)
    requires Linked(b, t, pool, sh) && i < |t|
    ensures |sh.slots| == |t| && t[i] == At(sh.slots[i], 0)
  {
  }

  /** What SlotVisits reports first is what fewer slots report. */
  lemma {:induction false} VisitsExtend(b: seq<Bucket>, sh: Shape, n: nat, n': nat)
    requires n <= n' <= |sh.slots| && |sh.place| == |b|
    requires forall s :: 0 <= s < n' ==> SlotPlaced(sh, s, sh.slots[s])
    ensures SlotVisits(b, sh, n) <= SlotVisits(b, sh, n')
  {
    if n < n' { VisitsExtend(b, sh, n, n' - 1); }
  }

  lemma OneMoreGoes(visited: seq<Visit>, v: Visit, f: (nat, nat, nat) -> int)
    requires GoesOn(f, visited)
    ensures GoesOn(f, (visited + [v])[..|visited + [v]| - 1])
    ensures f(v.slot, v.key, v.val) == 0 ==> GoesOn(f, visited + [v])
  {
    assert (visited + [v])[..|visited + [v]| - 1] == visited;
  }

  lemma OneMoreVisit(b: seq<Bucket>, t: seq<int>, pool: int, sh: Shape, i: nat, p: nat, visited: seq<Visit>)
    requires VisitedSoFar(b, t, pool, sh, i, p, visited)
    requires i < |t| == |sh.slots| && p < |sh.slots[i]| && sh.slots[i][p] < |b|
    ensures var visited' := visited + [Visit(i, b[sh.slots[i][p]].key, b[sh.slots[i][p]].val)];
            && VisitedSoFar(b, t, pool, sh, i, p + 1, visited') && visited' <= AllVisits(b, t, pool, sh)
  {
    var ids := sh.slots[i];
    var v := Visit(i, b[ids[p]].key, b[ids[p]].val);
    var visited' := visited + [v];
    assert ChainVisits(b, i, ids, p) + [v] == ChainVisits(b, i, ids, p + 1);
    assert visited' == SlotVisits(b, sh, i) + ChainVisits(b, i, ids, p + 1);
    MoreOfChain(b, i, ids, p + 1);
    VisitsExtend(b, sh, i + 1, |t|);
    hide ChainVisits, Linked;
  }

  lemma MoreOfChain(b: seq<Bucket>, i: nat, ids: seq<nat>, p: nat)
    requires p <= |ids| && forall q :: 0 <= q < |ids| ==> ids[q] < |b|
    ensures ChainVisits(b, i, ids, p) <= ChainVisits(b, i, ids, |ids|)
  {
  }

  lemma SlotDone(b: seq<Bucket>, t: seq<int>, pool: int, sh: Shape, i: nat, visited: seq<Visit>)
    requires i < |t| == |sh.slots| && VisitedSoFar(b, t, pool, sh, i, |sh.slots[i]|, visited)
    ensures VisitedSoFar(b, t, pool, sh, i + 1, 0, visited)
  {
    assert visited == SlotVisits(b, sh, i + 1);
  }

  lemma AllDone(b: seq<Bucket>, t: seq<int>, pool: int, sh: Shape, visited: seq<Visit>)
    requires VisitedSoFar(b, t, pool, sh, |t|, 0, visited)
    ensures visited == AllVisits(b, t, pool, sh)
  {
  }
}
