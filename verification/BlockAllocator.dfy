/** The block allocator of kjvm/trunk/core/malloc.c: a bitmap of used blocks, searched from a
    rotating start. */
module BlockAllocator {
  import opened Cyclic

  // ------------------------------------------------------------ the bitmap as booleans

  /** 1 << o */
  function Mask(o: nat): bv8
    requires o < 8
  {
    match o
    case 0 => 1 case 1 => 2 case 2 => 4 case 3 => 8 case 4 => 16 case 5 => 32 case 6 => 64 case _ => 128
  }

  predicate Bit(x: bv8, o: nat)
    requires o < 8
  {
    x & Mask(o) != 0
  }

  lemma SetBit(x: bv8, o: nat, p: nat)
    requires o < 8 && p < 8
    ensures Bit(x | Mask(o), p) <==> p == o || Bit(x, p)
  {
  }

  lemma ClearBit(x: bv8, o: nat, p: nat)
    requires o < 8 && p < 8
    ensures Bit(x & !Mask(o), p) <==> p != o && Bit(x, p)
  {
  }

  predicate Used(m: seq<bv8>, i: nat)
    requires i / 8 < |m|
  {
    Bit(m[i / 8], i % 8)
  }

  /** The bytes of the bitmap stand for these booleans, block by block. */
  ghost predicate Refines(m: seq<bv8>, used: seq<bool>) {
    && |used| == 8 * |m|
    && forall i :: 0 <= i < |used| ==> i / 8 < |m| && (used[i] <==> Used(m, i))
  }

  lemma MarkRefines(m: seq<bv8>, used: seq<bool>, i: nat)
    requires Refines(m, used) && i < |used|
    ensures i / 8 < |m| && Refines(m[i / 8 := m[i / 8] | Mask(i % 8)], used[i := true])
  {
    var m' := m[i / 8 := m[i / 8] | Mask(i % 8)];
    forall j | 0 <= j < |used| ensures j / 8 < |m| && (used[i := true][j] <==> Used(m', j)) {
      if j / 8 == i / 8 { SetBit(m[i / 8], i % 8, j % 8); }
    }
  }

  lemma UnmarkRefines(m: seq<bv8>, used: seq<bool>, i: nat)
    requires Refines(m, used) && i < |used|
    ensures i / 8 < |m| && Refines(m[i / 8 := m[i / 8] & !Mask(i % 8)], used[i := false])
  {
    var m' := m[i / 8 := m[i / 8] & !Mask(i % 8)];
    forall j | 0 <= j < |used| ensures j / 8 < |m| && (used[i := false][j] <==> Used(m', j)) {
      if j / 8 == i / 8 { ClearBit(m[i / 8], i % 8, j % 8); }
    }
  }

  /** Block i is bit i % 8 of byte i / 8, the lowest bit first. */
  lemma BlockIsBit(m: seq<bv8>, used: seq<bool>, i: nat)
    requires Refines(m, used) && i < |used|
    ensures i / 8 < |m| && (used[i] <==> m[i / 8] & (1 << (i % 8)) != 0)
  {
    var x, o := m[i / 8], i % 8;
    assert used[i] <==> Bit(x, o);
    hide Refines;
    if o == 0 {} else if o == 1 {} else if o == 2 {} else if o == 3 {} else if o == 4 {} else if o == 5 {}
    else if o == 6 {} else { assert o == 7; }
  }

  function CountFree(used: seq<bool>): nat {
    if used == [] then 0 else CountFree(used[..|used| - 1]) + if used[|used| - 1] then 0 else 1
  }

  lemma {:induction false} CountUpdate(used: seq<bool>, i: nat, b: bool)
    requires i < |used|
    ensures CountFree(used[i := b]) == CountFree(used) + (if used[i] then 1 else 0) - (if b then 1 else 0)
  {
    var n := |used| - 1;
    if i < n {
      CountUpdate(used[..n], i, b);
      assert used[i := b][..n] == used[..n][i := b];
    } else {
      assert used[i := b][..n] == used[..n];
    }
  }

  /** It counts the blocks that are not used. */
  lemma {:induction false} CountIsSize(used: seq<bool>)
    ensures CountFree(used) == |set i | 0 <= i < |used| && !used[i]|
  {
    var all := set i | 0 <= i < |used| && !used[i];
    if used == [] {
      assert all == {};
    } else {
      var n := |used| - 1;
      CountIsSize(used[..n]);
      var some := set i | 0 <= i < |used[..n]| && !used[..n][i];
      assert all == if used[n] then some else some + {n};
    }
  }

  lemma {:induction false} CountAllFree(used: seq<bool>)
    requires forall i :: 0 <= i < |used| ==> !used[i]
    ensures CountFree(used) == |used|
  {
    if used != [] { CountAllFree(used[..|used| - 1]); }
  }

  // ------------------------------------------------------------ runs of blocks

  ghost predicate FreeRun(used: seq<bool>, b: nat, k: nat) {
    b + k <= |used| && forall i :: b <= i < b + k ==> !used[i]
  }

  /** Of the runs of k free blocks, the first one from the rotating start s on was handed out. */
  ghost predicate Delivered(used: seq<bool>, used': seq<bool>, live: map<nat, nat>, live': map<nat, nat>, s: nat,
                            d: nat, k: nat, base: nat, blockSize: nat, addr: nat)
  {
    && d < |used| && s < |used| && NoneSoFar(used, s, d, k, 1, base, blockSize)
    && (var b := Cyc(s, d, |used|);
        && addr == base + b * blockSize && FreeRun(used, b, k) && used' == Marked(used, b, k, true)
        && live' == (if k > 0 then live[b := k] else live))
  }

  lemma OnlyThatMany(used: seq<bool>, size: nat, k: nat, blockSize: nat)
    requires RoundsUp(size, k, blockSize)
    ensures HasRun(used, k) <==> exists k' :: size <= k' * blockSize < size + blockSize && HasRun(used, k')
  {
    hide HasRun;
    forall k' | size <= k' * blockSize < size + blockSize && HasRun(used, k') ensures k' == k {
      RoundsUpOnce(size, k, k', blockSize);
    }
  }

  /** k blocks are what so many bytes need, and not one more. */
  predicate RoundsUp(size: nat, k: nat, blockSize: nat) { size <= k * blockSize < size + blockSize }

  lemma RoundsUpOnce(size: nat, k: nat, k': nat, blockSize: nat)
    requires RoundsUp(size, k, blockSize) && RoundsUp(size, k', blockSize)
    ensures k == k'
  {
    if k < k' {
      assert (k + 1) * blockSize == k * blockSize + blockSize;
      MulMono(k + 1, k', blockSize);
    } else if k' < k {
      assert (k' + 1) * blockSize == k' * blockSize + blockSize;
      MulMono(k' + 1, k, blockSize);
    }
  }

  /** Somewhere so many blocks are free, one behind the other. */
  ghost predicate HasRun(used: seq<bool>, k: nat) { exists b :: 0 <= b < |used| && FreeRun(used, b, k) }

  ghost function Marked(used: seq<bool>, b: nat, k: nat, mark: bool): seq<bool> {
    seq(|used|, i requires 0 <= i < |used| => if b <= i < b + k then mark else used[i])
  }

  lemma {:induction false} CountMarked(used: seq<bool>, b: nat, k: nat, mark: bool)
    requires b + k <= |used| && forall i :: b <= i < b + k ==> used[i] == !mark
    ensures CountFree(Marked(used, b, k, mark)) == if mark then CountFree(used) - k else CountFree(used) + k
  {
    if k == 0 {
      assert Marked(used, b, k, mark) == used;
    } else {
      CountMarked(used, b, k - 1, mark);
      CountUpdate(Marked(used, b, k - 1, mark), b + k - 1, mark);
      assert Marked(used, b, k, mark) == Marked(used, b, k - 1, mark)[b + k - 1 := mark];
    }
  }

  /** Live allocations by their first block are apart, behind the blocks of the bitmap itself, and
      they and the bitmap are all that is used. */
  ghost predicate LiveOk(used: seq<bool>, own: nat, live: map<nat, nat>) {
    && own <= |used|
    && (forall b :: b in live ==> own <= b && 0 < live[b] && b + live[b] <= |used|)
    && (forall a, b :: a in live && b in live && a < b ==> a + live[a] <= b)
    && (forall i :: 0 <= i < |used| ==> (used[i] <==> i < own || exists b :: b in live && b <= i < b + live[b]))
  }

  lemma AllocKeepsLive(used: seq<bool>, own: nat, live: map<nat, nat>, b: nat, k: nat)
    requires LiveOk(used, own, live) && FreeRun(used, b, k) && k > 0
    ensures b !in live && LiveOk(Marked(used, b, k, true), own, live[b := k])
  {
    var used', live' := Marked(used, b, k, true), live[b := k];
    assert !used[b];
    forall a | a in live ensures a + live[a] <= b || b + k <= a {
      assert used[a];
    }
    assert b !in live;
    forall i | 0 <= i < |used| ensures used'[i] <==> i < own || exists a :: a in live' && a <= i < a + live'[a] {
      if b <= i < b + k { assert b in live'; }
      if used[i] && i >= own {
        var a :| a in live && a <= i < a + live[a];
        assert a in live' && live'[a] == live[a];
      }
    }
  }

  lemma FreeKeepsLive(used: seq<bool>, own: nat, live: map<nat, nat>, b: nat)
    requires LiveOk(used, own, live) && b in live
    ensures b + live[b] <= |used| && (forall i :: b <= i < b + live[b] ==> used[i])
    ensures LiveOk(Marked(used, b, live[b], false), own, live - {b})
  {
    var used', live' := Marked(used, b, live[b], false), live - {b};
    forall i | 0 <= i < |used| ensures used'[i] <==> i < own || exists a :: a in live' && a <= i < a + live'[a] {
      if used[i] && i >= own && !(b <= i < b + live[b]) {
        var a :| a in live && a <= i < a + live[a];
        assert a in live';
      }
    }
  }

  // ------------------------------------------------------------ the cyclic search

  /** A place for k blocks: free, aligned, not around the end; without blocks to ask for, it is
      the start of the search or a free block. */
  ghost predicate Fits(used: seq<bool>, b: nat, k: nat, align: nat, base: nat, blockSize: nat, start: nat)
    requires align > 0
  {
    && b < |used| && FreeRun(used, b, k) && (base + b * blockSize) % align == 0
    && (k == 0 ==> b == start || !used[b])
  }

  /** None of the first d blocks of the search is a place. */
  ghost predicate NoneSoFar(used: seq<bool>, s: nat, d: nat, k: nat, align: nat, base: nat, blockSize: nat)
    requires align > 0
  {
    && s < |used| && d <= |used|
    && forall e :: 0 <= e < d ==> !Fits(used, Cyc(s, e, |used|), k, align, base, blockSize, s)
  }

  lemma {:induction false} UsedIsNoPlace(used: seq<bool>, s: nat, d: nat, k: nat, align: nat, base: nat, blockSize: nat)
    requires align > 0 && 0 < d < |used| && NoneSoFar(used, s, d, k, align, base, blockSize) && used[Cyc(s, d, |used|)]
    ensures NoneSoFar(used, s, d + 1, k, align, base, blockSize)
  {
    assert Cyc(s, d, |used|) != s;
  }

  lemma MulMono(a: nat, b: nat, c: nat)
    requires a <= b
    ensures a * c <= b * c
  {
  }

  lemma DivMul(a: nat, c: nat)
    requires c > 0
    ensures a / c * c <= a < (a / c + 1) * c
  {
  }

  /** The bitmap is not larger than the memory that it describes. */
  lemma OwnBlocksFit(n: nat, blockSize: nat)
    requires blockSize > 0
    ensures (n / 8 + blockSize - 1) / blockSize <= n
  {
    var q := n / 8;
    var r := (q + blockSize - 1) / blockSize;
    DivMul(q + blockSize - 1, blockSize);
    MulMono(1, blockSize, q);
    assert (q + 1) * blockSize == q * blockSize + blockSize;
    if r > q {
      MulMono(q + 1, r, blockSize);
      assert false;
    }
  }

  lemma MarkOneMore(used: seq<bool>, b: nat, i: nat, mark: bool)
    requires b + i < |used|
    ensures Marked(used, b, i + 1, mark) == Marked(used, b, i, mark)[b + i := mark]
  {
  }

  lemma MarkedAt(used: seq<bool>, b: nat, i: nat, mark: bool)
    requires b + i < |used|
    ensures |Marked(used, b, i, mark)| == |used| && Marked(used, b, i, mark)[b + i] == used[b + i]
  {
  }

  lemma MarkNone(used: seq<bool>, b: nat, mark: bool)
    ensures Marked(used, b, 0, mark) == used
  {
  }

  class Allocator {
    const base: nat               // jxmem_start
    const blockSize: nat          // BLOCKSIZE
    const nBlocks: nat
    const own: nat                // bitmap_size_blocks
    const bitmap: array<bv8>
    var currentBlock: nat
    var nFree: int
    ghost var used: seq<bool>
    ghost var live: map<nat, nat> // block counts by first block

    ghost predicate Valid()
      reads this, bitmap
    {
      && blockSize > 0 && nBlocks == 8 * bitmap.Length && currentBlock < nBlocks
      && Refines(bitmap[..], used) && nFree == CountFree(used) && LiveOk(used, own, live)
    }

    /** jxmalloc_init for memory of n blocks. */
    constructor (base: nat, blockSize: nat, n: nat)
      requires blockSize > 0 && n > 0 && n % 8 == 0
      ensures Valid() && fresh(bitmap) && live == map[] && nBlocks == n && this.base == base
              && this.blockSize == blockSize
      ensures forall i :: 0 <= i < n ==> (used[i] <==> i < (n / 8 + blockSize - 1) / blockSize)
    {
      this.base, this.blockSize, nBlocks := base, blockSize, n;
      own := (n / 8 + blockSize - 1) / blockSize;
      bitmap := new bv8[n / 8](_ => 0);
      nFree := n;
      currentBlock := 0;
      used := seq(n, _ => false);
      live := map[];
      new;
      OwnBlocksFit(n, blockSize);
      AllClear(bitmap[..], used);
      CountAllFree(used);
      hide Refines, CountFree;
      var _ := MarkUsed(own);
    }

    method MarkCurrentUsed()
      requires currentBlock < nBlocks == 8 * bitmap.Length && Refines(bitmap[..], used) && |used| == nBlocks
      requires !used[currentBlock] && nFree == CountFree(used)
      modifies this`nFree, this`used, bitmap
      ensures used == old(used)[currentBlock := true] && Refines(bitmap[..], used) && nFree == CountFree(used)
    {
      hide Refines, CountFree;
      MarkRefines(bitmap[..], used, currentBlock);
      CountUpdate(used, currentBlock, true);
      var pos, o := currentBlock / 8, currentBlock % 8;
      ghost var m' := bitmap[..][pos := bitmap[pos] | Mask(o)];
      bitmap[pos] := bitmap[pos] | Mask(o);
      assert bitmap[..] == m';
      nFree := nFree - 1;
      used := used[currentBlock := true];
    }

    /** The loop of markUsed. */
    method MarkRun(k: nat)
      requires currentBlock < nBlocks == 8 * bitmap.Length && Refines(bitmap[..], used) && |used| == nBlocks
      requires FreeRun(used, currentBlock, k) && nFree == CountFree(used)
      modifies this`nFree, this`used, this`currentBlock, bitmap
      ensures used == Marked(old(used), old(currentBlock), k, true) && Refines(bitmap[..], used)
      ensures nFree == CountFree(used) && currentBlock == Cyc(old(currentBlock), k, nBlocks)
    {
      hide Refines, CountFree, Marked, Cyc;
      ghost var c := currentBlock;
      var i := 0;
      BeforeTheEnd(c, 0, nBlocks);
      MarkNone(used, c, true);
      while i < k
        invariant 0 <= i <= k && currentBlock == Cyc(c, i, nBlocks) && Refines(bitmap[..], used)
        invariant nFree == CountFree(used) && used == Marked(old(used), c, i, true) && |used| == nBlocks
      {
        StepOn(c, i, nBlocks);
        BeforeTheEnd(c, i, nBlocks);
        MarkedAt(old(used), c, i, true);
        MarkCurrentUsed();
        MarkOneMore(old(used), c, i, true);
        currentBlock := (currentBlock + 1) % nBlocks;
        i := i + 1;
      }
    }

    method MarkUsed(k: nat) returns (addr: nat)
      requires currentBlock < nBlocks == 8 * bitmap.Length && Refines(bitmap[..], used) && |used| == nBlocks
      requires FreeRun(used, currentBlock, k) && nFree == CountFree(used)
      modifies this`nFree, this`used, this`currentBlock, bitmap
      ensures addr == base + old(currentBlock) * blockSize && used == Marked(old(used), old(currentBlock), k, true)
      ensures Refines(bitmap[..], used) && nFree == CountFree(used)
              && currentBlock == Cyc(old(currentBlock), k, nBlocks)
    {
      addr := base + currentBlock * blockSize;
      MarkRun(k);
    }

    method MarkUnused(b: nat)
      requires b < nBlocks == 8 * bitmap.Length && Refines(bitmap[..], used) && |used| == nBlocks
      requires used[b] && nFree == CountFree(used)
      modifies this`nFree, this`used, bitmap
      ensures used == old(used)[b := false] && Refines(bitmap[..], used) && nFree == CountFree(used)
    {
      hide Refines, CountFree;
      UnmarkRefines(bitmap[..], used, b);
      CountUpdate(used, b, false);
      var pos, o := b / 8, b % 8;
      ghost var m' := bitmap[..][pos := bitmap[pos] & !Mask(o)];
      bitmap[pos] := bitmap[pos] & !Mask(o);
      assert bitmap[..] == m';
      nFree := nFree + 1;
      used := used[b := false];
    }

    /** Whether block i is marked. */
    method Test(i: nat) returns (r: bool)
      requires Valid() && i < nBlocks
      ensures |used| == nBlocks && r == used[i]
    {
      r := Bit(bitmap[i / 8], i % 8);
    }

    method IsFree(k: nat) returns (r: bool)
      requires Valid()
      ensures |used| == nBlocks
      ensures r <==> currentBlock + k <= nBlocks && forall i :: currentBlock <= i < currentBlock + k ==> !used[i]
    {
      hide CountFree, LiveOk;
      var _ := Test(currentBlock);
      if currentBlock + k > nBlocks {
        return false;
      }
      var i := 0;
      while i < k
        invariant 0 <= i <= k && FreeRun(used, currentBlock, i)
      {
        var u := Test(currentBlock + i);
        if u {
          return false;
        }
        i := i + 1;
      }
      r := true;
    }

    /** Goes on to the next free block; ok is false when the start of the search is met again. */
    method NextFree(s: nat, ghost d0: nat, ghost k: nat, ghost align: nat) returns (ok: bool, ghost d: nat)
      requires Valid() && align > 0 && 0 < d0 < nBlocks && s < nBlocks && currentBlock == Cyc(s, d0, nBlocks)
      requires NoneSoFar(used, s, d0, k, align, base, blockSize)
      modifies this`currentBlock
      ensures Valid() && |used| == nBlocks && d0 <= d <= nBlocks && NoneSoFar(used, s, d, k, align, base, blockSize)
      ensures if ok then d < nBlocks && currentBlock == Cyc(s, d, nBlocks) && !used[currentBlock] else d == nBlocks
    {
      hide Refines, CountFree, LiveOk, NoneSoFar;
      d := d0;
      var u := Test(currentBlock);
      while u
        invariant Valid() && |used| == nBlocks && d0 <= d < nBlocks && currentBlock == Cyc(s, d, nBlocks)
        invariant u == used[currentBlock] && NoneSoFar(used, s, d, k, align, base, blockSize)
        decreases nBlocks - d
      {
        UsedIsNoPlace(used, s, d, k, align, base, blockSize);
        StepOn(s, d, nBlocks);
        currentBlock := (currentBlock + 1) % nBlocks;
        d := d + 1;
        if currentBlock == s {
          return false, d;
        }
        u := Test(currentBlock);
      }
      ok := true;
    }

    /** jxmalloc_internal: k blocks at an address that is a multiple of align, which has to be a power
        of two for the mask of the original to say this. It delivers the first place behind the
        rotating start and gives up only if there is none at all. */
    method Alloc(k: nat, align: nat) returns (ok: bool, addr: nat, ghost d: nat)
      requires Valid() && align > 0
      modifies this`currentBlock, this`used, this`nFree, this`live, bitmap
      ensures Valid()
      ensures !ok ==> forall b :: 0 <= b < nBlocks ==> !Fits(old(used), b, k, align, base, blockSize, old(currentBlock))
      ensures !ok ==> used == old(used) && live == old(live)
      ensures ok ==>
                && d < nBlocks && NoneSoFar(old(used), old(currentBlock), d, k, align, base, blockSize)
                && (var b := Cyc(old(currentBlock), d, nBlocks);
                    && Fits(old(used), b, k, align, base, blockSize, old(currentBlock)) && addr == base + b * blockSize
                    && used == Marked(old(used), b, k, true) && nFree == old(nFree) - k
                    && currentBlock == Cyc(b, k, nBlocks) && live == (if k > 0 then old(live)[b := k] else old(live)))
    {
      hide Refines, CountFree, LiveOk, NoneSoFar;
      var s := currentBlock;
      addr, d := 0, 0;
      NothingTried(bitmap[..], used, s, k, align, base, blockSize);
      while true
        invariant Valid() && |used| == nBlocks && d < nBlocks && currentBlock == Cyc(s, d, nBlocks)
        invariant used == old(used) && live == old(live) && nFree == old(nFree) && bitmap[..] == old(bitmap[..])
        invariant NoneSoFar(used, s, d, k, align, base, blockSize) && (d > 0 ==> !used[currentBlock])
        decreases nBlocks - d
      {
        var free := IsFree(k);
        if free && (base + currentBlock * blockSize) % align == 0 {
          ghost var b, used0 := currentBlock, used;
          addr := MarkUsed(k);
          CountMarked(used0, b, k, true);
          if k > 0 {
            AllocKeepsLive(used0, own, live, b, k);
            live := live[b := k];
          } else {
            MarkNone(used0, b, true);
          }
          return true, addr, d;
        }
        OneMoreTried(used, s, d, k, align, base, blockSize);
        StepOn(s, d, nBlocks);
        currentBlock := (currentBlock + 1) % nBlocks;
        d := d + 1;
        if currentBlock == s {
          NoneAtAll(used, s, k, align, base, blockSize);
          return false, 0, d;
        }
        var found;
        found, d := NextFree(s, d, k, align);
        if !found {
          NoneAtAll(used, s, k, align, base, blockSize);
          return false, 0, d;
        }
      }
    }

    /** Blocks that so many bytes take. */
    function Blocks(size: nat): (k: nat)
      requires blockSize > 0
      ensures size <= k * blockSize < size + blockSize
    {
      RoundedUp(size, blockSize);
      (size + blockSize - 1) / blockSize
    }

    /** jxmalloc: size in bytes. The original does not state the result that its caller uses, which
        is that of jxmalloc_internal. */
    method Malloc(size: nat) returns (ok: bool, addr: nat, ghost d: nat)
      requires Valid()
      modifies this`currentBlock, this`used, this`nFree, this`live, bitmap
      ensures Valid()
      ensures ok <==> exists k :: size <= k * blockSize < size + blockSize && HasRun(old(used), k)
      ensures !ok ==> used == old(used) && live == old(live)
      ensures ok ==>
                exists k :: size <= k * blockSize < size + blockSize
                  && Delivered(old(used), used, old(live), live, old(currentBlock), d, k, base, blockSize, addr)
    {
      hide Refines, CountFree, LiveOk, NoneSoFar, HasRun, Blocks, Marked, FreeRun;
      var k := Blocks(size);
      SizesAgree(bitmap[..], used);
      ghost var used0, live0, s := used, live, currentBlock;
      ok, addr, d := Alloc(k, 1);
      RunIsPlace(used0, k, base, blockSize, s);
      OnlyThatMany(used0, size, k, blockSize);
      assert ok ==> Delivered(used0, used, live0, live, s, d, k, base, blockSize, addr);
    }

    /** jxfree of what an allocation of `size` bytes delivered. */
    method Free(addr: nat, size: nat)
      requires Valid() && addr >= base && size > 0
      requires var b := (addr - base) / blockSize; b in live && size <= live[b] * blockSize < size + blockSize
      modifies this`used, this`nFree, this`live, bitmap
      ensures Valid()
      ensures var b := (addr - base) / blockSize;
              && live == old(live) - {b} && used == Marked(old(used), b, old(live)[b], false)
              && nFree == old(nFree) + old(live)[b]
    {
      hide Refines, CountFree, LiveOk;
      var b := (addr - base) / blockSize;
      var nb := Blocks(size);
      RoundsUpOnce(size, nb, live[b], blockSize);
      ghost var used0 := used;
      FreeKeepsLive(used, own, live, b);
      CountMarked(used, b, nb, false);
      MarkNone(used0, b, false);
      SizesAgree(bitmap[..], used);
      var i := 0;
      while i < nb
        invariant 0 <= i <= nb && used == Marked(used0, b, i, false) && |used| == nBlocks && live == old(live)
        invariant Refines(bitmap[..], used) && nFree == CountFree(used)
      {
        MarkUnused(b + i);
        MarkOneMore(used0, b, i, false);
        i := i + 1;
      }
      live := live - {b};
    }
  }

  lemma SizesAgree(m: seq<bv8>, used: seq<bool>)
    requires Refines(m, used)
    ensures |used| == 8 * |m|
  {
  }

  /** Without an alignment to observe, any free run will do, and none is needed for no blocks. */
  lemma RunIsPlace(used: seq<bool>, k: nat, base: nat, blockSize: nat, s: nat)
    requires s < |used|
    ensures HasRun(used, k) <==> exists b :: 0 <= b < |used| && Fits(used, b, k, 1, base, blockSize, s)
  {
    if k == 0 {
      assert FreeRun(used, s, k) && Fits(used, s, k, 1, base, blockSize, s);
    } else if b :| 0 <= b < |used| && FreeRun(used, b, k) {
      assert Fits(used, b, k, 1, base, blockSize, s);
    }
  }

  lemma RoundedUp(size: nat, blockSize: nat)
    requires blockSize > 0
    ensures RoundsUp(size, (size + blockSize - 1) / blockSize, blockSize)
  {
    DivMul(size + blockSize - 1, blockSize);
    var q := (size + blockSize - 1) / blockSize;
    assert (q + 1) * blockSize == q * blockSize + blockSize;
  }

  lemma AllClear(m: seq<bv8>, used: seq<bool>)
    requires |used| == 8 * |m| && (forall i :: 0 <= i < |m| ==> m[i] == 0) && forall i :: 0 <= i < |used| ==> !used[i]
    ensures Refines(m, used)
  {
  }

  lemma NothingTried(m: seq<bv8>, used: seq<bool>, s: nat, k: nat, align: nat, base: nat, blockSize: nat)
    requires align > 0 && Refines(m, used) && s < 8 * |m|
    ensures |used| == 8 * |m| && NoneSoFar(used, s, 0, k, align, base, blockSize)
  {
  }

  lemma OneMoreTried(used: seq<bool>, s: nat, d: nat, k: nat, align: nat, base: nat, blockSize: nat)
    requires align > 0 && NoneSoFar(used, s, d, k, align, base, blockSize) && d < |used|
    requires var b := Cyc(s, d, |used|); !(FreeRun(used, b, k) && (base + b * blockSize) % align == 0)
    ensures NoneSoFar(used, s, d + 1, k, align, base, blockSize)
  {
  }

  /** Blocks b to b + k were free and lie inside the memory; now they are used, and nothing else has changed. */
  lemma DeliveredMeans(used: seq<bool>, used': seq<bool>, live: map<nat, nat>, live': map<nat, nat>, s: nat, d: nat,
                       k: nat, base: nat, blockSize: nat, addr: nat)
    requires Delivered(used, used', live, live', s, d, k, base, blockSize, addr)
    ensures var b := (s + d) % |used|;
            && addr == base + b * blockSize && b + k <= |used| == |used'|
            && (forall i :: b <= i < b + k ==> !used[i])
            && (forall i :: 0 <= i < |used| ==> (used'[i] <==> used[i] || b <= i < b + k))
  {
    CycIsRemainder(s, d, |used|);
    hide NoneSoFar;
  }

  /** Nothing fits: at every aligned place one of the blocks is used or beyond the end. */
  lemma ExhaustedMeans(used: seq<bool>, k: nat, align: nat, base: nat, blockSize: nat, s: nat)
    requires k > 0 && align > 0 && forall b :: 0 <= b < |used| ==> !Fits(used, b, k, align, base, blockSize, s)
    ensures forall b: nat :: b + k <= |used| && (base + b * blockSize) % align == 0 ==> true in used[b..b + k]
  {
    forall b: nat | b + k <= |used| && (base + b * blockSize) % align == 0 ensures true in used[b..b + k] {
      assert !Fits(used, b, k, align, base, blockSize, s) && !FreeRun(used, b, k);
      var i :| b <= i < b + k && used[i];
      assert used[b..b + k][i - b];
    }
  }

  /** A free run ends inside the memory and has no used block. */
  lemma RunMeans(used: seq<bool>, b: nat, k: nat)
    ensures FreeRun(used, b, k) <==> b + k <= |used| && true !in used[b..b + k]
  {
    if b + k <= |used| && true !in used[b..b + k] {
      forall i | b <= i < b + k ensures !used[i] { assert used[b..b + k][i - b] == used[i]; }
    }
  }

  /** Having gone once round, the search has seen every place. */
  lemma NoneAtAll(used: seq<bool>, s: nat, k: nat, align: nat, base: nat, blockSize: nat)
    requires align > 0 && NoneSoFar(used, s, |used|, k, align, base, blockSize)
    ensures forall b :: 0 <= b < |used| ==> !Fits(used, b, k, align, base, blockSize, s)
  {
    forall b | 0 <= b < |used| ensures !Fits(used, b, k, align, base, blockSize, s) {
      var d := EveryPlaceIsMet(s, b, |used|);
    }
  }
}
