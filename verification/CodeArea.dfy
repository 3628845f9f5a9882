/** The code area of a domain, kjvm/trunk/core/malloc.c: space is taken from the top of the current
    fragment, and fragments from the block allocator. It is never given back piece by piece. */
module CodeArea {
  import opened BlockAllocator
  import opened Cyclic

  datatype Range = Range(addr: nat, size: nat)

  predicate Apart(x: Range, y: Range) { x.addr + x.size <= y.addr || y.addr + y.size <= x.addr }

  /** Every fragment is what one live allocation of the block allocator holds. */
  ghost predicate Backed(code: seq<nat>, chunk: nat, base: nat, blockSize: nat, blocks: seq<nat>, live: map<nat, nat>) {
    && |blocks| == |code|
    && (forall f :: 0 <= f < |code| ==>
          blocks[f] in live && code[f] == base + blocks[f] * blockSize && chunk <= live[blocks[f]] * blockSize)
    && (forall f, g :: 0 <= f < g < |code| ==> blocks[f] != blocks[g])
  }

  /** What was handed out lies in its fragment below the top, each piece apart from the others. */
  ghost predicate Handed(code: seq<nat>, top: seq<nat>, handed: seq<Range>, fragment: seq<nat>) {
    && |fragment| == |handed|
    && (forall i :: 0 <= i < |handed| ==>
          fragment[i] < |code| == |top| && code[fragment[i]] <= handed[i].addr
          && handed[i].addr + handed[i].size <= top[fragment[i]])
    && (forall i, j :: 0 <= i < j < |handed| ==> Apart(handed[i], handed[j]))
  }

  /** No two pieces have a byte in common, and each lies inside its fragment. */
  lemma HandedMeans(code: seq<nat>, top: seq<nat>, handed: seq<Range>, fragment: seq<nat>, i: nat, j: nat, a: nat)
    requires Handed(code, top, handed, fragment) && i < j < |handed|
    ensures !(&& handed[i].addr <= a < handed[i].addr + handed[i].size
              && handed[j].addr <= a < handed[j].addr + handed[j].size)
    ensures fragment[i] < |code| == |top| && code[fragment[i]] <= handed[i].addr
    ensures handed[i].addr + handed[i].size <= top[fragment[i]]
  {
    assert Apart(handed[i], handed[j]);
  }

  /** A run of free blocks is large enough for so many bytes, rounded up. */
  ghost predicate CanHold(size: nat, blockSize: nat, used: seq<bool>) {
    exists k :: size <= k * blockSize < size + blockSize && HasRun(used, k)
  }

  lemma Scale(a: nat, k: nat, b: nat, blockSize: nat)
    requires a + k <= b
    ensures a * blockSize + k * blockSize <= b * blockSize
  {
    assert (a + k) * blockSize == a * blockSize + k * blockSize;
    MulMono(a + k, b, blockSize);
  }

  lemma NothingHanded(chunk: nat, base: nat, blockSize: nat, live: map<nat, nat>)
    ensures Backed([], chunk, base, blockSize, [], live) && Handed([], [], [], [])
  {
  }

  /** Different fragments have no address in common. */
  lemma FragmentsApart(code: seq<nat>, chunk: nat, base: nat, blockSize: nat, blocks: seq<nat>, live: map<nat, nat>,
                       used: seq<bool>, own: nat, f: nat, g: nat)
    requires Backed(code, chunk, base, blockSize, blocks, live) && LiveOk(used, own, live)
    requires f < |code| && g < |code| && f != g
    ensures code[f] + chunk <= code[g] || code[g] + chunk <= code[f]
  {
    if blocks[f] < blocks[g] {
      Scale(blocks[f], live[blocks[f]], blocks[g], blockSize);
    } else {
      Scale(blocks[g], live[blocks[g]], blocks[f], blockSize);
    }
  }

  class CodeArea {
    const memory: Allocator
    const chunk: nat                 // code_bytes
    const maxFragments: nat          // CODE_FRAGMENTS
    var code: seq<nat>               // by fragment; the current one is the last
    var top: seq<nat>
    ghost var blocks: seq<nat>
    ghost var handed: seq<Range>
    ghost var fragment: seq<nat>

    ghost predicate Valid()
      reads this, memory, memory.bitmap
    {
      && memory.Valid() && chunk > 0 && |top| == |code|
      && (forall f :: 0 <= f < |code| ==> code[f] <= top[f] <= code[f] + chunk)
      && Backed(code, chunk, memory.base, memory.blockSize, blocks, memory.live)
      && Handed(code, top, handed, fragment)
    }

    constructor (memory: Allocator, chunk: nat, maxFragments: nat)
      requires memory.Valid() && chunk > 0
      ensures Valid() && this.memory == memory && this.chunk == chunk && this.maxFragments == maxFragments
      ensures handed == [] && code == []
    {
      this.memory, this.chunk, this.maxFragments := memory, chunk, maxFragments;
      code, top, blocks, handed, fragment := [], [], [], [], [];
      hide Refines, CountFree, LiveOk, Backed, Handed;
      NothingHanded(chunk, memory.base, memory.blockSize, memory.live);
    }

    /** A new fragment from the block allocator. */
    method AddFragment() returns (ok: bool)
      requires Valid()
      modifies this, memory, memory.bitmap
      ensures Valid() && handed == old(handed)
      ensures ok <==> CanHold(chunk, memory.blockSize, old(memory.used))
      ensures ok ==> |code| == |old(code)| + 1 && code[..|code| - 1] == old(code) && top[|top| - 1] == code[|code| - 1]
      ensures !ok ==> code == old(code) && top == old(top)
    {
      hide Refines, CountFree, LiveOk, Handed, Backed, Delivered, HasRun;
      ghost var live0 := memory.live;
      var start;
      ghost var d;
      ok, start, d := memory.Malloc(chunk);
      if ok {
        ghost var k :| chunk <= k * memory.blockSize < chunk + memory.blockSize
          && Delivered(old(memory.used), memory.used, live0, memory.live, old(memory.currentBlock), d, k, memory.base,
                       memory.blockSize, start);
        ghost var b := NewFragment(old(memory.used), memory.used, live0, memory.live, memory.own,
                                   old(memory.currentBlock), d, k, memory.base, memory.blockSize, start, chunk, code,
                                   blocks);
        OneMoreFragment(code, top, start, handed, fragment);
        code, top, blocks := code + [start], top + [start], blocks + [b];
        assert code[..|code| - 1] == old(code);
      }
    }

    /** Room for a piece: in the current fragment, or in a new one. */
    ghost predicate HasRoom(size: nat)
      requires Valid()
      reads this, memory, memory.bitmap
    {
      || (code != [] && top[|code| - 1] + size <= code[|code| - 1] + chunk)
      || (size <= chunk && (code == [] || |code| < maxFragments) && CanHold(chunk, memory.blockSize, memory.used))
    }

    /** malloc_code. It gives up when the fragments or the memory are used up, or for a piece that no
        fragment can hold. */
    method MallocCode(size: nat) returns (ok: bool, data: nat)
      requires Valid()
      modifies this, memory, memory.bitmap
      ensures Valid()
      ensures ok <==> old(HasRoom(size))
      ensures ok ==> handed == old(handed) + [Range(data, size)]
      ensures !ok ==> handed == old(handed)
    {
      hide Refines, CountFree, LiveOk, Handed, Backed, CanHold;
      data := 0;
      if |code| == 0 {
        ok := AddFragment();
        if !ok { return; }
      }
      var c := |code| - 1;
      if top[c] + size > code[c] + chunk {
        if c + 1 >= maxFragments { return false, 0; }
        ok := AddFragment();
        if !ok { return; }
        c := c + 1;
        if top[c] + size > code[c] + chunk { return false, 0; }
      }
      data := top[c];
      MorePiece(code, top, handed, fragment, chunk, memory.base, memory.blockSize, blocks, memory.live, memory.used,
                memory.own, c, size);
      top := top[c := top[c] + size];
      handed := handed + [Range(data, size)];
      fragment := fragment + [c];
      ok := true;
    }

    /** malloc_nativecode: an address that is a multiple of 16, all of the code inside the piece. */
    method MallocNativeCode(size: nat) returns (ok: bool, addr: nat)
      requires Valid()
      modifies this, memory, memory.bitmap
      ensures Valid()
      ensures ok <==> old(HasRoom(size + 16))
      ensures ok ==> addr % 16 == 0 && |handed| == |old(handed)| + 1 && old(handed) == handed[..|old(handed)|]
                     && handed[|handed| - 1].addr <= addr
                     && addr + size <= handed[|handed| - 1].addr + handed[|handed| - 1].size
      ensures !ok ==> handed == old(handed)
    {
      var data;
      ok, data := MallocCode(size + 16);
      addr := (data + 15) / 16 * 16;
    }
  }

  /** What the block allocator delivers is a new fragment. */
  lemma NewFragment(used: seq<bool>, used': seq<bool>, live: map<nat, nat>, live': map<nat, nat>, own: nat, s: nat,
                    d: nat, k: nat, base: nat, blockSize: nat, addr: nat, chunk: nat, code: seq<nat>, blocks: seq<nat>)
    returns (b: nat)
    requires Delivered(used, used', live, live', s, d, k, base, blockSize, addr) && LiveOk(used, own, live)
    requires 0 < chunk <= k * blockSize && Backed(code, chunk, base, blockSize, blocks, live)
    ensures Backed(code + [addr], chunk, base, blockSize, blocks + [b], live')
  {
    b := Cyc(s, d, |used|);
    hide NoneSoFar, Marked;
    assert k > 0;
    FreshBlock(used, own, live, b, k);
    hide LiveOk, FreeRun;
  }

  lemma OneMoreFragment(code: seq<nat>, top: seq<nat>, start: nat, handed: seq<Range>, fragment: seq<nat>)
    requires Handed(code, top, handed, fragment) && |top| == |code|
    ensures Handed(code + [start], top + [start], handed, fragment)
  {
  }

  /** A fresh allocation is none of the fragments. */
  lemma FreshBlock(used: seq<bool>, own: nat, live: map<nat, nat>, b: nat, k: nat)
    requires LiveOk(used, own, live) && FreeRun(used, b, k) && k > 0
    ensures b !in live
  {
    AllocKeepsLive(used, own, live, b, k);
  }

  lemma MorePiece(code: seq<nat>, top: seq<nat>, handed: seq<Range>, fragment: seq<nat>, chunk: nat, base: nat,
                  blockSize: nat, blocks: seq<nat>, live: map<nat, nat>, used: seq<bool>, own: nat, c: nat, size: nat)
    requires Handed(code, top, handed, fragment) && c < |code| == |top| && top[c] + size <= code[c] + chunk
    requires forall f :: 0 <= f < |code| ==> code[f] <= top[f] <= code[f] + chunk
    requires Backed(code, chunk, base, blockSize, blocks, live) && LiveOk(used, own, live)
    ensures Handed(code, top[c := top[c] + size], handed + [Range(top[c], size)], fragment + [c])
  {
    forall i | 0 <= i < |handed| ensures Apart(handed[i], Range(top[c], size)) {
      if fragment[i] != c {
        FragmentsApart(code, chunk, base, blockSize, blocks, live, used, own, fragment[i], c);
      }
    }
    hide Backed, LiveOk;
  }
}
