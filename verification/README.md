# Jem/JX kernel: models and proofs

Dafny models of the parts of the Jem/JX kernel Java virtual machine (`kjvm/trunk`) and of the kernel
configuration module (`kcfg/trunk`) whose correctness does not show in any single function, with proofs
of what they are meant to guarantee. `dafny verify dfyconfig.toml` verifies the whole project with
Dafny 4.11.

Pointers are indices or addresses (0 or `NULL` for none). A panic or an exception is an outcome of the
operation. A section that runs with interrupts disabled is one step. Code that changes state is a class
whose methods change their fields in place; what the methods keep is stated on values, so that the lemmas
about it need no heap.

## The files

- `ObjectGraph`, `CopySpec`, `CopyMeaning`, `CopyRetries`, `ScanCopy`, `RecursiveCopy`, `CopyTheorems`: the deep copy of
  an object graph between domains; `CopyMeaning` spells out what `IsCopy` and the costs mean. `ScanCopier` is the variant with a scan pointer, which overwrites the flag words of the
  originals with forwarding pointers and restores them; `RecursiveCopier` is the one with a table. What the
  garbage collector does at each allocation is a parameter; `CopyRetries` is about copying again after it has
  run. `CopyFailures` holds inputs on which they do less than they are meant to.
- `Chunks`, `MemoryObjects`, `MemoryTheorems`: descriptors of memory objects, split and joined in doubly
  linked chains and reclaimed by reference counts.
- `PortalRendezvous`: portal callers and service receivers as steps that may interleave in any way.
- `BlockAllocator`, `CodeArea`: the next-fit bitmap allocator and the bump allocator for code.
- `HashTable`: the chained hash table with its bucket pool.
- `ConfigSyntax`, `ConfigRoundTrip`, `ConfigBuffer`, `ConfigStore`: the configuration store, its parser, reader and
  writer, and the writer's buffer.
- `MethodCloning`, `MethodLookup`, `Loading`: linking and cloning of methods, the search for the method at
  an address, and loading of libraries with all that they need.
- `DomainSlots`, `Subtyping`, `StackGrowth`, `AtomicVariable`: domain handles, the subtype test, the move
  of a stack, and blocking variables.
- `Pointers`: indices as pointers, and going round a table.

## Where the code does less than it is meant to

Each of these is proved, with the exact condition under which the code does what is expected.

- The recursive copier moves `size * elementBytes` bytes of an array although every element occupies a word,
  so arrays of bytes and half-words lose data (`ByteArrayLosesData`); the two copiers agree exactly on graphs
  without such a loss (`CopiersAgree`). An external CPU descriptor is shared by one copier and a panic for
  the other (`SameGraphsCopyable`, `CpuDescriptor`).
- Elements of arrays of arrays go on pointing into the source domain (`ReferencesKeptIff`,
  `NestedLosesReference`, `NestedCopied`).
- An exception in the scan-pointer copier leaves forwarding pointers in the source, unless the root is itself
  what throws or the very first allocation fails (`ScanCopier.CopyReference`, `ThrowsAndForgets`).
- Receivers copy again after a restart, from a quota that the attempt in vain was charged to. A graph that fits
  the quota is safe from a panic under all collectors that find memory at most n times if and only if the quota is
  enough for n + 1 copies (`RetriesSufficeIff`); otherwise both copiers panic under the collector that always runs
  at the last allocation (`ScanStarved`, `RecursiveStarved`, `RestartEatsQuota`).
- Saving a configuration writes the NUL behind a modified line with a comment into the file; when the file is
  read again the line behind it is lost. A store survives saving and loading exactly if names and quoted
  values can be read back and no value stands behind such a line (`RoundTripIff`, `SavingLosesValue`).
- A line that is one or two characters too long for snprintf is cut, and written with a NUL and what the buffer
  held before; a longer one is written from behind the end of the buffer (`ConfigStore.Store.Save`). The values
  survive a cut exactly if it takes only the newline and an empty line follows, or if it is the last line, which
  is then dropped, and gives no value (`CutRoundTripIff`, `LongValueIsLost`).
- The scan for a free domain slot never looks at the last slot of its round, so creation can fail with one
  slot free (`FailsWithFreeSlot`, `FreeSlotMissed`).
- The subtype test knows no interface of arrays; otherwise it follows the rules of checkcast
  (`AgreesWithSpecification`, `ArrayIsNoCloneable`).
- The pruned method search misses exactly the addresses that are in the code of an interface first
  (`PrunedEqualsFull`, `PrunedMissesInterfaces`, `InterfaceMethodMissed`) and panics exactly if it meets a
  library without classes (`FastScan`, `EmptyLibPanics`).
- Cloning panics on a symbol for the offset of a thread field, which linking accepts (`CloneMethod`,
  `ThreadOffsetPanics`), and resolves calls anew: they go elsewhere than those of the original exactly if they
  resolve differently.
- joinAll undoes split3 exactly if the domain does not own a neighbouring link as well
  (`JoinAllUndoesSplit3`, `JoinAllTakesMore`).
- `set` of an atomic variable wakes nobody: threads that wait for the value to change sleep on when it does. All
  waiting stays justified exactly if the value stays or everybody waits for a value that is still not there
  (`AtomicVariable.AtomicVariable.Set`, `SetStrands`).
- `loadLib` of a library that the domain has adds a second entry (`Loading.Domain.LoadLib`).

## Model

| member | source | states |
|---|---|---|
| ScanCopy.ScanCopier.CopyReference | kjvm/trunk/core/portal.c:1398-1433 | For any graph, cyclic or shared: a copy is delivered exactly if everything reachable is supported and fits quota and table and the collector stays idle at as many allocations as there are objects; every other outcome has its reason: a restart or an exception the collector, an exception an atomic variable, a panic a graph that is too large or unsupported. The copy is complete, every flag word of the source is as before, earlier destination objects are untouched, the quota falls by exactly the size of the distinct objects, which lie apart in the memory newly taken; a restart restores the source, an exception does exactly if the root is what throws or nothing could be allocated; it terminates |
| ScanCopy.ScanCopier.CopyRetrying | kjvm/trunk/core/portal.c:631-668 | The receivers' retry loop: it terminates, and the trace of its attempts says what each found, that every attempt in vain paid for exactly as many reachable objects, the root among them, as it made allocations, and how the last one ended: in a copy, or with the reason why not |
| ScanCopy.ScanCopier.CorrectFlags | kjvm/trunk/core/portal.c:1373-1391 | Undoes all forwarding: the source heap is what it was when copying began |
| ScanCopy.ScanCopier.AddToRefTable | kjvm/trunk/core/portal.c:1349-1371 | Saves exactly the overwritten flag word, forwards the original, and refuses only a full table |
| ScanCopy.ScanCopier.CopyShallowReference | kjvm/trunk/core/portal.c:1586-1709 | The word delivered translates the reference: the existing copy of a forwarded object, a new object still to be filled, or what is shared; the invariant of the table and of the new heap area is kept; without a word to deliver it has a reason, and an exception comes from this very reference |
| ScanCopy.ScanCopier.CopyContentReference | kjvm/trunk/core/portal.c:1711-1770 | Completes the object under the mark and leaves all objects completed before it complete, unless there is a reason for the copy to end |
| ScanCopy.ScanCopier.AtMark | kjvm/trunk/core/portal.c:1411-1424 | The mark visits the new objects in the order of their allocation, those added meanwhile included, each once |
| ScanCopy.SweptIsCopy | kjvm/trunk/core/portal.c:1411-1433 | When the mark has met the end, what was copied is exactly what can be reached from the root, and it is a copy of it |
| ScanCopy.MovedKeepsInv | kjvm/trunk/core/portal.c:2046-2091 | Adding one object keeps the table, the layout of the new heap area and the quota equation |
| ScanCopy.UnrestoredIff | kjvm/trunk/core/portal.c:1349-1371 | The source is damaged exactly as long as the table has entries |
| CopySpec.CopyableIff | kjvm/trunk/core/portal.c:1586-1709 | Everything reachable is supported and fits if and only if nothing that is met throws and nothing is too much |
| CopySpec.FailureIsNoCopy | kjvm/trunk/core/portal.c:1411-1432 | The reasons for a failure exclude a copy; what a restart was charged for lies between the root's size and the graph's |
| CopyMeaning.KindIsMasked | kjvm/trunk/include/gc.h:149-173 | The kind is the first byte of the flag word without its low bit |
| CopyMeaning.ReferencesAre | kjvm/trunk/core/portal.c:1980-2044 | A word is a reference exactly in an array whose class name has an L behind its first character, or in an object whose class has the bit of the slot set |
| CopyMeaning.KindsAre | kjvm/trunk/core/portal.c:1443-1584 | Kinds 0x02, 0x16, 0x28 and portals that do not lead home are copied, 0x18 and, by one copier, 0x14 are shared, a portal that leads home becomes the service object, 0x0a throws and any other kind panics |
| CopyMeaning.ReferencesFollow | kjvm/trunk/core/portal.c:2430-2555 | In any copy, a reference to an object that needs a copy became that copy, a reference to an external string is the same, a home portal became the object behind its service, NULL stays NULL |
| CopyMeaning.OthersMove | kjvm/trunk/core/portal.c:2465-2485 | Words that are no references arrive unchanged, but for the words of narrow arrays that the recursive copier cuts at |data| or 2 * |data| bytes |
| CopyMeaning.HeadersFollow | kjvm/trunk/core/portal.c:2046-2091 | Every object copied has one copy of its own, with its class and length and with clean flags, and the result stands for the root |
| CopyMeaning.NothingElse | kjvm/trunk/core/portal.c:1398-1441 | What is copied is the smallest set with the root and all that its members refer to and that needs a copy |
| CopyMeaning.WordsAddUp | kjvm/trunk/include/gc.h:176-217 | A set of objects costs length + 5 for each array, length + 4 for each object, 6 for each portal and 5 for each domain proxy |
| CopyMeaning.CostIsWords | kjvm/trunk/core/portal.c:1398-1441 | What a copy is charged is the cost of the objects copied, and there are as many allocations as objects |
| CopyMeaning.NoOverlap | kjvm/trunk/core/portal.c:2046-2091 | New objects lie in the memory taken, with all of their words, and no byte belongs to two |
| CopyRetries.RetriesSufficeIff | kjvm/trunk/core/portal.c:631-668 | Of a graph that fits the quota: no collector that finds memory at most n times makes the loop panic, if and only if the quota is enough for n + 1 copies |
| CopyRetries.QuotaForRestarts | kjvm/trunk/core/portal.c:631-668 | Quota for one attempt more than the collector finds memory is enough |
| CopyRetries.StarvedPanics | kjvm/trunk/core/portal.c:631-668 | If it is not, the collector that runs at the last allocation of every attempt leads to a panic and nothing else |
| CopyRetries.LossUpTo | kjvm/trunk/core/portal.c:631-668 | Every restart has cost at least the root's size and at most the graph's |
| CopyRetries.RestartsAreRuns | kjvm/trunk/core/portal.c:631-668 | There are as many restarts as the collector has found memory |
| CopyRetries.PanicIff | kjvm/trunk/core/portal.c:631-668 | The loop panics on a graph that fits the quota exactly if the last attempt finds less than the graph costs |
| CopyFailures.ThrowsAndForgets | kjvm/trunk/core/portal.c:1586-1709 | An object that refers to an atomic variable: the exception leaves its flag word overwritten |
| CopyFailures.RestartEatsQuota | kjvm/trunk/core/portal.c:631-639 | One object, quota for it and one restart: a panic |
| CopyFailures.ScanStarved | kjvm/trunk/core/portal.c:631-668 | Runs of the retry loop on any graph whose quota is too small for n restarts: all end in a panic |
| CopyFailures.RecursiveStarved | kjvm/trunk/core/portal.c:631-668 | The same with the other copier |
| CopyFailures.CpuDescriptor | kjvm/trunk/core/portal.c:1586-1709 | A descriptor that one copier shares and the other panics on |
| CopyFailures.NestedLosesReference | kjvm/trunk/core/portal.c:2430-2555 | An array of arrays whose copy points back to the source heap |
| CopyFailures.NestedCopied | kjvm/trunk/core/portal.c:2493-2555 | A run that delivers such a copy, with another object of the destination at the address |
| RecursiveCopy.RecursiveCopier.CopyReference | kjvm/trunk/core/portal.c:1435-1441 | As for the other copier, from a table: a copy exactly if the graph is supported and fits and the collector stays idle, a reason for every other outcome; the copy is complete, its objects lie apart, quota charged exactly, sharing and cycles kept, external strings shared; termination on cyclic graphs |
| RecursiveCopy.RecursiveCopier.CopyRetrying | kjvm/trunk/core/portal.c:631-668 | The same for this copier |
| RecursiveCopy.RecursiveCopier.CopyReferenceInternal | kjvm/trunk/core/portal.c:1443-1584 | The result translates the reference, everything below it is copied or being copied, and nothing copied before changes; without a result there is a reason, and the destination heap is in order |
| RecursiveCopy.RecursiveCopier.CopyObject | kjvm/trunk/core/portal.c:1980-2044 | An object is entered before its slots are followed, and all slots are filled when it is done |
| RecursiveCopy.RecursiveCopier.CopyArray | kjvm/trunk/core/portal.c:2430-2491 | The same for arrays, of references or of numbers |
| RecursiveCopy.DoneIsCopy | kjvm/trunk/core/portal.c:1443-1584 | When no object is incomplete, what was copied is exactly what can be reached, and it is a copy of it |
| CopyTheorems.CopiersAgree | kjvm/trunk/core/portal.c:1398-1584 | What the two copiers build from one graph is isomorphic if and only if no array of narrow elements loses data |
| CopyTheorems.SameGraphsCopyable | kjvm/trunk/core/portal.c:1586-1709 | The scan-pointer copier manages exactly the graphs that the other one manages, minus those with a CPU descriptor |
| CopyTheorems.ReferencesKeptIff | kjvm/trunk/core/portal.c:2430-2555 | All references of a copy stay in the destination if and only if no reachable array of arrays holds an element |
| CopyTheorems.LosslessIff | kjvm/trunk/core/portal.c:2465-2485 | Which arrays survive the recursive copier's memcpy |
| CopyTheorems.ByteArrayLosesData | kjvm/trunk/core/portal.c:2465-2485 | A byte array that does not |
| ObjectGraph.ReachSetUnique | kjvm/trunk/core/portal.c:2013-2040 | A closed set of reachable objects around the root is all that can be reached |
| ObjectGraph.NextBit | kjvm/trunk/core/portal.c:2018-2030 | Shifting through the bytes of a class's reference map visits the bits of the map in slot order |
| MemoryObjects.DescTable.constructor | kjvm/trunk/dom0/zero_Memory_org.c:229-257 | All descriptors but the one for invalid memory are free; the invariant holds |
| MemoryObjects.DescTable.Create | kjvm/trunk/dom0/zero_Memory_org.c:738-756 | A chunk of one region for fresh memory, from the first free descriptor |
| MemoryObjects.DescTable.Split2 | kjvm/trunk/dom0/zero_Memory_org.c:580-624 | The region gives way to two that tile it, linked by the caller; the exact bounds check; the old descriptor forms a dead chain; nothing else changes; the invariant is kept |
| MemoryObjects.DescTable.Split3 | kjvm/trunk/dom0/zero_Memory_org.c:514-570 | The same with three regions |
| MemoryObjects.DescTable.Join | kjvm/trunk/dom0/zero_Memory_org.c:634-669 | Two neighbours give way to one region of their common range |
| MemoryObjects.DescTable.JoinPrevious | kjvm/trunk/dom0/zero_Memory_org.c:1458-1512 | Joins with the region before, or panics, exactly if there is none or the link is not the caller's |
| MemoryObjects.DescTable.JoinNext | kjvm/trunk/dom0/zero_Memory_org.c:1514-1560 | Joins with the region behind; refuses a foreign link, panics without a region |
| MemoryObjects.DescTable.JoinAll | kjvm/trunk/dom0/zero_Memory_org.c:1563-1644 | Joins exactly the maximal run around the region whose links the caller owns, in the layout and in the table |
| MemoryObjects.DescTable.IncRef | kjvm/trunk/dom0/zero_Memory_org.c:220-227 | Counts one reference more and changes nothing else |
| MemoryObjects.DescTable.DecRef | kjvm/trunk/dom0/zero_Memory_org.c:209-218 | The chain is reclaimed exactly if this was the last reference to any of its descriptors; memory is released, as one range, exactly for a live chunk |
| MemoryObjects.DescTable.FreeChunk | kjvm/trunk/dom0/zero_Memory_org.c:330-396 | The loops of the reclamation: all descriptors of an unreferenced chain end on the free list, a live chunk's whole range is given back |
| MemoryObjects.DescTable.ChunkReferenced | kjvm/trunk/dom0/zero_Memory_org.c:334-361 | Looking behind and then in front of a descriptor decides whether any descriptor of its chain is referenced |
| Chunks.ReplaceKeepsInv | kjvm/trunk/dom0/zero_Memory_org.c:514-669 | Replacing a run of regions by others that fill its range keeps every descriptor in exactly one place and linked accordingly |
| Chunks.ReclaimKeepsInv | kjvm/trunk/dom0/zero_Memory_org.c:359-396 | Putting a whole chain on the free list does so too |
| MemoryTheorems.LiveChunkTiles | kjvm/trunk/dom0/zero_Memory_org.c:514-669 | In every reachable state a live chunk is a doubly linked list of valid regions that tile exactly the range first passed to createDZMemory; both ends of a link name one owner |
| MemoryTheorems.SizeIsConserved | kjvm/trunk/dom0/zero_Memory_org.c:514-669 | The sizes of a chunk's regions add up to the size of that range |
| MemoryTheorems.FreeIffMarked | kjvm/trunk/dom0/zero_Memory_org.c:268-328 | A descriptor is on the free list, once, if and only if its valid field is 2 |
| MemoryTheorems.ReleasedOnce | kjvm/trunk/dom0/zero_Memory_org.c:330-396 | Every range is either that of a live chunk or was released exactly once, whole |
| MemoryTheorems.JoinUndoesSplit2 | kjvm/trunk/dom0/zero_Memory_org.c:580-669 | Joining the two halves gives the chunk back |
| MemoryTheorems.JoinAllUndoesSplit3 | kjvm/trunk/dom0/zero_Memory_org.c:1563-1644 | joinAll after split3 gives the chunk back, exactly if the domain owns no neighbouring link |
| MemoryTheorems.JoinAllTakesMore | kjvm/trunk/dom0/zero_Memory_org.c:1563-1644 | A chunk in which joinAll after split3 leaves one region of what were two |
| MemoryTheorems.Run | kjvm/trunk/dom0/zero_Memory_org.c:209-669 | Any run of the operations keeps the invariant |
| PortalRendezvous.Rendezvous.Send | kjvm/trunk/core/portal.c:1104-1292 | A call is queued behind the waiting ones, the receiver is woken exactly if it sleeps, an inactive target changes nothing |
| PortalRendezvous.Rendezvous.Receive | kjvm/trunk/core/portal.c:548-604 | The first waiting caller is taken and its parameters read, or the receiver sleeps because nobody waits |
| PortalRendezvous.Rendezvous.Reply | kjvm/trunk/core/portal.c:790-860 | The reply is written to the caller whose parameters were read, and to no other thread |
| PortalRendezvous.Rendezvous.Finish | kjvm/trunk/core/portal.c:1292-1310 | A caller returns with the reply to its own call |
| PortalRendezvous.Rendezvous.AddSender | kjvm/trunk/core/portal.c:354-400 | Appends to the linked queue |
| PortalRendezvous.Rendezvous.DequeueSender | kjvm/trunk/core/portal.c:404-432 | Takes the first of the queue and keeps the ends of the list right |
| PortalRendezvous.MutualInverses | kjvm/trunk/core/portal.c:597-599 | mostRecentlyCalledBy and blockedInServiceThread are inverse to each other while a call is served |
| PortalRendezvous.ServedAndQueuedOnce | kjvm/trunk/core/portal.c:354-432 | A caller is in at most one queue, there once, and served by at most one receiver, and not both |
| PortalRendezvous.ReadInArrivalOrder | kjvm/trunk/core/portal.c:354-432 | Calls are taken in the order in which they were made, none is passed over |
| PortalRendezvous.NoReceiverSleepsInVain | kjvm/trunk/core/portal.c:1161-1165 | No receiver sleeps while a caller waits for it |
| PortalRendezvous.SendKeeps | kjvm/trunk/core/portal.c:1104-1165 | The step keeps the invariant of all threads, queues and calls |
| PortalRendezvous.TakeKeeps | kjvm/trunk/core/portal.c:560-604 | So does taking a call |
| PortalRendezvous.ReplyKeeps | kjvm/trunk/core/portal.c:821-860 | So does a reply |
| PortalRendezvous.Run | kjvm/trunk/core/portal.c:548-860 | Any interleaving of the steps keeps it |
| BlockAllocator.Allocator.constructor | kjvm/trunk/core/malloc.c:86-140 | Only the blocks of the bitmap itself are used |
| BlockAllocator.Allocator.Alloc | kjvm/trunk/core/malloc.c:350-474 | Delivers the first aligned, free, non-wrapping run from the rotating start on and gives up only if there is none anywhere; terminates; live allocations stay apart, the bitmap and the count of free blocks exact |
| BlockAllocator.Allocator.NextFree | kjvm/trunk/core/malloc.c:201-219 | Skips only blocks at which nothing can be placed |
| BlockAllocator.Allocator.IsFree | kjvm/trunk/core/malloc.c:221-233 | Decides whether the run at the current block is free and does not wrap |
| BlockAllocator.Allocator.MarkUsed | kjvm/trunk/core/malloc.c:164-184 | Marks exactly the run, counts it, and steps behind it cyclically |
| BlockAllocator.Allocator.Malloc | kjvm/trunk/core/malloc.c:315-337 | With k the one number of blocks with size <= k * blockSize < size + blockSize: the first free run of k from the rotating start on is taken, and it fails exactly if there is no free run of k blocks |
| BlockAllocator.Allocator.Free | kjvm/trunk/core/malloc.c:477-548 | A live allocation becomes free again, no other block changes |
| BlockAllocator.DeliveredMeans | kjvm/trunk/core/malloc.c:350-474 | An allocation delivers the address of k blocks that were free and lie inside the memory, and exactly these are used afterwards |
| BlockAllocator.ExhaustedMeans | kjvm/trunk/core/malloc.c:422-446 | A failed search means that every aligned run of k blocks inside the memory holds a used block |
| BlockAllocator.RunMeans | kjvm/trunk/core/malloc.c:221-233 | A run is free exactly if it ends inside the memory and none of its blocks is used |
| BlockAllocator.BlockIsBit | kjvm/trunk/core/malloc.c:164-199 | Block i is bit i % 8, the lowest first, of byte i / 8 |
| BlockAllocator.CountIsSize | kjvm/trunk/core/malloc.c:164-199 | The count of free blocks is the number of unused ones |
| BlockAllocator.MarkRefines | kjvm/trunk/core/malloc.c:177-184 | Setting a bit of a byte is setting one boolean of the array that the bitmap stands for |
| BlockAllocator.UnmarkRefines | kjvm/trunk/core/malloc.c:186-199 | So is clearing one |
| BlockAllocator.AllocKeepsLive | kjvm/trunk/core/malloc.c:164-184 | A free run is apart from all live allocations, and adding it keeps set bits and allocations the same |
| BlockAllocator.NoneAtAll | kjvm/trunk/core/malloc.c:422-446 | A search that has gone once round has tried every block |
| CodeArea.CodeArea.MallocCode | kjvm/trunk/core/malloc.c:584-621 | A piece is handed out exactly if it fits the current fragment, or a fragment is left to take, is large enough and the block allocator can deliver it; pieces lie in the fragments and apart from each other |
| CodeArea.CodeArea.MallocNativeCode | kjvm/trunk/core/malloc.c:829-839 | Delivered exactly if a piece with 16 bytes more is; the address is a multiple of 16 and the code lies inside its piece |
| CodeArea.HandedMeans | kjvm/trunk/core/malloc.c:584-621 | No byte belongs to two pieces, and each lies inside its fragment |
| HashTable.Table.Lookup | kcfg/trunk/hashtable.c:268-316 | Finds the bucket of the key that is equal under comp, with its slot and predecessor, exactly if the map has one; the tag test never fails |
| HashTable.Table.Insert | kcfg/trunk/hashtable.c:320-381 | The map without the equal key, plus the new key and value; out of memory only for a new key and an empty pool; which destructors are called |
| HashTable.Table.Remove | kcfg/trunk/hashtable.c:385-418 | The map without the equal key; the value handed out is one that the value destructor was called on |
| HashTable.Table.Find | kcfg/trunk/hashtable.c:422-436 | Success exactly if the map has an equal key, with its value |
| HashTable.Table.Iterate | kcfg/trunk/hashtable.c:439-489 | Visits all entries in order, or stops behind the first for which the function asks to |
| HashTable.Table.constructor | kcfg/trunk/hashtable.c:108-164 | An empty map and a pool of one block |
| HashTable.VisitsAreTheMap | kcfg/trunk/hashtable.c:439-489 | Going through all slots visits every entry of the map exactly once and nothing else |
| HashTable.CommitUpdate | kcfg/trunk/hashtable.c:336-347 | Updating a bucket keeps links, keys and count |
| HashTable.CommitAdd | kcfg/trunk/hashtable.c:368-381 | So does moving a bucket from the pool into a chain |
| HashTable.CommitRemove | kcfg/trunk/hashtable.c:401-416 | So does moving one back; every bucket stays exactly once in the pool or in a chain |
| ConfigStore.ParseLine | kcfg/trunk/simpleconfig.c:165-243 | The scanning loops compute the meaning of a line, error codes included |
| ConfigStore.ScanUnquoted | kcfg/trunk/simpleconfig.c:209-222 | Counting spaces ahead gives the value without its trailing spaces |
| ConfigStore.Store.CreateCfg | kcfg/trunk/simpleconfig.c:147-302 | What a line does to values, lines and new values; table, lines and new values go on agreeing |
| ConfigStore.Store.SetVal | kcfg/trunk/simpleconfig.c:365-431 | A new value comes first in the list of new ones, an old one marks its line; all goes on agreeing |
| ConfigStore.Store.Save | kcfg/trunk/simpleconfig.c:509-532 | Runs over its buffer exactly if an item has more than BUFSIZE + 1 characters; otherwise it writes the chunks of all items, which are the items exactly if all have less than BUFSIZE |
| ConfigBuffer.Print | kcfg/trunk/simpleconfig.c:511-529 | One or two snprintf into the buffer leave there the item, or what is left of it when it is cut |
| ConfigStore.Store.Load | kcfg/trunk/simpleconfig.c:322-332 | Reading character by character applies the lines of the file in order |
| ConfigStore.StoreRepresents | kcfg/trunk/simpleconfig.c:147-431 | The items of a store give each name exactly once, with its value |
| ConfigStore.StoreRoundTrip | kcfg/trunk/simpleconfig.c:322-532 | Saving and loading into an empty store gives the same values, exactly if the items are savable |
| ConfigStore.CutStoreRoundTrip | kcfg/trunk/simpleconfig.c:322-532 | With lines that are cut, exactly if moreover what is cut does no harm |
| ConfigStore.CommentLosesNextLine | kcfg/trunk/simpleconfig.c:515-518 | A file that loses a value |
| ConfigStore.SavingLosesValue | kcfg/trunk/simpleconfig.c:509-532 | Two lines read, one value set, the store saved and loaded: the other value is lost |
| ConfigRoundTrip.RoundTripIff | kcfg/trunk/simpleconfig.c:322-532 | The same for any items that stand for a map |
| ConfigBuffer.CutRoundTripIff | kcfg/trunk/simpleconfig.c:322-532 | The same with items that are cut |
| ConfigBuffer.ChunksAreRead | kcfg/trunk/simpleconfig.c:322-332 | What a file with cut lines is read as: the items but a last one that is cut, or an overrun of the reader's buffer |
| ConfigBuffer.ChunksAreText | kcfg/trunk/simpleconfig.c:509-532 | The file is what it should be exactly if nothing is cut |
| ConfigBuffer.LongValueIsLost | kcfg/trunk/simpleconfig.c:511-529 | A value of 995 characters that is cut and lost |
| ConfigRoundTrip.ItemsAreRead | kcfg/trunk/simpleconfig.c:322-332 | A written file is read item by item, an item behind a NUL being lost |
| ConfigRoundTrip.LoadedIsReadable | kcfg/trunk/simpleconfig.c:183-243 | Whatever is read has a readable name and no newline |
| ConfigSyntax.QuotedParses | kcfg/trunk/simpleconfig.c:183-243 | A line in the form that is written is read back up to the first quote of its value |
| ConfigSyntax.UnquotedIsRead | kcfg/trunk/simpleconfig.c:185-230 | With any spaces before and behind the name, the equals sign and the value: name and value are what stands between them, and a comment begins at the # or ; behind the value |
| ConfigSyntax.QuotedIsRead | kcfg/trunk/simpleconfig.c:200-229 | A quoted value is what stands between the quotes; only a # or ; right behind the spaces after them begins a comment |
| ConfigSyntax.OpenQuoteIsRefused | kcfg/trunk/simpleconfig.c:203-209 | A quote that is not closed is error 5 |
| ConfigSyntax.OtherLines | kcfg/trunk/simpleconfig.c:166-183 | Only spaces is a blank line, # or ; behind spaces a comment, [ a section, which needs a space or ] to end |
| ConfigSyntax.NoEqualsSign | kcfg/trunk/simpleconfig.c:184-198 | Anything but an equals sign behind a name and spaces is error 4; names hold letters, digits, points and underscores |
| ConfigStore.CommentBehindValue | kcfg/trunk/simpleconfig.c:226-229 | The comment kept with a line is what begins behind its value, or none |
| ConfigStore.CommentBehindQuotes | kcfg/trunk/simpleconfig.c:226-229 | The same behind a quoted value |
| ConfigStore.CommentLine | kcfg/trunk/simpleconfig.c:166-183 | A comment line is kept as a comment from its first character on; blank lines and sections have none |
| ConfigRoundTrip.CommentGrows | kcfg/trunk/simpleconfig.c:512-518 | A modified line reads back as its name and value and as a comment that holds the old one behind "# MODIFIED " |
| Subtyping.CheckAssign | kjvm/trunk/core/vmsupport.c:490-517 | Terminates on any acyclic hierarchy and decides assignability |
| Subtyping.ImplementsInterface | kjvm/trunk/core/vmsupport.c:462-482 | Is reachability over superclass and interface edges |
| Subtyping.IsSubinterfaceOf | kjvm/trunk/core/vmsupport.c:443-460 | Is equality or reachability from the superclass |
| Subtyping.IsSubclassOf | kjvm/trunk/core/vmsupport.c:426-441 | Is reachability over superclass edges |
| Subtyping.EdgesReach | kjvm/trunk/core/vmsupport.c:426-482 | A class reaches itself, its superclass and each of its interfaces |
| Subtyping.ReachesNoMore | kjvm/trunk/core/vmsupport.c:443-482 | Everything reached lies in every set around the class that superclass and interface edges do not leave |
| Subtyping.SubclassNoMore | kjvm/trunk/core/vmsupport.c:426-441 | The same for superclass edges alone |
| Subtyping.ReachesTransitive | kjvm/trunk/core/vmsupport.c:443-482 | What is reached from what is reached is reached |
| Subtyping.SubclassTransitive | kjvm/trunk/core/vmsupport.c:426-441 | The same for superclass edges alone |
| Subtyping.AssignableReflexive | kjvm/trunk/core/vmsupport.c:490-517 | Assignability is reflexive |
| Subtyping.AssignableTransitive | kjvm/trunk/core/vmsupport.c:490-517 | Assignability is transitive across classes, interfaces and arrays |
| Subtyping.AssignableIsReachable | kjvm/trunk/core/vmsupport.c:490-517 | For classes and interfaces it is reachability |
| Subtyping.AgreesWithSpecification | kjvm/trunk/core/vmsupport.c:490-517 | It follows the rules of checkcast in section 6.5 of the Java Virtual Machine Specification, exactly if no array stands against an interface of arrays |
| Subtyping.ArrayIsNoCloneable | kjvm/trunk/core/vmsupport.c:490-517 | An array and an interface of arrays on which it does not |
| MethodCloning.CloneMethod | kjvm/trunk/core/load.c:2616-2631 | Calls of the clone reach what they resolve to when it is made, which is the absolute target of the original exactly if both resolve alike modulo 2^32; jumps reach the same offset, untouched sites and all other bytes are the same; it fails exactly on a thread field symbol |
| MethodCloning.ThreadOffsetPanics | kjvm/trunk/core/load.c:2254-2631 | Code that can be linked but not cloned |
| MethodCloning.PatchSymbols | kjvm/trunk/core/load.c:2254-2614 | After patching every site holds what its symbol asks for, and no byte outside the sites has changed |
| MethodCloning.PatchConstant | kjvm/trunk/core/load.c:1973-1981 | The four bytes of the value modulo 2^32, the lowest first, and no other byte changes |
| MethodCloning.LinkedMeans | kjvm/trunk/core/load.c:2254-2614 | By number of the symbol type: after linking, calls lead to their targets, addresses and offsets are in place, jumps lead to their offsets, chunk sizes are one byte |
| MethodCloning.ClonedMeans | kjvm/trunk/core/load.c:2254-2631 | The same for a clone, in which addresses of classes, strings, the current thread and event data, and chunk sizes, are as in the original |
| MethodCloning.SitesAre | kjvm/trunk/core/load.c:2254-2614 | Only the places of present symbols are patched, and which types cloning leaves alone |
| MethodCloning.PanicsAre | kjvm/trunk/core/load.c:2254-2614 | The symbol types with which linking, or cloning, stops |
| MethodCloning.CallLands | kjvm/trunk/core/load.c:1983-1987 | A patched relative address leads to its target modulo 2^32 from wherever the code stands |
| MethodCloning.JumpLands | kjvm/trunk/core/load.c:2201-2209 | A patched jump lands at its offset inside the code |
| MethodLookup.FullScan | kjvm/trunk/core/domain.c:264-302 | Finds the first method that contains the address, with bytecode position and line |
| MethodLookup.Domain.FastScan | kjvm/trunk/core/domain.c:303-389 | Does the same for all classes but interfaces, in spite of bounds kept from an earlier class, or panics, exactly if an empty library comes before any such class that contains the address |
| MethodLookup.FastInLib | kjvm/trunk/core/domain.c:314-387 | One library of it |
| MethodLookup.PrunedEqualsFull | kjvm/trunk/core/domain.c:252-395 | The two searches agree on an address exactly if no interface is the first class that contains it |
| MethodLookup.PrunedMissesInterfaces | kjvm/trunk/core/domain.c:252-395 | On code as the loader lays it out, exactly if no interface contains it |
| MethodLookup.InterfaceMethodMissed | kjvm/trunk/core/domain.c:311-315 | A method that only the full search finds |
| MethodLookup.EmptyLibPanics | kjvm/trunk/core/domain.c:305-308 | A domain on which the pruned search panics |
| MethodLookup.AnswerIsUnique | kjvm/trunk/core/domain.c:252-395 | What a search has to deliver is determined, position and line included |
| MethodLookup.FoundMeans | kjvm/trunk/core/domain.c:264-389 | The method found holds the address, its first byte included and the end excluded |
| MethodLookup.FoundIsFirst | kjvm/trunk/core/domain.c:264-389 | No method before it in the order of the search does |
| MethodLookup.NotFoundMeans | kjvm/trunk/core/domain.c:264-389 | If nothing is found, no method that is looked at holds the address |
| MethodLookup.PosMeans | kjvm/trunk/core/domain.c:233-250 | The position is that of the first table entry around the offset, both ends included, or -1 |
| MethodLookup.LineMeans | kjvm/trunk/core/domain.c:280-294 | The line is that of the first entry that the position lies in, before the next one, or -1 |
| MethodLookup.FindByteCodePosition | kjvm/trunk/core/domain.c:233-250 | The first table entry that covers the offset |
| MethodLookup.SetCodeStart | kjvm/trunk/core/load.c:2213-2231 | Code stands at the sums of the sizes before it, in class and method order, which is the layout that the pruned search needs |
| Loading.Domain.LoadLib | kjvm/trunk/core/load.c:1149-1186 | Adds exactly the missing libraries that are required, each once and behind all that it needs, keeps earlier entries, terminates on acyclic needs, and fails exactly if the missing ones are too many or a number does not fit; a library that is there gets a second entry |
| Loading.RequiresNeeded | kjvm/trunk/core/load.c:1149-1186 | A library requires itself, what it needs and what that requires |
| Loading.RequiresNoMore | kjvm/trunk/core/load.c:1149-1186 | And nothing else: all of it lies in every set that has the library and all that its members need |
| Loading.NeededIsEarlier | kjvm/trunk/core/load.c:1149-1186 | In a list that is in order all that a library needs has an earlier place |
| Loading.Domain.FindLib | kjvm/trunk/core/load.c:674-686 | The search in the list |
| Loading.Domain.FindLibByIndex | kjvm/trunk/core/load.c:662-673 | The index delivers what the search would |
| DomainSlots.Domains.Create | kjvm/trunk/core/domain.c:62-96 | A fresh id and the first free slot from the cursor on; success exactly if one of the first n - 1 slots is free |
| DomainSlots.AheadMeans | kjvm/trunk/core/domain.c:72-84 | A free slot among the first n - 1 from the cursor on, round the table, is enough |
| DomainSlots.AheadFound | kjvm/trunk/core/domain.c:72-84 | And it is needed |
| DomainSlots.FirstFreeMeans | kjvm/trunk/core/domain.c:72-84 | The slot taken is free, so many places from the cursor, which is left behind it |
| DomainSlots.NoneBefore | kjvm/trunk/core/domain.c:72-84 | No slot before it is free |
| DomainSlots.Domains.SetState | kjvm/trunk/core/domain.c:643 | A domain's state changes and its id stays |
| DomainSlots.Domains.Release | kjvm/trunk/core/domain.c:717-718 | The slot can be used again, its id is gone for good |
| DomainSlots.HandlesSurviveReuse | kjvm/trunk/dom0/zero_Domain.c:26-47 | A handle passes the check exactly while the domain it was made for is there and active, however often the slot was reused |
| DomainSlots.NoForgedHandle | kjvm/trunk/core/portal.c:1008-1018 | No pair of slot and id that was not handed out passes the check |
| DomainSlots.FailsWithFreeSlot | kjvm/trunk/core/domain.c:72-84 | When creation fails although a slot is free |
| DomainSlots.FreeSlotMissed | kjvm/trunk/core/domain.c:72-84 | Two slots, the second one released: creation fails |
| AtomicVariable.AtomicVariable.BlockIf | kjvm/trunk/dom0/zero_AtomicVariable.c:51-89 | A thread blocks, as the first of the list, exactly if its condition holds |
| AtomicVariable.AtomicVariable.UpdateUnblock | kjvm/trunk/dom0/zero_AtomicVariable.c:18-49 | Wakes all threads of the list with the new value, and no other |
| AtomicVariable.AtomicVariable.Set | kjvm/trunk/dom0/zero_AtomicVariable.c:8-11 | Keeps all waiting justified exactly if the value stays or everybody waits for another value than the new one |
| AtomicVariable.SetStrands | kjvm/trunk/dom0/zero_AtomicVariable.c:8-11 | A thread that sleeps on although the value has changed |
| AtomicVariable.NoLostWakeUp | kjvm/trunk/dom0/zero_AtomicVariable.c:18-89 | In every reachable state a thread is blocked exactly if it is on the list, there once, and its condition still holds |
| StackGrowth.IncCurrentStack | kjvm/trunk/core/thread.c:109-161 | The frame walk on the new stack is the old one, shifted; a word changes exactly if it is the link of a frame of the walk and not 0, by the distance of the move; all others are copied |
| StackGrowth.WalkFollowsLinks | kjvm/trunk/core/thread.c:128-142 | The walk goes from the first frame to where each frame's word points, until that is 0 |
| StackGrowth.WalkIsShifted | kjvm/trunk/core/thread.c:128-142 | Moving the links by one distance moves the walk by it |

## Left out

- Copying of memory proxies, CPU states and thread proxies, and the promotion of objects to portals: the
  graphs are taken to hold none of them.
- The garbage collector: whether it runs at an allocation and finds memory is a parameter; what it moves is not
  modelled, and new objects of an attempt in vain stay in the destination heap. Checks of the remaining stack
  are left out.
- Width of machine words: addresses, sizes, ids and counts are unbounded, except for the 32-bit arithmetic of
  patched code.
- ScanCopy.ScanCopier.CopyReference: nothing is said about the destination after a panic, or about the source then.
- Assertions that are compiled in only for debugging are not outcomes.
- MemoryObjects.DescTable.Split2: with too few free descriptors the original waits for a collection; the model
  checks beforehand and reports exhaustion, as do Split3, Join, JoinAll and Create.
- memory_revoke, memorySetValid and sub-ranges of memory objects.
- In the rendezvous: removal of a waiting caller, aborted calls, termination of the caller, interceptors, thread
  pools, calls inside one domain, and the scheduler, of which only the changes of thread states are kept.
- BlockAllocator.Allocator.constructor: memory whose number of blocks is no multiple of 8; the original's bitmap does
  not cover the last ones of such memory.
- BlockAllocator.Allocator.Alloc: alignment is divisibility, which the mask of the original is for powers of two.
- BlockAllocator.Allocator.Malloc: the original lacks a return statement; the model delivers what the inner function does.
- Statistics, profiling and the kinds of memory of the allocator.
- HashTable: deletion of a table, calls on a missing table, and growing of the slot table, which the original does
  not implement.
- ConfigStore: watchers, types of values, iteration, reset and failing memory allocation; the hash table under the
  store is used as the map that `HashTable` shows it to be.
- ConfigStore.Store.Save: what is written from behind the buffer's end is not modelled; a negative size for the second
  snprintf counts as leaving the buffer.
- ConfigStore.CutStoreRoundTrip: takes the last two places of the buffer to hold no newline at first; they are
  uninitialised in the original.
- MethodCloning: exception tables, and which address a class, string or static field symbol resolves to; string
  symbols resolve to a new string in each clone.
- MethodLookup: the search over all domains.
- DomainSlots: ids that wrap round after 2^32 creations, and the lock that creation keeps when it fails.
- AtomicVariable: the mode with a single blocked thread, and threads that are woken by other means.
- StackGrowth: the switch to the new stack itself.
- Overlapping array copies, regular expressions, the command line, devices and the test programs.
