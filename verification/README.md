# Dawn: allocators, command streams, layouts, trackers and protocols

A model in Dafny of the parts of Dawn, a WebGPU implementation, that keep intricate state, and proofs of what they
promise. `dafny verify dfyconfig.toml` checks all of it.

Code that updates objects is modelled as classes and loops whose contracts refer to functions on plain values; the
theorems are about these functions and hold for every input or every run.

| files | what they model |
|---|---|
| `Math.dfy`, `BitSetIterator.dfy`, `Collections.dfy` | powers of two, alignment by bit masks, iteration over bit sets; shared definitions |
| `BuddyModel.dfy`, `BuddyInvariant.dfy`, `BuddyTheorems.dfy`, `BuddyExample.dfy`, `BuddyCounting.dfy` | the buddy system as a value: a tree of block states and one free list per level |
| `BuddyAllocator.dfy`, `BuddyCountingHeap.dfy` | the linked blocks and intrusive doubly linked free lists, proved against that value |
| `BuddyMemory.dfy`, `BuddyMemoryClient.dfy`, `BuddyMemoryAllocator.dfy` | reference-counted heaps on top of the buddy system, and what their callers see |
| `SlabModel.dfy`, `SlabTheorems.dfy`, `SlabLayout.dfy`, `SlabAllocator.dfy` | slabs on three lists, free lists linked by index inside a slab, address arithmetic |
| `CommandStream.dfy`, `CommandAllocator.dfy`, `CommandRoundTrip.dfy` | writing commands into growing blocks and reading them back, over several allocators |
| `BindingOrder.dfy`, `BindingCounts.dfy`, `LayoutValidation.dfy`, `BindGroupLayout.dfy`, `BindGroup.dfy` | validating, sorting, counting and packing of bindings, equality of layouts, memory of a bind group |
| `BindGroupTracker.dfy`, `StateTracker.dfy` | lazy caches compared with doing everything again |
| `CopyArithmetic.dfy`, `TextureCopies.dfy` | byte ranges of copies between buffers and textures, and the checks before them |
| `BufferMapping.dfy`, `MappingLaws.dfy`, `MappedBuffer.dfy` | mapping of buffers with callbacks that call back into the buffer |
| `AsyncTasks.dfy` | asynchronous tasks and reference counts under all interleavings |

Where the code does not keep what its comments or assertions say, the model follows the code. There is then an
equivalence, for all inputs, that says exactly when the code does keep it, and an input that shows it where the
equivalence does not already name them all:

- The comment above `GetNextFreeAlignedBlock` (src/dawn_native/BuddyAllocator.cpp:66-68) suggests that an aligned free
  block is found if there is one. Only list heads are examined: `AlignedRequestCanBeRefused`, `GrantedIff`.
- `ComputeLevelFromBlockSize` rounds sizes down, so a size that is not a power of two gets a block that is too small:
  `ThreeBytesGetTwo`, `GrantedSize`.
- A failed heap creation (src/dawn_native/BuddyMemoryAllocator.cpp:71) does not give back the buddy block:
  `FailureCanExhaust`, `GivenBackIsWholeIff`.
- Slabs of more than 32768 blocks are not initialised correctly: `NodesReachableIff`.
- The size of a slab's allocation is too small when the 32-bit product of block count and stride wraps
  (src/common/SlabAllocator.cpp:70): `BigSlabIsTooSmall`, `StoredSizeSufficesIff`.
- `NextCommand` asserts a bound for `sizeof(commandSize)`, not for `commandSize` (src/dawn_native/CommandAllocator.h:126).
  Both bounds hold on every stream that was written.
- `SetIndexBuffer` does not forget the remembered index aspect: `IndexFormatChangeIsMissed`, `AcceptsIff`,
  `FormatKeptAgrees`.
- The assertions that a layout has at most `kMaxBindingsPerPipelineLayout` bindings (src/dawn_native/BindGroupLayout.cpp:389,
  src/dawn_native/BindGroup.cpp:279) do not follow from validation, because of bindings that no stage sees; up to four of
  these are harmless: `BoundReached`, `LimitsBoundBindingsIff`.
- `UnmapInternal` forgets a request accepted inside its own callback, and undoes a Destroy made there:
  `NestedMapIsDropped`, `DropsIff`, `DestroyInUnmapIsUndone`, `RevivedIff`.

Two functions have limits when taken alone that their callers keep them away from. For an empty buffer the test for a
fully overwritten buffer can say no (`EmptyBufferIsMissed`, `OverwrittenIff`), and the overflow assertion inside `Align`
can fail for the default stride of a row near 2^32 bytes (`DefaultStrideExactIff`). Backends skip empty copies, and a
copy's range is checked against a texture within the limits first; then the test is exact (`OverwrittenExact`,
`PerformedCopyExact`) and the assertion holds (`DefaultStrideHolds`).

What comes from outside is a parameter: the addresses that `malloc` and `operator new` return, the answer of the heap
allocator, whether the backend's MapAsyncImpl fails, whether the device is lost, and the order in which threads and
callbacks proceed. The binding state of the encoder in `BindGroupTracker.dfy` follows "Pipeline Layout Compatibility" in
the Vulkan specification. Copies follow "validating linear texture data" in the section "Image Copies", and mapping
follows the section "Buffer Mapping", of the W3C WebGPU specification.

## Model

| member | source | states |
|---|---|---|
| `BuddyInvariant.AllocateInv` | src/dawn_native/BuddyAllocator.cpp:139-200 | Allocate keeps the invariant: full binary tree whose inner nodes are the split blocks, each level list exactly the free leaves of that level once each, no two free buddies; a granted block becomes the one new live block, a refusal changes nothing |
| `BuddyInvariant.CarveInv` | src/dawn_native/BuddyAllocator.cpp:156-199 | splitting down to a level and taking the left block keeps the invariant and adds exactly one live block |
| `BuddyInvariant.CoalesceInv` | src/dawn_native/BuddyAllocator.cpp:229-249 | merging stops at the right level: the invariant holds again although one pair of buddies was free in between |
| `BuddyInvariant.ReleaseInv` | src/dawn_native/BuddyAllocator.cpp:202-250 | releasing a live block keeps the invariant and removes exactly that live block |
| `BuddyTheorems.LeavesTile` | src/dawn_native/BuddyAllocator.cpp:156-193 | in every state each byte of [0, max) lies in exactly one leaf |
| `BuddyTheorems.LeavesApart` | src/dawn_native/BuddyAllocator.cpp:167-179 | two leaves never overlap |
| `BuddyTheorems.DescendFindsLeaf` | src/dawn_native/BuddyAllocator.cpp:209-219 | the search of Deallocate ends at the one leaf that holds the offset |
| `BuddyTheorems.GrantedBlock` | src/dawn_native/BuddyAllocator.cpp:139-200 | a granted range is aligned, inside [0, max) and disjoint from every live range |
| `BuddyTheorems.GrantedSize` | src/dawn_native/BuddyAllocator.cpp:52-57 | the granted block holds the request if and only if the size is a power of two (the level is a floor logarithm) |
| `BuddyExample.ThreeBytesGetTwo` | src/dawn_native/BuddyAllocator.cpp:52-57 | a request for 3 bytes is granted a block of 2 |
| `BuddyTheorems.GrantedIff` | src/dawn_native/BuddyAllocator.cpp:59-92 | for every power-of-two alignment, exactly when a request is granted: some level has a free block as large as the alignment, or a list of smaller blocks whose head is aligned |
| `BuddyTheorems.ServedByDeepest` | src/dawn_native/BuddyAllocator.cpp:70-92 | for every size and alignment the granted block has the requested level and lies at the start of the first block of the deepest list, at or above that level, that starts aligned |
| `BuddyTheorems.RefusedIffNothingFits` | src/dawn_native/BuddyAllocator.cpp:139-154 | with alignment <= size a request is refused if and only if no free block is large enough |
| `BuddyExample.AlignedRequestCanBeRefused` | src/dawn_native/BuddyAllocator.cpp:84-90 | a reachable state where alignment > size: the request is refused although an aligned free block of the right size exists, because only list heads are examined |
| `BuddyTheorems.ReleaseUndoesCarve` | src/dawn_native/BuddyAllocator.cpp:156-249 | merging after releasing the carved block ends at the block that was split, with all lists as before |
| `BuddyTheorems.RoundTrip` | src/dawn_native/BuddyAllocator.cpp:139-250 | Allocate followed by Deallocate of its offset restores the tree and every free list in order |
| `BuddyTheorems.SplitHasLive` | src/dawn_native/BuddyAllocator.cpp:229-247 | maximal coalescing: below every split block there is a live block |
| `BuddyTheorems.LiveDeterminesTree` | src/dawn_native/BuddyAllocator.cpp:139-250 | states with the same live blocks have the same tree and the same members on every list, whatever the order of calls |
| `BuddyTheorems.ReleasesCommute` | src/dawn_native/BuddyAllocator.cpp:202-250 | releasing two live blocks in either order gives the same tree and the same members on every list |
| `BuddyTheorems.NothingLiveIsInitial` | src/dawn_native/BuddyAllocator.cpp:22-30 | with no live block the allocator is the single free root again |
| `BuddyTheorems.Run` | src/dawn_native/BuddyAllocator.cpp:139-250 | every state reached by legal calls satisfies the invariant |
| `BuddyTheorems.RunSafety` | src/dawn_native/BuddyAllocator.cpp:139-250 | after any run live ranges are pairwise disjoint, and if nothing is live the allocator is as it started |
| `BuddyTheorems.FreeAllInAnyOrder` | src/dawn_native/BuddyAllocator.cpp:202-250 | after any run, deallocating the live blocks by their offsets, in any order, leads back to the single free root with its lists |
| `BuddyHeap.BuddyAllocator.constructor` | src/dawn_native/BuddyAllocator.cpp:22-30 | the heap represents the single free root |
| `BuddyHeap.BuddyAllocator.InsertFreeBlock` | src/dawn_native/BuddyAllocator.cpp:98-114 | the block becomes the head of its doubly linked list; other lists keep their links |
| `BuddyHeap.BuddyAllocator.RemoveFreeBlock` | src/dawn_native/BuddyAllocator.cpp:116-137 | the block is unlinked from any position; every non-head block has the right pPrev although a new head keeps a stale one |
| `BuddyHeap.BuddyAllocator.GetNextFreeAlignedBlock` | src/dawn_native/BuddyAllocator.cpp:59-92 | the deepest level at or above the requested one whose head is aligned, or none |
| `BuddyHeap.BuddyAllocator.ComputeLevelFromBlockSize` | src/dawn_native/BuddyAllocator.cpp:52-57 | the level of a size, within the number of lists |
| `BuddyHeap.BuddyAllocator.SplitBlock` | src/dawn_native/BuddyAllocator.cpp:161-193 | one iteration of the splitting loop is the splitting step on the abstract state |
| `BuddyHeap.BuddyAllocator.TakeBlock` | src/dawn_native/BuddyAllocator.cpp:195-199 | taking the block off its list and marking it allocated |
| `BuddyHeap.BuddyAllocator.Allocate` | src/dawn_native/BuddyAllocator.cpp:139-200 | the linked structure refines the abstract Allocate; returns the granted offset or kInvalidOffset |
| `BuddyHeap.BuddyAllocator.FindBlock` | src/dawn_native/BuddyAllocator.cpp:202-224 | the object found is the leaf that holds the offset, at its level |
| `BuddyHeap.BuddyAllocator.MergeBlocks` | src/dawn_native/BuddyAllocator.cpp:230-247 | one iteration of the merging loop is the merging step on the abstract state |
| `BuddyHeap.BuddyAllocator.MergeBuddies` | src/dawn_native/BuddyAllocator.cpp:229-249 | the merging loop and the final insertion are the abstract coalescing |
| `BuddyHeap.BuddyAllocator.Deallocate` | src/dawn_native/BuddyAllocator.cpp:202-250 | the linked structure refines the abstract Release of the live block at the offset |
| `BuddyCounting.TreeCountIsListTotal` | src/dawn_native/BuddyAllocator.cpp:38-50 | in every state the recursive count of free blocks equals the total length of all free lists |
| `BuddyCountingHeap.ComputeNumOfFreeBlocks` | src/dawn_native/BuddyAllocator.cpp:42-50 | the recursion over the objects is the count over the abstract tree |
| `BuddyCountingHeap.ComputeTotalNumOfFreeBlocks` | src/dawn_native/BuddyAllocator.cpp:38-40 | the result is the total length of the free lists |
| `BuddyMemory.AllocateKeepsInv` | src/dawn_native/BuddyMemoryAllocator.cpp:40-86 | every sub-allocation lies in one heap; each refcount is the number of live returned sub-allocations of that heap; a heap is held exactly while its refcount is positive; also when heap creation fails |
| `BuddyMemory.DeallocateKeepsInv` | src/dawn_native/BuddyMemoryAllocator.cpp:88-104 | the same after giving back a sub-allocation |
| `BuddyMemory.AnswerIff` | src/dawn_native/BuddyMemoryAllocator.cpp:40-86 | for alignments up to the rounded size: Invalid, which changes nothing, if and only if the size is 0, larger than a heap, or no free buddy block is large enough; an error if and only if a block is granted, no live sub-allocation uses its heap, and none can be created; without creation a returned range is in a heap already held |
| `BuddyMemory.FailsIff` | src/dawn_native/BuddyMemoryAllocator.cpp:62-73 | for every alignment: the call fails if and only if a block is granted, no live sub-allocation uses its heap, and none can be created |
| `BuddyMemory.SubAllocationFits` | src/dawn_native/BuddyMemoryAllocator.cpp:53-86 | a returned range is inside its heap, at least as large as asked for, and aligned |
| `BuddyMemory.UsersApart` | src/dawn_native/BuddyMemoryAllocator.cpp:81-85 | live sub-allocations of one heap do not overlap inside it |
| `BuddyMemory.AllocateThenDeallocate` | src/dawn_native/BuddyMemoryAllocator.cpp:40-104 | giving back what was just returned restores the whole allocator, heaps included |
| `BuddyMemory.AllGivenBack` | src/dawn_native/BuddyMemoryAllocator.cpp:88-104 | with everything given back no heap is held, and the buddy system is whole if and only if no block is leaked |
| `BuddyMemory.GivenBackIsWholeIff` | src/dawn_native/BuddyMemoryAllocator.cpp:62-104 | over every run with everything given back: the buddy system is as it started if and only if no call needed a heap that could not be created |
| `BuddyMemory.FailedCall` | src/dawn_native/BuddyMemoryAllocator.cpp:62-73 | a failed heap creation changes nothing but the buddy system, which loses a block of the rounded size |
| `BuddyMemory.FailureCanExhaust` | src/dawn_native/BuddyMemoryAllocator.cpp:62-73 | one failed creation in an allocator of one heap, of any size: nothing is in use, yet every later request is refused |
| `BuddyMemory.LeaksCountFailures` | src/dawn_native/BuddyMemoryAllocator.cpp:62-73 | each failed heap creation leaks exactly one buddy block, for good |
| `BuddyMemory.Run` | src/dawn_native/BuddyMemoryAllocator.cpp:40-104 | the invariant over every run of legal calls, failures included |
| `BuddyMemoryClient.AnswerLocates` | src/dawn_native/BuddyMemoryAllocator.cpp:79-85 | the block offset is the start of its heap in the whole system plus the memory offset returned, and the range asked for lies inside the heap |
| `BuddyMemoryClient.AnswerHeap` | src/dawn_native/BuddyMemoryAllocator.cpp:60-79 | the heap returned is the one already in use for that part of the system, or else the one just created |
| `BuddyMemoryClient.DestroysIff` | src/dawn_native/BuddyMemoryAllocator.cpp:88-104 | giving back destroys a heap if and only if that was its last sub-allocation, and then that heap |
| `BuddyMemoryClient.RangesApart` | src/dawn_native/BuddyMemoryAllocator.cpp:40-104 | over every run the ranges that callers hold in the same heap, as given in the answers, are pairwise disjoint and inside the heap |
| `BuddyMemoryClient.HeapsDestroyedIff` | src/dawn_native/BuddyMemoryAllocator.cpp:40-104 | over every run no heap is destroyed twice, and the heaps destroyed are exactly those from answers whose ranges have all been given back |
| `BuddyMemoryHeap.BuddyMemoryAllocator.constructor` | src/dawn_native/BuddyMemoryAllocator.cpp:22-33 | starts in the abstract initial state |
| `BuddyMemoryHeap.BuddyMemoryAllocator.GetMemoryIndex` | src/dawn_native/BuddyMemoryAllocator.cpp:35-38 | the index of the heap a block offset lies in, within the tracked heaps |
| `BuddyMemoryHeap.BuddyMemoryAllocator.Allocate` | src/dawn_native/BuddyMemoryAllocator.cpp:40-86 | the object refines the abstract Allocate, for any answer of the heap allocator; blocks that join its buddy system are new objects |
| `BuddyMemoryHeap.BuddyMemoryAllocator.Deallocate` | src/dawn_native/BuddyMemoryAllocator.cpp:88-104 | the object refines the abstract Deallocate; the heap is returned when its refcount drops to 0; no block joins its buddy system |
| `SlabModel.AllocateInv` | src/common/SlabAllocator.cpp:174-190 | each slab is on exactly one of the three lists, full ones exactly on the full list, each free list the duplicate-free complement of the live blocks; Allocate turns exactly one free block live |
| `SlabModel.DeallocateInv` | src/common/SlabAllocator.cpp:192-214 | the same invariant; exactly that block becomes free, and a full slab moves to the recycled list |
| `SlabTheorems.AllocateCounts` | src/common/SlabAllocator.cpp:174-190 | one more live block, and one more slab exactly when all slabs were full |
| `SlabTheorems.DeallocateCounts` | src/common/SlabAllocator.cpp:192-214 | one live block less, the same slabs |
| `SlabTheorems.Run` | src/common/SlabAllocator.cpp:174-246 | every state reached by legal calls satisfies the invariant and the bound on the peak |
| `SlabTheorems.SlabsMatchPeak` | src/common/SlabAllocator.cpp:216-246 | after any run the number of slabs is the peak number of live objects divided by the slab size, rounded up |
| `SlabTheorems.ActiveSlabStays` | src/common/SlabAllocator.cpp:174-190 | allocation goes on in the same slab until that is full |
| `SlabTheorems.FreedBlockComesFirst` | src/common/SlabAllocator.cpp:174-214 | a block given back to that slab is the next one taken, and the whole allocator is as before |
| `SlabTheorems.NoThrashing` | src/common/SlabAllocator.cpp:192-214 | giving back blocks of other slabs, full ones included, does not change which block comes next |
| `SlabTheorems.RecycledAreSwappedIn` | src/common/SlabAllocator.cpp:216-230 | without an available slab all recycled ones become available, and a new slab starts with block 0 |
| `SlabLayout.LayoutFacts` | src/common/SlabAllocator.cpp:60-75 | the computed offsets and stride are multiples of the alignments they are used with |
| `SlabLayout.BlocksAligned` | src/common/SlabAllocator.cpp:232-240 | all objects and nodes of an aligned slab are aligned |
| `SlabLayout.BlocksApartAndInside` | src/common/SlabAllocator.cpp:60-75 | slab header, objects and nodes are pairwise disjoint and fit in an allocation of the slab's extent plus its alignment, wherever its base lies, for any number of blocks |
| `SlabLayout.StoredSizeSufficesIff` | src/common/SlabAllocator.cpp:67-72 | an allocation of the stored size, whose product is taken in 32 bits, holds all blocks if and only if the product does not wrap |
| `SlabLayout.BigSlabIsTooSmall` | src/common/SlabAllocator.cpp:67-72 | 32768 blocks of 128 KiB: the blocks do not fit in the stored size |
| `SlabLayout.SlabsApart` | src/common/SlabAllocator.cpp:232-245 | blocks of different slabs are disjoint |
| `SlabLayout.ObjectLeadsToSlab` | src/common/SlabAllocator.cpp:192-198 | the slab address computed from an object and its index is the owning slab |
| `SlabLayout.NodeToNode` | src/common/SlabAllocator.cpp:91-96 | moving by an index difference leads from node to node, within the signed 16-bit range |
| `SlabLayout.NodesReachableIff` | src/common/SlabAllocator.cpp:237-243 | initialisation reaches every node if and only if a slab has at most 32768 blocks (offsets are signed 16-bit) |
| `SlabHeap.Prepend` | src/common/SlabAllocator.cpp:147-154 | the slab becomes first on the sentinel's list |
| `SlabHeap.Splice` | src/common/SlabAllocator.cpp:156-172 | the slab is taken off whichever list it is on |
| `SlabHeap.PopFront` | src/common/SlabAllocator.cpp:130-145 | the head of the index-linked free list is taken; the rest is the list |
| `SlabHeap.PushFront` | src/common/SlabAllocator.cpp:114-128 | the node becomes the head of the free list |
| `SlabHeap.SlabAllocator.constructor` | src/common/SlabAllocator.cpp:60-75 | for any sizes with power-of-two alignments: three empty lists over the computed layout, with the 32-bit product; the object is valid if and only if a slab has 1 to 32768 blocks and the product does not wrap |
| `SlabHeap.SlabAllocator.GetNewSlab` | src/common/SlabAllocator.cpp:216-246 | swaps in the recycled slabs or creates a slab whose blocks are all free in increasing order |
| `SlabHeap.SlabAllocator.Allocate` | src/common/SlabAllocator.cpp:174-190 | the linked slabs refine the abstract Allocate; the address returned is that of the block taken |
| `SlabHeap.SlabAllocator.BlocksPlaced` | src/common/SlabAllocator.cpp:231-245 | in every state two different blocks, of the same slab or of two, have disjoint objects and nodes, clear of both headers |
| `SlabHeap.SlabAllocator.ObjectPlaced` | src/common/SlabAllocator.cpp:174-245 | in every state a live object is aligned, inside its own allocation, and disjoint from every slab header, every node and every other object |
| `SlabHeap.SlabAllocator.AllocateObject` | src/common/SlabAllocator.cpp:174-190 | the pointer returned belongs to a block that was not live, is aligned, inside its allocation and clear of all headers, nodes and other objects |
| `SlabHeap.SlabAllocator.Locate` | src/common/SlabAllocator.cpp:192-198 | the address arithmetic finds the node and the owning slab of a live object |
| `SlabHeap.SlabAllocator.Deallocate` | src/common/SlabAllocator.cpp:192-214 | the linked slabs refine the abstract Deallocate |
| `CommandStream.AlignmentOkIff` | src/dawn_native/CommandAllocator.h:191-199 | the supported alignments are the powers of two up to 8 |
| `CommandStream.RecordExtent` | src/dawn_native/CommandAllocator.h:218-242 | id, padding, command, padding and next id fit in the command size plus the worst-case allowance |
| `CommandStream.IdInBlock` | src/dawn_native/CommandAllocator.h:109-139 | every id and every command lies inside its block |
| `CommandStream.AppendOk` | src/dawn_native/CommandAllocator.h:229-240 | writing an id at the cursor appends one record and keeps all earlier ones and all end tags |
| `CommandStream.TagOk` | src/dawn_native/CommandAllocator.cpp:184-190 | the end tag at the cursor closes the last block and disturbs nothing |
| `CommandStream.AddBlockOk` | src/dawn_native/CommandAllocator.cpp:207-221 | a new block continues the stream |
| `CommandStream.ConcatOk` | src/dawn_native/CommandAllocator.cpp:60-73 | streams of several allocators with disjoint blocks form one stream with the items of all, in order |
| `CommandStream.FillKeepsStream` | src/dawn_native/CommandAllocator.h:156-188 | overwriting a command's own bytes never disturbs a byte of an id or end tag |
| `CommandMemory.CommandAllocator.constructor` | src/dawn_native/CommandAllocator.cpp:128-130 | an empty stream in the one-word stand-in block |
| `CommandMemory.CommandAllocator.CursorAligned` | src/dawn_native/CommandAllocator.h:206-217 | the cursor is aligned with room for one end tag in every state |
| `CommandMemory.CommandAllocator.Allocate` | src/dawn_native/CommandAllocator.h:206-242 | appends exactly one item at the returned aligned address inside the block; null if and only if it does not fit and the size overflows or malloc fails; a new block has exactly the size asked for; only the cursor word and the new block's first word are written |
| `CommandMemory.CommandAllocator.WriteRecord` | src/dawn_native/CommandAllocator.h:231-239 | the case where the command fits |
| `CommandMemory.CommandAllocator.AllocateInNewBlock` | src/dawn_native/CommandAllocator.cpp:184-205 | the same with a new block of exactly the next size; the termination measure shows that Allocate is re-entered at most once |
| `CommandMemory.CommandAllocator.GetNewBlock` | src/dawn_native/CommandAllocator.cpp:207-221 | sizes double up to 16384 or the minimum; the new block has room for the request |
| `CommandMemory.BlockSizes` | src/dawn_native/CommandAllocator.cpp:207-210 | the blocks have 4, 8 and then always 16 KiB for commands that need no more than 4 KiB; larger ones than 16 KiB get a block of just their size |
| `CommandMemory.CommandAllocator.AcquireBlocks` | src/dawn_native/CommandAllocator.cpp:173-182 | hands over all blocks, each with an end tag |
| `CommandMemory.CommandIterator.constructor` | src/dawn_native/CommandAllocator.cpp:29-31 | an empty iterator |
| `CommandMemory.CommandIterator.Reset` | src/dawn_native/CommandAllocator.cpp:86-99 | back to the first item; an iterator without blocks reads its own end tag |
| `CommandMemory.CommandIterator.NextCommandId` | src/dawn_native/CommandAllocator.h:107-120 | the next id across block boundaries, inside the block's bounds; false exactly at the end, and then back at the start |
| `CommandMemory.CommandIterator.NextCommandIdInNewBlock` | src/dawn_native/CommandAllocator.cpp:75-84 | the same from the end of a block |
| `CommandMemory.CommandIterator.NextCommand` | src/dawn_native/CommandAllocator.h:124-131 | the address where the command was written; the asserted bound holds, and so does the bound for the whole command |
| `CommandMemory.CommandIterator.NextData` | src/dawn_native/CommandAllocator.h:133-140 | the address of the additional data; both assertions hold |
| `CommandMemory.CommandIterator.AcquireCommandBlocks` | src/dawn_native/CommandAllocator.cpp:60-73 | the contents are those of all allocators in order |
| `CommandMemory.ReadAll` | src/dawn_native/CommandAllocator.h:36-50 | the reading loop yields the ids at the addresses they were written to, in order, over all blocks and allocators, and ends back at the start |
| `CommandRoundTrip.WriteKeepsWorld` | src/dawn_native/CommandAllocator.h:206-242 | a write of one allocator leaves the streams of all others intact, and all blocks stay disjoint |
| `CommandRoundTrip.FillKeepsWorld` | src/dawn_native/CommandAllocator.h:156-188 | overwriting any bytes of a command of one allocator disturbs no byte of an id or end tag of any allocator |
| `CommandRoundTrip.DoWrite` | src/dawn_native/CommandAllocator.h:206-242 | among several allocators, exactly one item is appended to one of them, or nothing when no memory was found |
| `CommandRoundTrip.ReadBack` | src/dawn_native/CommandAllocator.cpp:60-99 | the blocks of all allocators, taken over and read, give the items of the first, then of the second, and so on |
| `CommandRoundTrip.WriteThenRead` | src/dawn_native/CommandAllocator.h:107-242 | any interleaving of writes and fills over any number of allocators in one memory, then taking over and reading: exactly the ids of the successful writes come back, at their addresses, allocator by allocator in order of writing; a write succeeds whenever malloc has a large enough place for it |
| `DawnMath.BitAndZeroPowerOfTwo` | src/common/Math.cpp:82-85 | the bit trick recognises exactly the powers of two |
| `DawnMath.NextPowerOfTwoIsLeast` | src/common/Math.cpp:74-80 | the least power of two not below the argument |
| `DawnMath.AlignBitsIsAlign` | src/common/Math.h:55-62 | the bit trick computes the alignment without overflow |
| `DawnMath.AlignIsLeast` | src/common/Math.h:55-70 | the least multiple not below the value |
| `DawnMath.Pow2Log2` | src/common/Math.cpp:52-72 | the logarithm of a power of two |
| `BitSets.RoundUpIsAlign` | src/common/BitSetIterator.h:28-32 | roundUp is the least multiple not below the value |
| `BitSets.BitSetIterator.constructor` | src/common/BitSetIterator.h:89-97 | starts at the least set bit, or equal to end() if there is none |
| `BitSets.BitSetIterator.Advance` | src/common/BitSetIterator.h:99-105 | drops exactly the current bit |
| `BitSets.BitSetIterator.GetNextBit` | src/common/BitSetIterator.h:117-131 | the least remaining bit across words; equal to end() exactly when none remains |
| `BitSets.VisitAll` | src/common/BitSetIterator.h:60-65 | the iteration visits exactly the set bits in increasing order and ends |
| `BindingOrder.CompareIsKeyOrder` | src/dawn_native/BindGroupLayout.cpp:259-338 | the comparator is the lexicographic order of one key, although it looks at different members for different kinds of bindings |
| `BindingOrder.StrictTotalOrder` | src/dawn_native/BindGroupLayout.cpp:259-338 | irreflexive, asymmetric, transitive, and deciding between any two different binding numbers |
| `BindingOrder.DefaultsKeepOrder` | src/dawn_native/BindGroupLayout.cpp:223-257 | filling in default view dimensions does not change the order |
| `BindingOrder.SortedUnique` | src/dawn_native/BindGroupLayout.cpp:370-372 | given entries have exactly one sorted sequence, whatever the sorting algorithm |
| `BindingOrder.SortBindingsSorts` | src/dawn_native/BindGroupLayout.cpp:369-372 | sorting gives a sorted permutation |
| `BindingCounts.CounterIncrement` | src/dawn_native/BindingInfo.cpp:47-100 | adding an entry increments exactly the counters of the properties it has |
| `BindingCounts.AccumulateAgrees` | src/dawn_native/BindingInfo.cpp:102-122 | accumulated counts are the counts of all entries together |
| `BindingCounts.CountsPermuted` | src/dawn_native/BindGroupLayout.cpp:155-182 | counts at validation, in descriptor order, are the counts of the sorted layout |
| `BindingCounts.CountsUnique` | src/dawn_native/BindingInfo.cpp:47-100 | counters are determined by the entries |
| `LayoutValidation.ValidateBindGroupLayoutDescriptor` | src/dawn_native/BindGroupLayout.cpp:34-182 | accepted if and only if the binding numbers differ, every entry passes the checks of its kind, of its stages and of its format, and the numbers of entries with each property are within the limits |
| `LayoutValidation.EntryRules` | src/dawn_native/BindGroupLayout.cpp:66-151 | exactly which entries pass, kind by kind: in particular the vertex stage sees nothing a shader can write to |
| `LayoutValidation.StageBits` | dawn.json:2202-2210 | which stages the bits of a visibility name |
| `LayoutValidation.LimitRules` | src/dawn_native/BindingInfo.cpp:124-217 | the limits in numbers of entries: per stage, where an external texture counts as three sampled textures, a sampler and a uniform buffer, and for dynamic buffers |
| `LayoutValidation.LimitsBoundVisibleBindings` | src/dawn_native/BindingInfo.cpp:124-217 | within the limits, for one layout or several together, bindings that some stage sees number at most kMaxBindingsPerPipelineLayout, and at most 164 if the entries are valid, since the vertex stage sees no storage texture |
| `LayoutValidation.AcceptedBound` | src/dawn_native/BindGroupLayout.cpp:155-182 | an accepted descriptor has at most 164 bindings besides those that no stage sees |
| `LayoutValidation.BoundReached` | src/dawn_native/BindGroupLayout.cpp:155-182 | for every k there is an accepted descriptor with 164 bindings that some stage sees and k that none sees |
| `LayoutValidation.LimitsBoundBindingsIff` | src/dawn_native/BindGroupLayout.cpp:388-389 | accepted descriptors with at most k bindings that no stage sees stay within kMaxBindingsPerPipelineLayout if and only if k is at most 4 |
| `BindGroupLayouts.Packed` | src/dawn_native/BindGroupLayout.cpp:374-388 | in sorted entries the buffers are exactly the first bufferCount and the dynamic ones exactly the first dynamic counts |
| `BindGroupLayouts.DynamicInOrder` | src/dawn_native/BindGroupLayout.cpp:277-285 | dynamic buffers are in increasing binding number |
| `BindGroupLayouts.BindGroupLayoutBase.constructor` | src/dawn_native/BindGroupLayout.cpp:362-390 | builds the layout of the sorted entries |
| `BindGroupLayouts.BindGroupLayoutBase.AddBinding` | src/dawn_native/BindGroupLayout.cpp:374-388 | one iteration; a buffer's index is the number of buffers so far, and its number is not yet in the map |
| `BindGroupLayouts.BindGroupLayoutBase.IsLayoutEqual` | src/dawn_native/BindGroupLayout.cpp:491-506 | compares tokens, infos without their numbers, and maps |
| `BindGroupLayouts.NumbersFacts` | src/dawn_native/BindGroupLayout.cpp:384-386 | the map from binding numbers to indices is inverse to the infos' numbers |
| `BindGroupLayouts.SameBindingsSameLayout` | src/dawn_native/BindGroupLayout.cpp:362-390 | descriptors with the same bindings, up to defaults and order, give identical infos, map and counts |
| `BindGroupLayouts.PermutedEntriesSameLayout` | src/dawn_native/BindGroupLayout.cpp:362-390 | any permutation of the entries gives the identical layout |
| `BindGroupLayouts.UndefinedDimensionIs2D` | src/dawn_native/BindGroupLayout.cpp:223-257 | an undefined view dimension and 2D give identical layouts |
| `BindGroupLayouts.LayoutEqualIff` | src/dawn_native/BindGroupLayout.cpp:491-506 | two built layouts are equal if and only if token and set of bindings agree |
| `BindGroupLayouts.EqualLayoutsHashEqual` | src/dawn_native/BindGroupLayout.cpp:442-461 | equal layouts record the same hash input |
| `BindGroupLayouts.BuiltLayout` | src/dawn_native/BindGroupLayout.cpp:362-390 | in a built layout buffers come first, dynamic ones first among them, as many as the counts say and in increasing binding number |
| `BindGroupLayouts.SpansFillData` | src/dawn_native/BindGroupLayout.cpp:512-541 | the three spans are aligned, disjoint, in order, and end exactly at GetBindingDataSize |
| `BindGroupLayouts.PackedAt` | src/dawn_native/BindGroup.cpp:389-397 | the size of an unverified buffer is at the number of unverified buffers before it |
| `BindGroupLayouts.PackUnverifiedSizes` | src/dawn_native/BindGroup.cpp:389-397 | the loop fills the unverified-size array exactly, in binding order |
| `BindGroupObjects.BuiltLayoutOk` | src/dawn_native/BindGroupLayout.cpp:362-390 | built layouts meet what bind groups rely on |
| `BindGroupObjects.BuiltLayoutFitsIff` | src/dawn_native/BindGroupLayout.cpp:388-389 | layouts built from accepted descriptors with at most k bindings that no stage sees meet the asserted bound if and only if k is at most 4 |
| `BindGroupObjects.ValidateBindGroupDescriptor` | src/dawn_native/BindGroup.cpp:266-331 | accepted if and only if the entries name distinct bindings of the layout, as many as it has, and each passes its type's check; the assertion on the number of bindings fails exactly if there are as many entries as bindings and more than the bit set has bits; otherwise no index exceeds the bit set |
| `BindGroupObjects.EveryBindingSetOnce` | src/dawn_native/BindGroup.cpp:324-329 | acceptance implies that every binding is set by exactly one entry |
| `BindGroupObjects.Construct` | src/dawn_native/BindGroup.cpp:335-397 | every binding is stored once at its index, none stays empty; a buffer has the entry's offset and size, or with kWholeSize all of the buffer behind the offset; the unverified sizes are packed |
| `BindGroupObjects.ValidBufferIff` | src/dawn_native/BindGroup.cpp:78-112 | the checks on a bound buffer accept exactly the ranges that are not empty, inside the buffer, aligned and within the size limits, without overflow |
| `BindGroupObjects.BoundRangesUsable` | src/dawn_native/BindGroup.cpp:335-372 | in a bind group made of accepted entries, every buffer binding refers to such a range of its own buffer |
| `BindGroups.GroupsInheritUpTo` | src/dawn_native/PipelineLayout.cpp:374-383 | the number of leading groups both layouts have with the same layout |
| `BindGroups.BindGroupTracker.constructor` | src/dawn_native/BindGroupTracker.h:104-121 | nothing set, nothing applied |
| `BindGroups.BindGroupTracker.SetDynamicOffsets` | src/dawn_native/BindGroupTracker.h:123-137 | the leading offsets are replaced, the others stay |
| `BindGroups.BindGroupTracker.OnSetBindGroup` | src/dawn_native/BindGroupTracker.h:35-59 | the request is recorded; every group of the applied layout stays up to date or is marked dirty, by object and by object or offsets; nothing is marked when the same group without dynamic offsets is set again |
| `BindGroups.BindGroupTracker.OnSetPipeline` | src/dawn_native/BindGroupTracker.h:61-63 | only the pipeline layout changes |
| `BindGroups.BindGroupTracker.BeforeApply` | src/dawn_native/BindGroupTracker.h:67-92 | every group of the new layout that is not dirty is bound as last set, under a compatible layout, and all groups before it are held; dirty are exactly the groups that were, and those not shared with the last layout |
| `BindGroups.BindGroupTracker.AfterApply` | src/dawn_native/BindGroupTracker.h:95-104 | nothing is dirty and the layout counts as applied |
| `BindGroups.BindGroupTracker.Apply` | src/dawn_native/vulkan/CommandBufferVk.cpp:129-152 | binding only the dirty groups, in increasing order, leaves every group of the layout bound to the last set group and offsets, not disturbed by the binding of others; exactly the groups due are bound |
| `BindGroups.Replay` | src/dawn_native/BindGroupTracker.h:31-104 | over every accepted command sequence, each draw finds the groups last set; lazy application refines eager application |
| `BindGroups.Step` | src/dawn_native/BindGroupTracker.h:31-104 | each command keeps this; a draw right after a draw binds nothing |
| `StateTracker.BufferSizesAtLeastAsBig` | src/dawn_native/CommandBufferStateTracker.cpp:34-46 | all sizes reach the minimum |
| `StateTracker.CommandBufferStateTracker.ValidateOperation` | src/dawn_native/CommandBufferStateTracker.cpp:177-193 | succeeds if and only if each required aspect holds by a full check, or is the index aspect and remembered; an error names a failing aspect; exactly the aspects that hold are remembered |
| `StateTracker.CommandBufferStateTracker.RecomputeLazyAspects` | src/dawn_native/CommandBufferStateTracker.cpp:195-234 | adds exactly the missing aspects that hold |
| `StateTracker.CommandBufferStateTracker.CheckMissingAspects` | src/dawn_native/CommandBufferStateTracker.cpp:236-331 | an error exactly if an aspect is missing, naming the first bad bind group; no UNREACHABLE is reached |
| `StateTracker.CommandBufferStateTracker.FindBadGroup` | src/dawn_native/CommandBufferStateTracker.cpp:279-327 | the error belongs to the first bind group that does not fit |
| `StateTracker.CommandBufferStateTracker.SetPipeline` | src/dawn_native/CommandBufferStateTracker.cpp:361-370 | only the pipeline aspect stays remembered |
| `StateTracker.CommandBufferStateTracker.SetBindGroup` | src/dawn_native/CommandBufferStateTracker.cpp:341-348 | the bind group aspect is forgotten; the others still hold |
| `StateTracker.CommandBufferStateTracker.SetIndexBuffer` | src/dawn_native/CommandBufferStateTracker.cpp:350-354 | the remembered aspects stay, the index aspect too |
| `StateTracker.CommandBufferStateTracker.SetVertexBuffer` | src/dawn_native/CommandBufferStateTracker.cpp:356-359 | more slots: a remembered vertex buffer aspect still holds |
| `StateTracker.CommandBufferStateTracker.ValidateBufferInRange` | src/dawn_native/CommandBufferStateTracker.cpp:85-160 | accepted if and only if every buffer with that step mode holds all elements; no 64-bit overflow |
| `StateTracker.CommandBufferStateTracker.ValidateIndexBufferInRange` | src/dawn_native/CommandBufferStateTracker.cpp:162-175 | accepted if and only if all indices, of 2 or 4 bytes each, fit; no 64-bit overflow |
| `StateTracker.ElementInside` | src/dawn_native/CommandBufferStateTracker.cpp:96-119 | every byte an accepted draw reads from a vertex buffer is inside it |
| `StateTracker.InRangeIff` | src/dawn_native/CommandBufferStateTracker.cpp:85-160 | a vertex buffer is in range if and only if it holds all bytes of all elements |
| `StateTracker.AcceptsIff` | src/dawn_native/CommandBufferStateTracker.cpp:177-193 | over any run, the answer equals a full check unless the index aspect is remembered, no longer holds, and is the only one to fail |
| `StateTracker.OperationRules` | src/dawn_native/CommandBufferStateTracker.cpp:58-83 | what the required aspects of dispatches, draws and indexed draws mean: exactly which bind groups, vertex buffers and index buffer are needed |
| `StateTracker.LastSetCounts` | src/dawn_native/CommandBufferStateTracker.cpp:341-370 | the settings are those of the last operation on each thing |
| `StateTracker.NeverSet` | src/dawn_native/CommandBufferStateTracker.cpp:341-370 | what no operation sets stays unset |
| `StateTracker.FormatKeptAgrees` | src/dawn_native/CommandBufferStateTracker.cpp:177-354 | if only formats that still fit are set behind a remembered one, the answer always equals a full check |
| `StateTracker.IndexFormatChangeIsMissed` | src/dawn_native/CommandBufferStateTracker.cpp:350-354 | a run in which a changed index format goes unnoticed: accepted although the full check fails |
| `StateTracker.Replay` | src/dawn_native/CommandBufferStateTracker.cpp:177-370 | over every run each validation answers as characterised by AcceptsIff |
| `CopyArithmetic.Safe32x32Exact` | src/dawn_native/CommandValidation.cpp:106-111 | the 64-bit product of 32-bit values does not wrap |
| `CopyArithmetic.RequiredExact` | src/dawn_native/CommandValidation.cpp:113-158 | fails if and only if all images together overflow 64 bits; otherwise nothing wraps and the result is the exact size |
| `CopyArithmetic.BlocksMakeRows` | src/dawn_native/CommandValidation.cpp:118-122 | bytes of texel blocks are exactly the bytes of rows |
| `CopyArithmetic.AcceptedIsInside` | src/dawn_native/CommandValidation.cpp:195-251 | acceptance implies that every byte of every copied block is inside the data |
| `CopyArithmetic.AcceptedIffInside` | src/dawn_native/CommandValidation.cpp:195-251 | for copies that are not empty, accepted if and only if the strides suffice, the images do not overflow and all bytes are inside: the bound is tight |
| `CopyArithmetic.ErrorExplains` | src/dawn_native/CommandValidation.cpp:195-251 | an error names a rule that the copy breaks |
| `CopyArithmetic.ApplyDefaultTextureDataLayoutOptions` | src/dawn_native/CommandValidation.cpp:174-193 | fills in the default strides; its assertions hold |
| `CopyArithmetic.DefaultStrideExactIff` | src/dawn_native/CommandValidation.cpp:181-188 | the default stride holds a row, with no overflow in Align, if and only if the row has at most 2^32 - 256 bytes |
| `CopyArithmetic.DefaultsKeepCopy` | src/dawn_native/CommandValidation.cpp:172-193 | defaults change neither the required size nor any address of the copy |
| `CopyArithmetic.AcceptedThenValidated` | src/dawn_native/CommandValidation.cpp:172-251 | an accepted copy stays within bounds once defaults are filled in |
| `CopyArithmetic.OverlapIff` | src/dawn_native/CommandValidation.cpp:99-104 | overlapped if and only if the ranges share an element |
| `CopyArithmetic.OverwrittenIsAll` | src/dawn_native/CommandBuffer.cpp:179-218 | if the test says so, the bytes written are exactly the whole buffer |
| `CopyArithmetic.AllIsOverwritten` | src/dawn_native/CommandBuffer.cpp:179-218 | if the copy writes all of a buffer that is not empty, the test says so |
| `CopyArithmetic.OverwrittenIff` | src/dawn_native/CommandBuffer.cpp:179-218 | the test is exact if and only if the buffer is not empty or there are no gaps |
| `CopyArithmetic.EmptyBufferIsMissed` | src/dawn_native/CommandBuffer.cpp:179-218 | a copy of depth 0 with two rows writes all of an empty buffer, and the test says no |
| `TextureCopies.PhysicalSizeIsAligned` | src/dawn_native/Texture.cpp:620-651 | the physical size of a mip level is its virtual size rounded up to whole blocks, at every level |
| `TextureCopies.TextureSizeRules` | src/dawn_native/Texture.cpp:175-229 | which textures are accepted: sides and layers within the limits, whole blocks, and no mip level below one that is a single texel |
| `TextureCopies.CopyRangeIff` | src/dawn_native/CommandValidation.cpp:297-353 | a copy that is not empty is accepted if and only if each of its texels lies in the mip level, whose sides are those of the texture halved level by level and padded to whole blocks, and it takes whole blocks |
| `TextureCopies.CopyInRange` | src/dawn_native/CommandValidation.cpp:297-353 | a copy in range of a texture within the limits consists of whole blocks, and its rows fit 32 bits: the assertions of the functions above hold for it |
| `TextureCopies.DefaultStrideHolds` | src/dawn_native/CommandValidation.cpp:174-193 | for such copies the overflow assertion inside Align holds, and the default stride holds a row |
| `TextureCopies.DefaultsAreLeast` | src/dawn_native/CommandValidation.cpp:172-193 | afterwards no stride is unspecified: given ones are kept, and the others are the least that hold the copy |
| `TextureCopies.OverwrittenExact` | src/dawn_native/CommandBuffer.cpp:179-218 | for every validated copy with no zero dimension the test for a fully overwritten buffer says yes if and only if every byte is written |
| `TextureCopies.PerformedCopyExact` | src/dawn_native/CommandEncoder.cpp:765-790 | from the checks of the encoder on: the copy stays inside the buffer, and if it is not skipped as empty the test is exact |
| `BufferMapping.StepKeepsInv` | src/dawn_native/Buffer.cpp:182-541 | every step, in any nesting of callbacks: each accepted callback is called once, pending or dropped, and only one of these; the mapped range belongs to the last request and lies in the buffer |
| `BufferMapping.CallbacksOverRuns` | src/dawn_native/Buffer.cpp:298-430 | over every run no callback is called twice, and once the buffer is not Mapped every callback was called or dropped |
| `BufferMapping.CompletionIsOwn` | src/dawn_native/Buffer.cpp:298-312 | a completed task calls its own request's callback or none; success is reported while exactly that range is mapped |
| `BufferMapping.StaleCompletion` | src/dawn_native/Buffer.cpp:539-541 | a stale request id changes nothing |
| `BufferMapping.DropsIff` | src/dawn_native/Buffer.cpp:410-430 | a callback is dropped exactly when Unmap or Destroy resumes after its callback and finds a newer request pending |
| `BufferMapping.PoliteRunsDropNothing` | src/dawn_native/Buffer.cpp:298-430 | if no request is accepted inside the callback of an Unmap or Destroy, then whenever the buffer is not Mapped every callback was called exactly once |
| `BufferMapping.NestedMapIsDropped` | src/dawn_native/Buffer.cpp:410-430 | a run where unmapping and mapping again inside the callback of Unmap loses the second callback |
| `BufferMapping.OrderlyRunsStayDestroyed` | src/dawn_native/Buffer.cpp:182-193 | if Destroy is not called inside the callback of Unmap, a destroyed buffer stays Destroyed |
| `BufferMapping.RevivedIff` | src/dawn_native/Buffer.cpp:410-430 | a buffer leaves the state Destroyed exactly when an Unmap resumes behind a Destroy |
| `BufferMapping.DestroyInUnmapIsUndone` | src/dawn_native/Buffer.cpp:410-430 | a run where destroying inside the callback of Unmap leaves the buffer Unmapped and mappable |
| `BufferMapping.GrantedRange` | src/dawn_native/Buffer.cpp:483-520 | granted if and only if aligned, inside the mapped range and allowed by the mode; then also inside the buffer |
| `MappingLaws.RequestIff` | src/dawn_native/Buffer.cpp:314-353 | a request is accepted if and only if the rules allow it, and then maps the range it asked for, or all behind its offset if it gives no size; otherwise nothing changes |
| `MappingLaws.CreatedMapped` | src/dawn_native/Buffer.cpp:130-171 | a buffer mapped at creation is accessible as a whole, and any other not at all |
| `MappingLaws.AfterUnmap` | src/dawn_native/Buffer.cpp:399-430 | Unmap ends a mapping, now or once its callback has returned, and does nothing otherwise |
| `MappingLaws.AfterDestroy` | src/dawn_native/Buffer.cpp:182-193 | Destroy does its work once, now or once its callback has returned |
| `MappingLaws.AfterReturn` | src/dawn_native/Buffer.cpp:410-430 | what the call that waited for a callback leaves behind |
| `MappingLaws.CompletionReports` | src/dawn_native/Buffer.cpp:298-312 | a pending callback is told Success while its range is mapped, or DeviceLost if the device was lost |
| `MappingLaws.StepReports` | src/dawn_native/Buffer.cpp:298-430 | exactly which steps call a callback, and with which status |
| `MappingLaws.StatusTells` | src/dawn_native/Buffer.cpp:298-430 | over every run each callback was called by a step that explains its status: Success by its own completion, UnmappedBeforeCallback by Unmap, DestroyedBeforeCallback by Destroy, DeviceLost by a lost device or a failing backend; Error is never reported for an accepted request |
| `MappingLaws.LostForGood` | src/dawn_native/Buffer.cpp:298-353 | once the device is lost no request is accepted and every callback is told so |
| `MappedBuffer.BufferBase.constructor` | src/dawn_native/Buffer.cpp:130-171 | unmapped, or mapped at creation as a whole |
| `MappedBuffer.BufferBase.CallMapCallback` | src/dawn_native/Buffer.cpp:298-312 | the callback is marked as called before it runs, and only for the last request |
| `MappedBuffer.BufferBase.ValidateMapAsync` | src/dawn_native/Buffer.cpp:432-481 | success if and only if the range, state, mode and usage allow it; DeviceLost exactly for a lost device |
| `MappedBuffer.BufferBase.APIMapAsync` | src/dawn_native/Buffer.cpp:314-353 | a rejected request changes nothing and is told Error, or DeviceLost if the device is lost; an accepted one gets a new id and its range |
| `MappedBuffer.BufferBase.BeginUnmap` | src/dawn_native/Buffer.cpp:410-419 | UnmapInternal up to the callback |
| `MappedBuffer.BufferBase.APIUnmap` | src/dawn_native/Buffer.cpp:399-408 | no effect unless the device is alive and the buffer mapped |
| `MappedBuffer.BufferBase.BeginDestroy` | src/dawn_native/Buffer.cpp:182-193 | Destroy up to the callback; no effect on a destroyed buffer |
| `MappedBuffer.BufferBase.CanGetMappedRange` | src/dawn_native/Buffer.cpp:483-520 | decides as the specification; a granted range is inside the buffer |
| `MappedBuffer.Step` | src/dawn_native/Buffer.cpp:182-541 | every step of a run, performed on the object with the calls that wait for a callback on a stack, is the step of the protocol |
| `MappedBuffer.Replay` | src/dawn_native/Buffer.cpp:182-541 | over every run, with callbacks nested in any way, the object ends as the protocol says and reports its callbacks in that order; none twice; and if no request is accepted inside Unmap or Destroy, all of them once the buffer is not Mapped |
| `AsyncTasks.StepKeepsInv` | src/dawn_native/AsyncTask.cpp:11-63 | under every interleaving: each reference count is the number of holders (caller, pending map, waiting map, worker), objects without holders were deleted once, live objects have different addresses |
| `AsyncTasks.HolderKeepsAlive` | src/common/RefCounted.cpp:41-74 | an object is alive if and only if someone holds it |
| `AsyncTasks.DeletedOnce` | src/common/RefCounted.cpp:52-74 | over every run an object is deleted exactly when nobody holds it, and never twice |
| `AsyncTasks.TouchesLiveObjects` | src/dawn_native/AsyncTask.cpp:11-63 | over every run a step only touches live objects |
| `AsyncTasks.OwnEntry` | src/dawn_native/AsyncTask.cpp:33-39 | the entry at a live object's address is its own, even if addresses are reused |
| `AsyncTasks.RemovesOwnEntry` | src/dawn_native/AsyncTask.cpp:33-39 | HandleTaskCompletion removes its own entry and never another's |
| `AsyncTasks.WaitsForStoredEvents` | src/dawn_native/AsyncTask.cpp:26-31 | every event waited for has been stored |
| `AsyncTasks.WaitCoversAllTasks` | src/dawn_native/AsyncTask.cpp:41-52 | when WaitAllPendingTasks returns, everything posted before has finished running and its worker has left the manager |
| `AsyncTasks.ManagerCanBeDeleted` | src/dawn_native/Device.cpp:328-388 | once WaitAllPendingTasks has returned and nothing more is posted, no worker runs a task or enters the manager at any later time, whatever is interleaved |
| `AsyncTasks.NoPendingTasksMeansAllRan` | src/dawn_native/AsyncTask.cpp:54-57 | an empty map with an idle main thread means that everything has finished running and all workers have left the manager |
| `AsyncTasks.NothingLeaks` | src/dawn_native/AsyncTask.cpp:59-63 | once the worker is done and the main thread idle, the object was deleted exactly once |
| `AsyncTasks.StuckIsDone` | src/dawn_native/AsyncTask.cpp:11-63 | no deadlock: when nothing can go on, no call is under way and every object was deleted once |
| `AsyncTasks.RunsEnd` | src/dawn_native/AsyncTask.cpp:11-63 | every run without further posts and waits has a bounded number of steps, and one that cannot go on has finished every call and every task |

## Left out

- Destructors, move constructors and move assignments of the allocators and iterators, and `DeleteBlock` on whole trees: releasing memory only.
- 32-bit wrap-around of the offsets inside one block of the slab allocator: sizes are unbounded integers there.
- Wrap-around of `mLastMapID`, of reference counts and of the binding counters: counters are unbounded integers.
- The C++ memory model: each access to a reference count and each critical section is one atomic step.
- Async tasks have no class of their own: the fields that threads update in place are components of one state, since the steps of different threads interleave.
- Several threads calling PostTask or WaitAllPendingTasks at once: one main thread posts and waits, as the comments in src/dawn_native/AsyncTask.cpp:18-21 say.
- The contents of commands, and skipping or freeing of single commands (src/dawn_native/Commands.cpp): command data is opaque here.
- Error buffers and staging buffers of buffers mapped at creation: they do not take part in callbacks.
- Calling Destroy inside the callback of Destroy: the object list's lock is held then, so the model does not allow it.
- Entries with none or several of buffer, sampler, texture, storage texture and external texture set: validation (src/dawn_native/BindGroupLayout.cpp:66-151) rejects them, so an entry holds exactly one.
- Checks of bound resources against their binding's type (src/dawn_native/BindGroup.cpp:36-262) other than those on the range of a buffer: the outcome of all checks is a parameter of `ValidateBindGroupDescriptor`.
- The quality of hashes: only the recorded input is modelled.
- ValidateSyncScopeResourceUsage, copies between textures and LazyClearRenderPassAttachments.
- Float conversions, LinkedList, SerialQueue, SerialMap, RingBufferAllocator and the backends' own allocators.
