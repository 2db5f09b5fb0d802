/** The heap-backed allocator as the program keeps it, on top of the buddy allocator object. */
module BuddyMemoryHeap {
  import opened DawnMath
  import opened BuddyModel
  import opened BuddyHeap
  import opened BuddyMemory
  import opened Collections

  class BuddyMemoryAllocator {
    const mMemoryBlockSize: nat
    const mBuddyBlockAllocator: BuddyAllocator
    var mTrackedSubAllocations: seq<Tracked>

    ghost const blockOrder: nat
    ghost var returned: set<int>
    ghost var leaked: set<int>

    ghost function Model(): Memory
      reads this, mBuddyBlockAllocator
    {
      Memory(mBuddyBlockAllocator.Model(), blockOrder, mTrackedSubAllocations, returned, leaked)
    }

    ghost predicate Valid()
      reads this, mBuddyBlockAllocator, mBuddyBlockAllocator.repr
    {
      && mBuddyBlockAllocator.Valid()
      && mMemoryBlockSize == Pow2(blockOrder)
      && MemoryInv(Model())
    }

    constructor (maxSystemSize: nat, memoryBlockSize: nat)
      requires 0 < memoryBlockSize <= maxSystemSize < 0x1_0000_0000_0000_0000
      requires IsPowerOfTwo(maxSystemSize) && IsPowerOfTwo(memoryBlockSize)
      ensures Valid() && Log2(memoryBlockSize) <= Log2(maxSystemSize)
      ensures Model() == Initially(Log2(maxSystemSize), Log2(memoryBlockSize))
      ensures fresh(mBuddyBlockAllocator) && fresh(mBuddyBlockAllocator.repr)
    {
      var order, bits := Log2(maxSystemSize), Log2(memoryBlockSize);
      HeapCount(maxSystemSize, memoryBlockSize);
      InitiallyInv(order, bits);
      mMemoryBlockSize := memoryBlockSize;
      mBuddyBlockAllocator := new BuddyAllocator(maxSystemSize);
      mTrackedSubAllocations := seq(maxSystemSize / memoryBlockSize, _ => Tracked(0, None));
      blockOrder, returned, leaked := bits, {}, {};
    }

    function GetMemoryIndex(offset: nat): (i: nat)
      requires mMemoryBlockSize == Pow2(blockOrder)
      reads this, mBuddyBlockAllocator
      ensures i == MemoryIndex(Model(), offset)
    {
      DivNonNegative(offset, mMemoryBlockSize);
      offset / mMemoryBlockSize
    }

    /** Bookkeeping for a block the buddy allocator granted. */
    method Track(blockOffset: nat, created: Option<nat>, ghost m: Memory, ghost n: int) returns (r: Result)
      requires mMemoryBlockSize == Pow2(blockOrder) && Model() == m.(buddy := Model().buddy)
      requires MemoryIndex(m, blockOffset) < |m.tracked|
      requires var slot := m.tracked[MemoryIndex(m, blockOffset)]; slot.heap.Some? <==> slot.refcount > 0
      modifies this
      ensures (Model(), r) ==
              AfterGrant(m, old(Model().buddy), n, blockOffset, MemoryIndex(m, blockOffset), created)
    {
      var memoryIndex := GetMemoryIndex(blockOffset);
      if mTrackedSubAllocations[memoryIndex].refcount == 0 {
        if created.None? {
          leaked := leaked + {n};
          return HeapCreationFailed;
        }
        mTrackedSubAllocations := mTrackedSubAllocations[memoryIndex := Tracked(0, created)];
      }
      var slot := mTrackedSubAllocations[memoryIndex];
      mTrackedSubAllocations := mTrackedSubAllocations[memoryIndex := slot.(refcount := slot.refcount + 1)];
      returned := returned + {n};
      assert mTrackedSubAllocations == m.tracked[memoryIndex := slot.(refcount := slot.refcount + 1)];
      return SubAllocated(blockOffset, blockOffset % mMemoryBlockSize, slot.heap.value);
    }

    /** `created` is the heap allocator's answer, should it be asked: None is a failure. */
    method Allocate(allocationSize: nat, alignment: nat, created: Option<nat>) returns (r: Result)
      requires Valid() && alignment >= 1 && IsPowerOfTwo(alignment)
      modifies this, mBuddyBlockAllocator, mBuddyBlockAllocator.repr
      ensures Valid() && old(MemoryInv(Model()))
      ensures (Model(), r) == BuddyMemory.Allocate(old(Model()), allocationSize, alignment, created)
      ensures forall b :: b in mBuddyBlockAllocator.repr && b !in old(mBuddyBlockAllocator.repr) ==> fresh(b)
    {
      ghost var m := Model();
      if 1 <= allocationSize <= Pow2(m.blockOrder) { GrantIsTracked(m, allocationSize, alignment); }
      AllocateKeepsInv(m, allocationSize, alignment, created);
      if allocationSize == 0 {
        return Invalid;
      }
      if allocationSize > mMemoryBlockSize {
        return Invalid;
      }
      var size := NextPowerOfTwo(allocationSize);
      if size > mMemoryBlockSize {
        return Invalid;
      }
      var blockOffset := mBuddyBlockAllocator.Allocate(size, alignment);
      if blockOffset == INVALID_OFFSET {
        return Invalid;
      }
      r := Track(blockOffset, created, m, BuddyModel.Allocate(m.buddy, size, alignment).1.block);
    }

    /** Bookkeeping for giving back the block at an offset. */
    method Untrack(blockOffset: nat, ghost n: int) returns (destroyed: Option<nat>)
      requires mMemoryBlockSize == Pow2(blockOrder)
      requires MemoryIndex(Model(), blockOffset) < |mTrackedSubAllocations|
      requires mTrackedSubAllocations[MemoryIndex(Model(), blockOffset)].refcount > 0
      modifies this
      ensures (Model(), destroyed) ==
              AfterRelease(old(Model()), Model().buddy, n, old(MemoryIndex(Model(), blockOffset)))
    {
      var memoryIndex := GetMemoryIndex(blockOffset);
      var slot := mTrackedSubAllocations[memoryIndex];
      slot := slot.(refcount := slot.refcount - 1);
      destroyed := None;
      if slot.refcount == 0 {
        destroyed := slot.heap;
        slot := slot.(heap := None);
      }
      mTrackedSubAllocations := mTrackedSubAllocations[memoryIndex := slot];
      returned := returned - {n};
    }

    /**
     Give back the sub-allocation whose block is n, named by its offset; answers the heap that is
     destroyed, if any.
     */
    method Deallocate(blockOffset: nat, ghost n: int) returns (destroyed: Option<nat>)
      requires Valid() && n in returned
      requires Level(n) <= mBuddyBlockAllocator.order && Offset(mBuddyBlockAllocator.order, n) == blockOffset
      modifies this, mBuddyBlockAllocator, mBuddyBlockAllocator.repr
      ensures Valid() && old(MemoryInv(Model()))
      ensures (Model(), destroyed) == BuddyMemory.Deallocate(old(Model()), n)
      ensures mBuddyBlockAllocator.repr <= old(mBuddyBlockAllocator.repr)
    {
      ghost var m := Model();
      ReturnedIsTracked(m, n);
      OffsetFindsReturned(m, n);
      DeallocateKeepsInv(m, n);
      destroyed := Untrack(blockOffset, n);
      mBuddyBlockAllocator.Deallocate(blockOffset);
    }
  }

  /** The number of heaps. */
  lemma HeapCount(size: nat, heapSize: nat)
    requires 0 < heapSize <= size && IsPowerOfTwo(size) && IsPowerOfTwo(heapSize)
    ensures Log2(heapSize) <= Log2(size) && Pow2(Log2(heapSize)) == heapSize
    ensures size / heapSize == Pow2(Log2(size) - Log2(heapSize))
  {
    BitAndZeroPowerOfTwo(size);
    BitAndZeroPowerOfTwo(heapSize);
    if Log2(heapSize) > Log2(size) { Pow2Monotone(Log2(size), Log2(heapSize)); }
    Pow2Add(Log2(size) - Log2(heapSize), Log2(heapSize));
    MultipleQuotient(Pow2(Log2(size) - Log2(heapSize)), heapSize);
  }

  lemma MultipleQuotient(q: nat, d: nat)
    requires d >= 1
    ensures q * d / d == q
  {
    DivUnique(q * d, d, q, 0);
  }
}
