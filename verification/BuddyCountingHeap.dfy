/** Counting free blocks over the objects of the tree (src/dawn_native/BuddyAllocator.cpp). */
module BuddyCountingHeap {
  import opened BuddyModel
  import opened BuddyHeap
  import opened BuddyCounting

  /** The number of free blocks at or below a block. */
  method ComputeNumOfFreeBlocks(allocator: BuddyAllocator, block: BuddyBlock, ghost n: int) returns (count: nat)
    requires allocator.Valid() && n in allocator.node && allocator.node[n] == block
    ensures Shape(allocator.Model()) && n in allocator.blocks && count == CountFree(allocator.Model(), n)
    decreases allocator.order + 1 - Level(n)
  {
    assert NodeOk(allocator.Model(), n) && allocator.Linked(n);
    if block.mState == Free {
      return 1;
    } else if block.mState == Split {
      ChildLevel(n);
      assert allocator.Linked(2 * n) && allocator.Linked(2 * n + 1);
      var left := ComputeNumOfFreeBlocks(allocator, block.pPrevOrLeft, 2 * n);
      var right := ComputeNumOfFreeBlocks(allocator, block.pPrevOrLeft.pBuddy, 2 * n + 1);
      return left + right;
    }
    return 0;
  }

  method ComputeTotalNumOfFreeBlocks(allocator: BuddyAllocator) returns (count: nat)
    requires allocator.Valid()
    ensures count == ListTotal(allocator.free)
  {
    count := ComputeNumOfFreeBlocks(allocator, allocator.mRoot, 1);
    TreeCountIsListTotal(allocator.Model());
  }
}
