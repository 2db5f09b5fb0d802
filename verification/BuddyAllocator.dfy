/**
 The buddy allocator as the program keeps it: a tree of linked blocks, and per level an intrusive
 doubly linked list of the free ones (src/dawn_native/BuddyAllocator.{h,cpp}). Each method is
 proved against the corresponding function of BuddyModel.
 */
module BuddyHeap {
  import opened DawnMath
  import opened BuddyModel
  import opened BuddyInvariant
  import opened BuddyTheorems
  import opened Collections

  const INVALID_OFFSET: nat := 0xFFFF_FFFF_FFFF_FFFF

  class BuddyBlock {
    const mOffset: nat
    const mSize: nat
    var pBuddy: BuddyBlock?
    var pParent: BuddyBlock?
    var mState: BlockState
    /** `free.pPrev` and `split.pLeft` share this storage: they are members of one union. */
    var pPrevOrLeft: BuddyBlock?
    var pNext: BuddyBlock?

    /** The block's position in the tree and its level. */
    ghost const position: int
    ghost const level: int

    constructor (size: nat, offset: nat, ghost position: int, ghost level: int)
      ensures mOffset == offset && mSize == size && mState == Free
      ensures pBuddy == null && pParent == null && pPrevOrLeft == null && pNext == null
      ensures this.position == position && this.level == level
    {
      mOffset, mSize, mState := offset, size, Free;
      pBuddy, pParent, pPrevOrLeft, pNext := null, null, null, null;
      this.position, this.level := position, level;
    }
  }

  // ----- One doubly linked list -----

  ghost predicate AllDistinct(q: seq<BuddyBlock>) {
    forall i, j :: 0 <= i < j < |q| ==> q[i] != q[j]
  }

  ghost predicate LinkOk(q: seq<BuddyBlock>, i: int)
    requires 0 <= i < |q|
    reads q
  {
    && q[i].pNext == (if i + 1 < |q| then q[i + 1] else null)
    && (i > 0 ==> q[i].pPrevOrLeft == q[i - 1])
  }

  /** The links of a list. The first block's own pPrev is not constrained: it may be stale. */
  ghost predicate Chain(head: BuddyBlock?, q: seq<BuddyBlock>)
    reads q
  {
    && head == (if q == [] then null else q[0])
    && forall i {:trigger LinkOk(q, i)} :: 0 <= i < |q| ==> LinkOk(q, i)
  }

  method LinkFirst(block: BuddyBlock, head: BuddyBlock?, ghost q: seq<BuddyBlock>)
    requires Chain(head, q) && AllDistinct(q) && block !in q
    modifies block`pPrevOrLeft, block`pNext, q`pPrevOrLeft
    ensures Chain(block, [block] + q)
  {
    block.pPrevOrLeft := null;
    block.pNext := head;
    if head != null {
      head.pPrevOrLeft := block;
    }
    ghost var r := [block] + q;
    forall i | 0 <= i < |r|
      ensures LinkOk(r, i)
    {
      if i > 0 { assert old(LinkOk(q, i - 1)); }
    }
  }

  method Unlink(block: BuddyBlock, head: BuddyBlock?, ghost q: seq<BuddyBlock>, ghost k: nat)
    returns (newHead: BuddyBlock?)
    requires Chain(head, q) && AllDistinct(q) && k < |q| && q[k] == block
    modifies q`pPrevOrLeft, q`pNext
    ensures Chain(newHead, q[..k] + q[k + 1..])
  {
    assert LinkOk(q, k);
    if head == block {
      newHead := block.pNext;
    } else {
      newHead := head;
      var pPrev := block.pPrevOrLeft;
      var pNext := block.pNext;
      pPrev.pNext := pNext;
      if pNext != null {
        pNext.pPrevOrLeft := pPrev;
      }
    }
    ghost var r := q[..k] + q[k + 1..];
    forall i | 0 <= i < |r|
      ensures LinkOk(r, i)
    {
      assert old(LinkOk(q, if i < k then i else i + 1));
    }
  }

  ghost function Positions(q: seq<BuddyBlock>): (p: seq<int>)
    ensures |p| == |q| && forall i :: 0 <= i < |q| ==> p[i] == q[i].position
  {
    seq(|q|, i requires 0 <= i < |q| => q[i].position)
  }

  lemma PositionsWithout(q: seq<BuddyBlock>, k: nat)
    requires k < |q| && NoDup(Positions(q))
    ensures Positions(q[..k] + q[k + 1..]) == Without(Positions(q), q[k].position)
  {
    WithoutAt(Positions(q), k);
    assert Positions(q[..k] + q[k + 1..]) == Positions(q)[..k] + Positions(q)[k + 1..];
  }

  ghost predicate NamedBy(lists: seq<seq<BuddyBlock>>, free: seq<seq<int>>) {
    |free| == |lists| && forall l :: 0 <= l < |free| ==> free[l] == Positions(lists[l])
  }

  lemma NamedAfterSplit(lists: seq<seq<BuddyBlock>>, free: seq<seq<int>>, l: nat, k: nat,
                        left: BuddyBlock, right: BuddyBlock)
    requires NamedBy(lists, free) && l + 1 < |lists| && k < |lists[l]| && NoDup(free[l])
    ensures NamedBy(lists[l := lists[l][..k] + lists[l][k + 1..]][l + 1 := [left, right] + lists[l + 1]],
                    free[l := Without(free[l], lists[l][k].position)]
                        [l + 1 := [left.position, right.position] + free[l + 1]])
  {
    PositionsWithout(lists[l], k);
    assert Positions([left, right] + lists[l + 1]) == [left.position, right.position] + free[l + 1];
  }

  lemma NamedAfterRemove(lists: seq<seq<BuddyBlock>>, free: seq<seq<int>>, l: nat, k: nat)
    requires NamedBy(lists, free) && l < |lists| && k < |lists[l]| && NoDup(free[l])
    ensures NamedBy(lists[l := lists[l][..k] + lists[l][k + 1..]],
                    free[l := Without(free[l], lists[l][k].position)])
  {
    PositionsWithout(lists[l], k);
  }

  lemma NamedAfterInsert(lists: seq<seq<BuddyBlock>>, free: seq<seq<int>>, l: nat, b: BuddyBlock)
    requires NamedBy(lists, free) && l < |lists|
    ensures NamedBy(lists[l := [b] + lists[l]], free[l := [b.position] + free[l]])
  {
    assert Positions([b] + lists[l]) == [b.position] + free[l];
  }

  class BuddyAllocator {
    var mRoot: BuddyBlock
    var mFreeLists: seq<BuddyBlock?>
    const mMaxBlockSize: nat

    ghost const order: nat
    ghost var blocks: map<int, BlockState>
    /** The block object at each position of the tree. */
    ghost var node: map<int, BuddyBlock>
    ghost var repr: set<BuddyBlock>
    /** The blocks on each free list, and their positions. */
    ghost var lists: seq<seq<BuddyBlock>>
    ghost var free: seq<seq<int>>

    ghost function Model(): State
      reads this`blocks, this`free
    {
      State(order, blocks, free)
    }

    // ----- How the objects represent the model -----

    /** What a block's constant fields say. */
    ghost predicate Placed(b: BuddyBlock) {
      && b.level == Level(b.position) <= order
      && b.mOffset == Offset(order, b.position) && b.mSize == Size(order, b.position)
    }

    ghost predicate AllPlaced()
      reads this`repr
    {
      forall b {:trigger Placed(b)} :: b in repr ==> Placed(b)
    }

    ghost predicate Linked(n: int)
      requires n in node && n in blocks && node[n] in repr
      reads this`node, this`blocks, this`repr, repr
    {
      var b := node[n];
      && b.mState == blocks[n]
      && (n > 1 ==> n / 2 in node && Buddy(n) in node && b.pParent == node[n / 2] && b.pBuddy == node[Buddy(n)])
      && (blocks[n] == Split ==> 2 * n in node && b.pPrevOrLeft == node[2 * n])
    }

    ghost predicate TreeWired()
      reads this`mRoot, this`node, this`blocks, this`repr, repr
    {
      && node.Keys == blocks.Keys
      && 1 in node && mRoot == node[1]
      && (forall n :: n in node ==> node[n] in repr && node[n].position == n)
      && (forall b :: b in repr ==> b.position in node && node[b.position] == b)
      && (forall n {:trigger Linked(n)} :: n in node ==> Linked(n))
    }

    ghost predicate ListWired(l: int)
      requires 0 <= l < |lists| == |mFreeLists|
      reads this`lists, this`mFreeLists, lists[l]
    {
      && AllDistinct(lists[l])
      && (forall b :: b in lists[l] ==> b.level == l)
      && Chain(mFreeLists[l], lists[l])
    }

    /** The lists hold objects of the tree. */
    ghost predicate Owned()
      reads this`lists, this`repr
    {
      forall l, b :: 0 <= l < |lists| && b in lists[l] ==> b in repr
    }

    ghost predicate ListsWired()
      reads this`lists, this`mFreeLists, this`repr, repr
    {
      && |lists| == |mFreeLists| && Owned()
      && forall l {:trigger ListWired(l)} :: 0 <= l < |lists| ==> ListWired(l)
    }

    ghost predicate Named()
      reads this`lists, this`free
    {
      NamedBy(lists, free)
    }

    ghost predicate Valid()
      reads this, repr
    {
      && mMaxBlockSize == Pow2(order) && order < 64
      && Inv(Model()) && TreeWired() && ListsWired() && Named() && AllPlaced()
    }

    constructor (maxSize: nat)
      requires 0 < maxSize < 0x1_0000_0000_0000_0000 && IsPowerOfTwo(maxSize)
      ensures Valid() && Model() == Initial(Log2(maxSize)) && fresh(repr)
    {
      mMaxBlockSize := maxSize;
      var root := new BuddyBlock(maxSize, 0, 1, 0);
      var level := Log2(maxSize);
      mRoot := root;
      mFreeLists := [root] + seq(level, _ => null);
      order := level;
      blocks := Initial(level).blocks;
      free := Initial(level).free;
      lists := [[root]] + seq(level, _ => []);
      node := map[1 := root];
      repr := {root};
      new;
      InitialInv(order);
      OrderFacts(maxSize);
      RootWired();
    }

    /** One free root on the list of level 0. */
    lemma RootWired()
      requires node == map[1 := mRoot] && repr == {mRoot} && blocks == Initial(order).blocks
      requires free == Initial(order).free && lists == [[mRoot]] + seq(order, _ => [])
      requires mFreeLists == [mRoot] + seq(order, _ => null)
      requires mRoot.position == 1 && mRoot.level == 0 && mRoot.mOffset == 0 && mRoot.mSize == Pow2(order)
      requires mRoot.mState == Free && mRoot.pNext == null
      ensures TreeWired() && ListsWired() && Named() && AllPlaced()
    {
      assert Placed(node[1]);
      assert Linked(1);
      assert forall l :: 0 < l < |lists| ==> lists[l] == [] && free[l] == [];
      assert LinkOk(lists[0], 0);
      forall l | 0 <= l < |lists|
        ensures ListWired(l)
      {
      }
    }

    /** Lists stay wired as long as they, their heads and their blocks' links do not change. */
    twostate lemma ListsFrame(skip: int)
      requires old(ListsWired()) && |lists| == |old(lists)| == |mFreeLists|
      requires forall l :: 0 <= l < |lists| && l != skip ==>
                 lists[l] == old(lists)[l] && mFreeLists[l] == old(mFreeLists)[l]
      requires forall l, b :: 0 <= l < |lists| && l != skip && b in old(lists)[l] ==>
                 b.pNext == old(b.pNext) && b.pPrevOrLeft == old(b.pPrevOrLeft)
      ensures forall l {:trigger ListWired(l)} :: 0 <= l < |lists| && l != skip ==> ListWired(l)
    {
      forall l | 0 <= l < |lists| && l != skip
        ensures ListWired(l)
      {
        assert old(ListWired(l));
        forall i | 0 <= i < |lists[l]|
          ensures LinkOk(lists[l], i)
        {
          assert old(LinkOk(lists[l], i));
          assert lists[l][i] in old(lists)[l];
        }
      }
    }

    // ----- Free lists -----

    method InsertFreeBlock(block: BuddyBlock, level: nat)
      requires ListsWired() && level < |lists| && block.level == level && block !in lists[level]
      requires block in repr
      requires block.mState == Free
      modifies this`mFreeLists, this`lists, block`pPrevOrLeft, block`pNext, lists[level]`pPrevOrLeft
      ensures ListsWired()
      ensures lists == old(lists)[level := [block] + old(lists)[level]]
    {
      assert ListWired(level);
      LinkFirst(block, mFreeLists[level], lists[level]);
      mFreeLists := mFreeLists[level := block];
      lists := lists[level := [block] + lists[level]];
      forall l, b | 0 <= l < |lists| && l != level && b in old(lists)[l]
        ensures b.pNext == old(b.pNext) && b.pPrevOrLeft == old(b.pPrevOrLeft)
      {
        assert old(ListWired(l));
      }
      ListsFrame(level);
      assert ListWired(level);
    }

    /** All blocks on a list are marked free. */
    ghost predicate AllFree(l: int)
      requires 0 <= l < |lists|
      reads this`lists, lists[l]`mState
    {
      forall b :: b in lists[l] ==> b.mState == Free
    }

    lemma StatesAgree(l: int)
      requires TreeWired() && Owned() && 0 <= l < |lists|
      requires forall b :: b in lists[l] ==> b.position in blocks && blocks[b.position] == Free
      ensures AllFree(l)
    {
      forall b | b in lists[l]
        ensures b.mState == Free
      {
        assert b in repr && Linked(b.position);
      }
    }

    /** A listed block and its neighbours on the list are free. */
    lemma FreeNeighbours(level: nat, k: nat)
      requires ListsWired() && level < |lists| && k < |lists[level]| && AllFree(level)
      ensures var block := lists[level][k];
              && block.mState == Free
              && (k > 0 ==> block.pPrevOrLeft != null && block.pPrevOrLeft.mState == Free)
              && (block.pNext != null ==> block.pNext.mState == Free)
    {
      assert ListWired(level) && LinkOk(lists[level], k);
    }

    method RemoveFreeBlock(block: BuddyBlock, level: nat, ghost k: nat)
      requires ListsWired() && level < |lists| && k < |lists[level]| && lists[level][k] == block && AllFree(level)
      modifies this`mFreeLists, this`lists, lists[level]`pPrevOrLeft, lists[level]`pNext
      ensures ListsWired()
      ensures lists == old(lists)[level := old(lists)[level][..k] + old(lists)[level][k + 1..]]
    {
      FreeNeighbours(level, k);
      assert ListWired(level);
      var newHead := Unlink(block, mFreeLists[level], lists[level], k);
      mFreeLists := mFreeLists[level := newHead];
      lists := lists[level := lists[level][..k] + lists[level][k + 1..]];
      forall l, b | 0 <= l < |lists| && l != level && b in old(lists)[l]
        ensures b.pNext == old(b.pNext) && b.pPrevOrLeft == old(b.pPrevOrLeft)
      {
        assert old(ListWired(l));
      }
      ListsFrame(level);
      assert ListWired(level);
    }

    lemma ListedAreFree(l: int)
      requires Listed(Model(), 0) && Named() && 0 <= l < |lists|
      ensures forall b :: b in lists[l] ==> b.position in blocks && blocks[b.position] == Free
    {
      assert ListOk(Model(), 0, l);
      forall b | b in lists[l]
        ensures b.position in blocks && blocks[b.position] == Free
      {
        var i :| 0 <= i < |lists[l]| && lists[l][i] == b;
        assert free[l][i] == b.position;
        assert free[l][i] in free[l];
      }
    }

    /** Where a free block stands on its list. */
    lemma IndexOf(n: int, l: int) returns (k: nat)
      requires Listed(Model(), 0) && Named() && TreeWired() && ListsWired()
      requires n in blocks && blocks[n] == Free && 0 <= l < |lists| && Level(n) == l && n != 0
      ensures k < |lists[l]| && lists[l][k] == node[n]
    {
      assert ListOk(Model(), 0, l);
      k :| 0 <= k < |free[l]| && free[l][k] == n;
      assert lists[l][k] in lists[l];
    }

    // ----- Allocate -----

    method GetNextFreeAlignedBlock(allocationBlockLevel: nat, alignment: nat) returns (level: int)
      requires Valid() && alignment >= 1 && IsPowerOfTwo(alignment)
      requires allocationBlockLevel <= order
      ensures forall l | 0 <= l < |free| :: free[l] != [] ==> Level(free[l][0]) <= order
      ensures level == NextFreeLevel(Model(), allocationBlockLevel, alignment)
    {
      HeadsOk(Model());
      var ii := 0;
      while ii <= allocationBlockLevel
        invariant 0 <= ii <= allocationBlockLevel + 1
        invariant NextFreeLevel(Model(), allocationBlockLevel, alignment) ==
                  if ii <= allocationBlockLevel then NextFreeLevel(Model(), allocationBlockLevel - ii, alignment)
                  else -1
      {
        var currLevel := allocationBlockLevel - ii;
        var freeBlock := mFreeLists[currLevel];
        assert ListWired(currLevel);
        if freeBlock != null {
          assert freeBlock in lists[currLevel];
          assert Placed(freeBlock);
          if freeBlock.mOffset % alignment == 0 {
            return currLevel;
          }
        }
        ii := ii + 1;
      }
      return -1;
    }

    /** What holds between two iterations of the splitting loop. */
    ghost predicate Splitting(n: int)
      reads this, repr
    {
      && mMaxBlockSize == Pow2(order) && order < 64
      && Shape(Model()) && Listed(Model(), 0) && Coalesced(Model(), n)
      && TreeWired() && ListsWired() && Named() && AllPlaced()
      && n in blocks && blocks[n] == Free
    }

    /** The two halves of a block, linked to it and to each other. */
    method NewBuddies(currBlock: BuddyBlock, ghost n: int, ghost level: int)
      returns (leftChildBlock: BuddyBlock, rightChildBlock: BuddyBlock)
      requires ListsWired() && 2 * n !in node && 2 * n + 1 !in node
      modifies this`node, this`repr
      ensures ListsWired()
      ensures node == old(node)[2 * n := leftChildBlock][2 * n + 1 := rightChildBlock]
      ensures repr == old(repr) + {leftChildBlock, rightChildBlock}
      ensures fresh(leftChildBlock) && fresh(rightChildBlock) && leftChildBlock != rightChildBlock
      ensures leftChildBlock.position == 2 * n && rightChildBlock.position == 2 * n + 1
      ensures leftChildBlock.level == rightChildBlock.level == level
      ensures forall b | b in {leftChildBlock, rightChildBlock} ::
                b.mSize == currBlock.mSize / 2 && b.mState == Free && b.pParent == currBlock
      ensures leftChildBlock.mOffset == currBlock.mOffset && leftChildBlock.pBuddy == rightChildBlock
      ensures rightChildBlock.mOffset == currBlock.mOffset + currBlock.mSize / 2
      ensures rightChildBlock.pBuddy == leftChildBlock
    {
      var nextLevelSize := currBlock.mSize / 2;
      leftChildBlock := new BuddyBlock(nextLevelSize, currBlock.mOffset, 2 * n, level);
      rightChildBlock := new BuddyBlock(nextLevelSize, currBlock.mOffset + nextLevelSize, 2 * n + 1, level);
      rightChildBlock.pParent := currBlock;
      leftChildBlock.pParent := currBlock;
      leftChildBlock.pBuddy := rightChildBlock;
      rightChildBlock.pBuddy := leftChildBlock;
      node := node[2 * n := leftChildBlock][2 * n + 1 := rightChildBlock];
      repr := repr + {leftChildBlock, rightChildBlock};
      ListsFrame(-1);
    }

    method MarkSplit(currBlock: BuddyBlock, leftChildBlock: BuddyBlock)
      requires ListsWired() && forall l :: 0 <= l < |lists| ==> currBlock !in lists[l]
      modifies currBlock`mState, currBlock`pPrevOrLeft
      ensures ListsWired()
      ensures currBlock.mState == Split && currBlock.pPrevOrLeft == leftChildBlock
    {
      currBlock.mState := Split;
      currBlock.pPrevOrLeft := leftChildBlock;
      ListsFrame(-1);
    }

    /** The link updates of one iteration of the splitting loop. */
    method SplitLinks(currBlock: BuddyBlock, level: nat, ghost n: int, ghost k: nat)
      returns (leftChildBlock: BuddyBlock, rightChildBlock: BuddyBlock)
      requires ListsWired() && 2 * n !in node && 2 * n + 1 !in node
      requires level + 1 < |lists| && k < |lists[level]| && lists[level][k] == currBlock && AllFree(level)
      modifies this`mFreeLists, this`lists, this`node, this`repr
      modifies lists[level]`pPrevOrLeft, lists[level]`pNext, lists[level + 1]`pPrevOrLeft, currBlock`mState
      ensures ListsWired()
      ensures lists == old(lists)[level := old(lists)[level][..k] + old(lists)[level][k + 1..]]
                                 [level + 1 := [leftChildBlock, rightChildBlock] + old(lists)[level + 1]]
      ensures node == old(node)[2 * n := leftChildBlock][2 * n + 1 := rightChildBlock]
      ensures repr == old(repr) + {leftChildBlock, rightChildBlock}
      ensures fresh(leftChildBlock) && fresh(rightChildBlock)
      ensures leftChildBlock.position == 2 * n && rightChildBlock.position == 2 * n + 1
      ensures forall b | b in {leftChildBlock, rightChildBlock} :: b.level == level + 1 &&
                b.mSize == currBlock.mSize / 2 && b.mState == Free && b.pParent == currBlock
      ensures leftChildBlock.mOffset == currBlock.mOffset && leftChildBlock.pBuddy == rightChildBlock
      ensures rightChildBlock.mOffset == currBlock.mOffset + currBlock.mSize / 2
      ensures rightChildBlock.pBuddy == leftChildBlock
      ensures currBlock.mState == Split && currBlock.pPrevOrLeft == leftChildBlock
    {
      assert ListWired(level) && ListWired(level + 1);
      assert currBlock in lists[level];
      ghost var p := lists[level + 1];
      RemoveFreeBlock(currBlock, level, k);
      leftChildBlock, rightChildBlock := NewBuddies(currBlock, n, level + 1);
      InsertFreeBlock(rightChildBlock, level + 1);
      InsertFreeBlock(leftChildBlock, level + 1);
      assert [leftChildBlock] + ([rightChildBlock] + p) == [leftChildBlock, rightChildBlock] + p;
      assert ListWired(level);
      forall l | 0 <= l < |lists|
        ensures currBlock !in lists[l]
      {
        assert ListWired(l);
      }
      MarkSplit(currBlock, leftChildBlock);
    }

    lemma BeforeSplit(n: int, level: nat) returns (k: nat)
      requires Splitting(n) && level == Level(n) < order
      ensures |lists| == order + 1 && n >= 1 && 2 * n !in node && 2 * n + 1 !in node
      ensures k < |lists[level]| && lists[level][k] == node[n] && AllFree(level)
      ensures NoDup(free[level]) && lists[level][k].position == n && node[n].level == level
      ensures forall m :: m in blocks && blocks[m] == Split ==>
                node[m] !in lists[level] && node[m] !in lists[level + 1]
      ensures Shape(SplitStep(Model(), n)) && Listed(SplitStep(Model(), n), 0)
      ensures Coalesced(SplitStep(Model(), n), 2 * n)
    {
      var s := Model();
      LeafHasNoChildren(s, n);
      SplitStepShape(s, n);
      SplitStepListed(s, n);
      SplitStepCoalesced(s, n);
      assert NodeOk(s, n) && Placed(node[n]);
      ListedAreFree(level);
      ListedAreFree(level + 1);
      StatesAgree(level);
      k := IndexOf(n, level);
      assert ListOk(s, 0, level);
      forall m | m in blocks && blocks[m] == Split
        ensures node[m] !in lists[level] && node[m] !in lists[level + 1]
      {
        assert node[m].position == m;
      }
    }

    lemma ChildrenPlaced(b: BuddyBlock, left: BuddyBlock, right: BuddyBlock)
      requires b.position >= 1 && Placed(b) && b.level < order
      requires left.position == 2 * b.position && right.position == 2 * b.position + 1
      requires left.level == right.level == b.level + 1
      requires left.mSize == right.mSize == b.mSize / 2
      requires left.mOffset == b.mOffset && right.mOffset == b.mOffset + b.mSize / 2
      ensures Placed(left) && Placed(right)
    {
      Halves(order, b.position);
    }

    lemma PlacedAfterSplit(before: set<BuddyBlock>, b: BuddyBlock, left: BuddyBlock, right: BuddyBlock)
      requires forall c {:trigger Placed(c)} :: c in before ==> Placed(c)
      requires repr == before + {left, right} && b in before && b.position >= 1 && b.level < order
      requires left.position == 2 * b.position && right.position == 2 * b.position + 1
      requires left.level == right.level == b.level + 1
      requires left.mSize == right.mSize == b.mSize / 2
      requires left.mOffset == b.mOffset && right.mOffset == b.mOffset + b.mSize / 2
      ensures AllPlaced()
    {
      assert Placed(b);
      ChildrenPlaced(b, left, right);
    }

    /** Which fields of the old blocks a split may change. */
    twostate predicate SplitFrame(n: int, m: int)
      requires m in node && m in old(node) && m in old(blocks)
      reads this, node[m]
    {
      var b := node[m];
      && b == old(node)[m]
      && b.pParent == old(b.pParent) && b.pBuddy == old(b.pBuddy)
      && (m != n ==> b.mState == old(b.mState))
      && (old(blocks)[m] == Split ==> b.pPrevOrLeft == old(b.pPrevOrLeft))
    }

    /** The tree stays wired when a leaf is replaced by a split block over two new leaves. */
    twostate lemma TreeAfterSplit(n: int, new left: BuddyBlock, new right: BuddyBlock)
      requires old(TreeWired()) && n >= 1 && n in old(node) && old(blocks)[n] == Free
      requires 2 * n !in old(node) && 2 * n + 1 !in old(node)
      requires node == old(node)[2 * n := left][2 * n + 1 := right]
      requires repr == old(repr) + {left, right} && mRoot == old(mRoot)
      requires blocks == old(blocks)[n := Split][2 * n := Free][2 * n + 1 := Free]
      requires left.position == 2 * n && right.position == 2 * n + 1
      requires left.mState == right.mState == Free && left.pParent == right.pParent == node[n]
      requires left.pBuddy == right && right.pBuddy == left
      requires node[n].mState == Split && node[n].pPrevOrLeft == left
      requires forall m {:trigger SplitFrame(n, m)} :: m in old(node) ==> SplitFrame(n, m)
      ensures TreeWired()
    {
      assert node[2 * n] == left && node[2 * n + 1] == right;
      assert Linked(2 * n) && Linked(2 * n + 1);
      forall m | m in old(node)
        ensures Linked(m)
      {
        assert old(Linked(m)) && SplitFrame(n, m);
      }
    }

    /** The tree side of one iteration of the splitting loop. */
    method SplitTree(currBlock: BuddyBlock, level: nat, ghost n: int, ghost k: nat)
      returns (leftChildBlock: BuddyBlock, rightChildBlock: BuddyBlock)
      requires TreeWired() && ListsWired()
      requires n >= 1 && n in node && node[n] == currBlock && blocks[n] == Free
      requires 2 * n !in node && 2 * n + 1 !in node
      requires level + 1 < |lists| && k < |lists[level]| && lists[level][k] == currBlock && AllFree(level)
      requires forall m :: m in blocks && blocks[m] == Split ==>
                 node[m] !in lists[level] && node[m] !in lists[level + 1]
      requires level + 1 < |free|
      modifies this`mFreeLists, this`lists, this`free, this`blocks, this`node, this`repr, repr
      ensures TreeWired() && ListsWired()
      ensures blocks == old(blocks)[n := Split][2 * n := Free][2 * n + 1 := Free]
      ensures free == old(free)[level := Without(old(free)[level], n)]
                               [level + 1 := [2 * n, 2 * n + 1] + old(free)[level + 1]]
      ensures lists == old(lists)[level := old(lists)[level][..k] + old(lists)[level][k + 1..]]
                                 [level + 1 := [leftChildBlock, rightChildBlock] + old(lists)[level + 1]]
      ensures repr == old(repr) + {leftChildBlock, rightChildBlock}
      ensures fresh(leftChildBlock) && fresh(rightChildBlock)
      ensures 2 * n in node && node[2 * n] == leftChildBlock
      ensures leftChildBlock.position == 2 * n && rightChildBlock.position == 2 * n + 1
      ensures leftChildBlock.level == rightChildBlock.level == level + 1
      ensures leftChildBlock.mSize == rightChildBlock.mSize == currBlock.mSize / 2
      ensures leftChildBlock.mOffset == currBlock.mOffset
      ensures rightChildBlock.mOffset == currBlock.mOffset + currBlock.mSize / 2
    {
      leftChildBlock, rightChildBlock := SplitLinks(currBlock, level, n, k);
      blocks := blocks[n := Split][2 * n := Free][2 * n + 1 := Free];
      free := free[level := Without(free[level], n)][level + 1 := [2 * n, 2 * n + 1] + free[level + 1]];
      forall m | m in old(node)
        ensures SplitFrame(n, m)
      {
        assert old(node)[m].position == m;
      }
      TreeAfterSplit(n, leftChildBlock, rightChildBlock);
    }

    /** The heap side of one iteration of the splitting loop. */
    method SplitHeap(currBlock: BuddyBlock, level: nat, ghost n: int, ghost k: nat)
      returns (leftChildBlock: BuddyBlock)
      requires TreeWired() && ListsWired() && AllPlaced() && Named()
      requires n >= 1 && n in node && node[n] == currBlock && blocks[n] == Free
      requires 2 * n !in node && 2 * n + 1 !in node
      requires level + 1 < |lists| && currBlock.level == level < order && NoDup(free[level])
      requires k < |lists[level]| && lists[level][k] == currBlock && AllFree(level)
      requires forall m :: m in blocks && blocks[m] == Split ==>
                 node[m] !in lists[level] && node[m] !in lists[level + 1]
      modifies this`mFreeLists, this`lists, this`free, this`blocks, this`node, this`repr, repr
      ensures TreeWired() && ListsWired() && AllPlaced() && Named()
      ensures blocks == old(blocks)[n := Split][2 * n := Free][2 * n + 1 := Free]
      ensures free == old(free)[level := Without(old(free)[level], n)]
                               [level + 1 := [2 * n, 2 * n + 1] + old(free)[level + 1]]
      ensures 2 * n in node && node[2 * n] == leftChildBlock
      ensures forall b :: b in repr && b !in old(repr) ==> fresh(b)
    {
      ghost var were, before := lists, repr;
      assert currBlock in before && currBlock.position == n;
      var rightChildBlock;
      leftChildBlock, rightChildBlock := SplitTree(currBlock, level, n, k);
      NamedAfterSplit(were, old(free), level, k, leftChildBlock, rightChildBlock);
      PlacedAfterSplit(before, currBlock, leftChildBlock, rightChildBlock);
    }

    /** One iteration of the splitting loop: replace a free block by its two free halves. */
    method SplitBlock(currBlock: BuddyBlock, level: nat, ghost n: int) returns (leftChildBlock: BuddyBlock)
      requires Splitting(n) && node[n] == currBlock && level == Level(n) < order
      modifies this`mFreeLists, this`lists, this`free, this`blocks, this`node, this`repr, repr
      ensures Splitting(2 * n) && Model() == SplitStep(old(Model()), n)
      ensures node[2 * n] == leftChildBlock
      ensures forall b :: b in repr && b !in old(repr) ==> fresh(b)
    {
      ghost var k := BeforeSplit(n, level);
      ghost var t := SplitStep(Model(), n);
      leftChildBlock := SplitHeap(currBlock, level, n, k);
      assert Model() == t;
    }

    /** The heap side of taking a block off its list and marking it allocated. */
    method TakeHeap(currBlock: BuddyBlock, level: nat, ghost n: int, ghost k: nat)
      requires TreeWired() && ListsWired() && n in node && node[n] == currBlock && blocks[n] == Free
      requires level < |lists| && k < |lists[level]| && lists[level][k] == currBlock && AllFree(level)
      requires forall m :: m in blocks && blocks[m] == Split ==> node[m] !in lists[level]
      modifies this`mFreeLists, this`lists, this`blocks, repr
      ensures TreeWired() && ListsWired()
      ensures blocks == old(blocks)[n := Allocated]
      ensures lists == old(lists)[level := old(lists)[level][..k] + old(lists)[level][k + 1..]]
    {
      RemoveFreeBlock(currBlock, level, k);
      label Removed:
      currBlock.mState := Allocated;
      blocks := blocks[n := Allocated];
      ListsFrame@Removed(-1);
      forall m | m in node
        ensures Linked(m)
      {
        assert old(Linked(m)) && old(node[m].position == m);
      }
    }

    lemma BeforeTake(n: int, level: nat) returns (k: nat)
      requires Splitting(n) && level == Level(n)
      ensures |lists| == order + 1 && level <= order
      ensures k < |lists[level]| && lists[level][k] == node[n] && node[n].position == n && NoDup(free[level])
      ensures AllFree(level)
      ensures forall m :: m in blocks && blocks[m] == Split ==> node[m] !in lists[level]
      ensures Inv(Mark(Unlist(Model(), n), n, Allocated))
    {
      TakeInv(Model(), n);
      assert NodeOk(Model(), n);
      ListedAreFree(level);
      StatesAgree(level);
      k := IndexOf(n, level);
      assert ListOk(Model(), 0, level);
      assert forall m :: m in node ==> node[m].position == m;
    }

    method TakeBlock(currBlock: BuddyBlock, level: nat, ghost n: int)
      requires Splitting(n) && node[n] == currBlock && level == Level(n)
      modifies this`mFreeLists, this`lists, this`free, this`blocks, repr
      ensures Valid() && Level(n) < |old(free)| && Model() == Mark(Unlist(old(Model()), n), n, Allocated)
    {
      ghost var k := BeforeTake(n, level);
      ghost var t := Mark(Unlist(Model(), n), n, Allocated);
      TakeHeap(currBlock, level, n, k);
      free := t.free;
      NamedAfterRemove(old(lists), old(free), level, k);
      assert Model() == t;
    }

    function ComputeLevelFromBlockSize(blockSize: nat): (level: nat)
      requires mMaxBlockSize == Pow2(order) && 1 <= blockSize <= mMaxBlockSize
      ensures level == LevelFor(order, blockSize)
    {
      Pow2Log2(order);
      Log2OfBounded(order, blockSize);
      Log2(mMaxBlockSize) - Log2(blockSize)
    }

    method Allocate(allocationSize: nat, alignment: nat) returns (offset: nat)
      requires Valid() && alignment >= 1 && IsPowerOfTwo(alignment)
      modifies this, repr
      ensures Valid()
      ensures old(Inv(Model())) && Model() == BuddyModel.Allocate(old(Model()), allocationSize, alignment).0
      ensures match BuddyModel.Allocate(old(Model()), allocationSize, alignment).1
              case Refused => offset == INVALID_OFFSET
              case Granted(block) => Level(block) <= order && offset == Offset(order, block) != INVALID_OFFSET
      ensures forall b :: b in repr && b !in old(repr) ==> fresh(b)
    {
      if allocationSize == 0 || allocationSize > mMaxBlockSize {
        return INVALID_OFFSET;
      }
      var allocationSizeToLevel := ComputeLevelFromBlockSize(allocationSize);
      var currBlockLevel := GetNextFreeAlignedBlock(allocationSizeToLevel, alignment);
      if currBlockLevel < 0 {
        return INVALID_OFFSET;
      }
      var currBlock, n := StartSplitting(currBlockLevel);
      ghost var s, n0 := Model(), n;
      while currBlockLevel < allocationSizeToLevel
        invariant Splitting(n) && node[n] == currBlock
        invariant n >= 1 && Level(n) == currBlockLevel <= allocationSizeToLevel
        invariant Carve(Model(), n, allocationSizeToLevel) == Carve(s, n0, allocationSizeToLevel)
        invariant Leftmost(n, allocationSizeToLevel) == Leftmost(n0, allocationSizeToLevel)
        invariant forall b :: b in repr && b !in old(repr) ==> fresh(b)
      {
        ChildLevel(n);
        currBlock := SplitBlock(currBlock, currBlockLevel, n);
        n := 2 * n;
        currBlockLevel := currBlockLevel + 1;
      }
      TakeBlock(currBlock, currBlockLevel, n);
      offset := currBlock.mOffset;
      assert Placed(currBlock);
      OffsetBelowInvalid(order, n);
    }

    /** The head of a non-empty list, ready to be split or taken. */
    method StartSplitting(level: nat) returns (head: BuddyBlock, ghost n: int)
      requires Valid() && level <= order && free[level] != []
      ensures n == free[level][0] && n >= 1 && Level(n) == level && Splitting(n) && node[n] == head
    {
      HeadsOk(Model());
      n := free[level][0];
      assert ListWired(level);
      assert ListOk(Model(), 0, level) && n in free[level];
      assert lists[level][0] in lists[level];
      head := mFreeLists[level];
      forall m | m != n && m != Buddy(n)
        ensures NotBothFree(Model(), m)
      {
        if m > 1 { assert m != Buddy(0); }
      }
    }

    // ----- Deallocate -----

    /** What holds between two iterations of the merging loop: n is free but on no list. */
    ghost predicate Coalescing(n: int)
      reads this, repr
    {
      && mMaxBlockSize == Pow2(order) && order < 64
      && Merging(Model(), n)
      && TreeWired() && ListsWired() && Named() && AllPlaced()
    }

    /** Which fields of the remaining blocks a merge may change. */
    twostate predicate MergeFrame(p: int, m: int)
      requires m in node && m in old(blocks)
      reads this, node[m]
    {
      var b := node[m];
      && old(allocated(b))
      && b.pParent == old(b.pParent) && b.pBuddy == old(b.pBuddy)
      && (m != p ==> b.mState == old(b.mState))
      && (old(blocks)[m] == Split ==> b.pPrevOrLeft == old(b.pPrevOrLeft))
    }

    /** The tree stays wired when two leaves under a common parent are deleted. */
    twostate lemma TreeAfterMerge(n: int)
      requires old(TreeWired()) && n > 1 && n in old(node) && Buddy(n) in old(node) && n / 2 in old(node)
      requires forall m :: m in old(node) && m > 1 ==> m / 2 != n && m / 2 != Buddy(n)
      requires old(blocks)[n] != Split && old(blocks)[Buddy(n)] != Split && old(blocks)[n / 2] == Split
      requires node == old(node) - {n, Buddy(n)}
      requires repr == old(repr) - {old(node)[n], old(node)[Buddy(n)]} && mRoot == old(mRoot)
      requires blocks == (old(blocks) - {n, Buddy(n)})[n / 2 := Free]
      requires node[n / 2].mState == Free
      requires forall m {:trigger MergeFrame(n / 2, m)} :: m in node ==> MergeFrame(n / 2, m)
      ensures TreeWired()
    {
      BuddyFacts(n);
      forall m | m in node
        ensures Linked(m)
      {
        assert old(Linked(m)) && MergeFrame(n / 2, m);
        if m > 1 { BuddyFacts(m); }
        if old(blocks)[m] == Split && m != n / 2 {
          assert 2 * m / 2 == m;
        }
      }
    }

    /** The link updates of one iteration of the merging loop; the two buddies are deleted. */
    method MergeLinks(curr: BuddyBlock, level: nat, ghost k: nat) returns (parent: BuddyBlock)
      requires ListsWired() && level < |lists| && k < |lists[level]|
      requires curr.pBuddy == lists[level][k] && curr.pParent != null && AllFree(level)
      requires forall l :: 0 <= l < |lists| ==> curr !in lists[l]
      modifies this`mFreeLists, this`lists, this`repr, lists[level]`pPrevOrLeft, lists[level]`pNext
      modifies (if curr.pParent != null then {curr.pParent} else {})`mState
      ensures ListsWired()
      ensures lists == old(lists)[level := old(lists)[level][..k] + old(lists)[level][k + 1..]]
      ensures repr == old(repr) - {curr, old(lists)[level][k]}
      ensures parent == old(curr.pParent) && parent.mState == Free
    {
      assert ListWired(level);
      ghost var buddy := curr.pBuddy;
      RemoveFreeBlock(curr.pBuddy, level, k);
      parent := curr.pParent;
      forall l | 0 <= l < |lists|
        ensures curr !in lists[l] && buddy !in lists[l]
      {
        assert ListWired(l);
      }
      label Removed:
      repr := repr - {curr, buddy};
      parent.mState := Free;
      ListsFrame@Removed(-1);
    }

    /** The heap side of one iteration of the merging loop. */
    method MergeHeap(curr: BuddyBlock, level: nat, ghost n: int, ghost k: nat) returns (parent: BuddyBlock)
      requires TreeWired() && ListsWired()
      requires n > 1 && n in node && Buddy(n) in node && n / 2 in node && node[n] == curr
      requires forall m :: m in node && m > 1 ==> m / 2 != n && m / 2 != Buddy(n)
      requires blocks[n] == Free && blocks[Buddy(n)] == Free && blocks[n / 2] == Split
      requires level < |lists| && k < |lists[level]| && lists[level][k] == node[Buddy(n)] && AllFree(level)
      requires forall l :: 0 <= l < |lists| ==> curr !in lists[l]
      requires forall m :: m in blocks && blocks[m] == Split ==> node[m] !in lists[level]
      modifies this`mFreeLists, this`lists, this`blocks, this`node, this`repr, repr
      ensures TreeWired() && ListsWired()
      ensures blocks == (old(blocks) - {n, Buddy(n)})[n / 2 := Free]
      ensures lists == old(lists)[level := old(lists)[level][..k] + old(lists)[level][k + 1..]]
      ensures repr <= old(repr) && n / 2 in node && node[n / 2] == parent
    {
      assert Linked(n);
      node := node - {n, Buddy(n)};
      blocks := (blocks - {n, Buddy(n)})[n / 2 := Free];
      parent := MergeLinks(curr, level, k);
      forall m | m in node
        ensures MergeFrame(n / 2, m)
      {
        assert old(node[m].position == m);
      }
      TreeAfterMerge(n);
    }

    lemma BeforeMerge(n: int, level: nat) returns (k: nat)
      requires Coalescing(n) && n > 1 && Buddy(n) in blocks && blocks[Buddy(n)] == Free && level == Level(n)
      ensures n / 2 in node && blocks[n / 2] == Split && level < |lists| == order + 1 && Level(n / 2) == level - 1
      ensures forall m :: m in node && m > 1 ==> m / 2 != n && m / 2 != Buddy(n)
      ensures NoDup(free[level]) && k < |lists[level]| && lists[level][k] == node[Buddy(n)] && AllFree(level)
      ensures node[Buddy(n)].position == Buddy(n)
      ensures forall l :: 0 <= l < |lists| ==> node[n] !in lists[l]
      ensures forall m :: m in blocks && blocks[m] == Split ==> node[m] !in lists[level]
      ensures Merging(MergeStep(Model(), n), n / 2)
    {
      var s := Model();
      assert NodeOk(s, n);
      MergeStepMerging(s, n);
      BuddyFacts(n);
      forall m | m in node && m > 1
        ensures m / 2 != n && m / 2 != Buddy(n)
      {
        assert NodeOk(s, m);
      }
      ListedAreFreeExcept(n, level);
      StatesAgree(level);
      assert ListOk(s, n, level);
      assert Buddy(n) in free[level];
      k :| 0 <= k < |free[level]| && free[level][k] == Buddy(n);
      assert lists[level][k] in lists[level];
      forall l | 0 <= l < |lists|
        ensures node[n] !in lists[l]
      {
        ListedAreFreeExcept(n, l);
      }
      assert forall m :: m in node ==> node[m].position == m;
    }

    lemma ListedAreFreeExcept(n: int, l: int)
      requires Listed(Model(), n) && Named() && 0 <= l < |lists|
      ensures forall b :: b in lists[l] ==>
                b.position in blocks && blocks[b.position] == Free && b.position != n
    {
      assert ListOk(Model(), n, l);
      forall b | b in lists[l]
        ensures b.position in blocks && blocks[b.position] == Free && b.position != n
      {
        var i :| 0 <= i < |lists[l]| && lists[l][i] == b;
        assert free[l][i] == b.position;
        assert free[l][i] in free[l];
      }
    }

    /** One iteration of the merging loop. */
    method MergeBlocks(curr: BuddyBlock, level: nat, ghost n: int) returns (parent: BuddyBlock)
      requires Coalescing(n) && node[n] == curr && level == Level(n)
      requires n > 1 && Buddy(n) in blocks && blocks[Buddy(n)] == Free
      modifies this`mFreeLists, this`lists, this`free, this`blocks, this`node, this`repr, repr
      ensures Coalescing(n / 2) && node[n / 2] == parent && Level(n / 2) == level - 1
      ensures level < |old(free)| && Model() == MergeStep(old(Model()), n)
      ensures repr <= old(repr)
    {
      ghost var k := BeforeMerge(n, level);
      ghost var t := MergeStep(Model(), n);
      parent := MergeHeap(curr, level, n, k);
      free := t.free;
      NamedAfterRemove(old(lists), old(free), level, k);
      assert Model() == t;
    }

    /** Where Deallocate's search for an offset ends. */
    method FindBlock(offset: nat) returns (curr: BuddyBlock, currBlockLevel: nat, ghost n: int)
      requires Valid()
      ensures n == Descend(Model(), 1, offset) && node[n] == curr && currBlockLevel == Level(n)
    {
      curr, currBlockLevel, n := mRoot, 0, 1;
      assert Linked(1);
      while curr.mState == Split
        invariant n in node && node[n] == curr && currBlockLevel == Level(n) && curr.mState == blocks[n]
        invariant Descend(Model(), n, offset) == Descend(Model(), 1, offset)
        decreases order - currBlockLevel
      {
        assert NodeOk(Model(), n) && Linked(n);
        ChildLevel(n);
        assert Linked(2 * n) && Linked(2 * n + 1);
        assert Placed(node[2 * n + 1]);
        if offset < curr.pPrevOrLeft.pBuddy.mOffset {
          curr := curr.pPrevOrLeft;
          n := 2 * n;
        } else {
          curr := curr.pPrevOrLeft.pBuddy;
          n := 2 * n + 1;
        }
        currBlockLevel := currBlockLevel + 1;
        assert NodeOk(Model(), n);
      }
    }

    /** Marking an allocated block free: the state in which merging starts. */
    method MarkFree(curr: BuddyBlock, ghost n: int)
      requires Valid() && n in node && node[n] == curr && blocks[n] == Allocated
      modifies this`blocks, curr`mState
      ensures Coalescing(n) && Model() == Mark(old(Model()), n, Free)
    {
      FreeStart(Model(), n);
      curr.mState := Free;
      blocks := blocks[n := Free];
      ListsFrame(-1);
      forall m | m in node
        ensures Linked(m)
      {
        assert old(Linked(m)) && old(node[m].position == m);
      }
    }

    /** The end of Deallocate: list the merged block. */
    method ListBlock(curr: BuddyBlock, level: nat, ghost n: int)
      requires Coalescing(n) && node[n] == curr && level == Level(n)
      requires n > 1 ==> Buddy(n) !in blocks || blocks[Buddy(n)] != Free
      modifies this`mFreeLists, this`lists, this`free, repr
      ensures Valid() && level < |old(free)| && Model() == List(old(Model()), n)
    {
      ListInv(Model(), n);
      assert NodeOk(Model(), n);
      ListedAreFreeExcept(n, level);
      assert Linked(n) && Placed(curr);
      InsertFreeBlock(curr, level);
      free := free[level := [n] + free[level]];
      NamedAfterInsert(old(lists), old(free), level, curr);
      forall m | m in node
        ensures Linked(m)
      {
        assert old(Linked(m)) && old(node[m].position == m);
      }
    }

    lemma BuddyState(n: int)
      requires Coalescing(n)
      ensures n >= 1 && (Level(n) > 0 <==> n > 1)
      ensures n > 1 ==> Buddy(n) in blocks && node[n].pBuddy == node[Buddy(n)]
      ensures n > 1 ==> node[Buddy(n)].mState == blocks[Buddy(n)]
    {
      assert NodeOk(Model(), n) && Linked(n);
      if n > 1 { assert Linked(Buddy(n)); }
    }

    /** Merge the buddies level by level, then list the result. */
    method MergeBuddies(block: BuddyBlock, blockLevel: nat, ghost n0: int)
      requires Coalescing(n0) && node[n0] == block && blockLevel == Level(n0)
      modifies this`mFreeLists, this`lists, this`free, this`blocks, this`node, this`repr, repr
      ensures Valid() && n0 >= 1 && Level(n0) < |old(free)| && Model() == Coalesce(old(Model()), n0)
      ensures repr <= old(repr)
    {
      var curr, currBlockLevel := block, blockLevel;
      ghost var n := n0;
      assert NodeOk(Model(), n);
      BuddyState(n);
      while currBlockLevel > 0 && curr.pBuddy.mState == Free
        invariant Coalescing(n) && node[n] == curr && currBlockLevel == Level(n) && n >= 1
        invariant currBlockLevel > 0 ==> n > 1 && Buddy(n) in blocks && curr.pBuddy == node[Buddy(n)]
        invariant currBlockLevel > 0 ==> node[Buddy(n)].mState == blocks[Buddy(n)]
        invariant Level(n) < |free| && Coalesce(Model(), n) == old(Coalesce(Model(), n0))
        invariant repr <= old(repr)
        decreases currBlockLevel
      {
        curr := MergeBlocks(curr, currBlockLevel, n);
        n := n / 2;
        currBlockLevel := currBlockLevel - 1;
        BuddyState(n);
      }
      BuddyState(n);
      ListBlock(curr, currBlockLevel, n);
    }

    /** The caller must name an offset inside an allocated block; the source asserts this. */
    method Deallocate(offset: nat)
      requires Valid() && blocks[Descend(Model(), 1, offset)] == Allocated
      modifies this, repr
      ensures Valid()
      ensures old(Inv(Model())) && Model() == BuddyModel.Deallocate(old(Model()), offset)
      ensures repr <= old(repr)
    {
      var curr, currBlockLevel, n := FindBlock(offset);
      MarkFree(curr, n);
      MergeBuddies(curr, currBlockLevel, n);
    }
  }

  lemma OffsetBelowInvalid(order: nat, n: int)
    requires order < 64 && Level(n) <= order
    ensures Offset(order, n) < INVALID_OFFSET
  {
    OffsetAligned(order, n);
    Pow2Monotone(order, 63);
    Pow2At64();
  }

  lemma OrderFacts(size: nat)
    requires 0 < size < 0x1_0000_0000_0000_0000 && IsPowerOfTwo(size)
    ensures Pow2(Log2(size)) == size && Log2(size) < 64
  {
    BitAndZeroPowerOfTwo(size);
    if Log2(size) >= 64 {
      Pow2Monotone(64, Log2(size));
      Pow2At64();
    }
  }
}
