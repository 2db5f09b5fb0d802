/**
 Sub-allocating reference-counted memory heaps out of one buddy system
 (src/dawn_native/BuddyMemoryAllocator.{h,cpp}).
 */
module BuddyMemory {
  import opened DawnMath
  import opened BuddyModel
  import opened BuddyInvariant
  import opened BuddyTheorems
  import opened Collections

  /** The slot of one memory heap: how many sub-allocations use it, and the heap itself. */
  datatype Tracked = Tracked(refcount: nat, heap: Option<nat>)

  /**
   `returned` holds the blocks handed to callers and not yet given back. `leaked` holds the blocks
   taken from the buddy system for a call that then failed to create its heap.
   */
  datatype Memory = Memory(buddy: State, blockOrder: nat, tracked: seq<Tracked>,
                           returned: set<int>, leaked: set<int>)

  datatype Result =
    | Invalid
    | HeapCreationFailed
    | SubAllocated(blockOffset: nat, memoryOffset: nat, heap: nat)

  function MemoryIndex(m: Memory, offset: nat): nat {
    DivNonNegative(offset, Pow2(m.blockOrder));
    offset / Pow2(m.blockOrder)
  }

  lemma DivNonNegative(x: nat, d: nat)
    requires d >= 1
    ensures x / d >= 0
  {
    ProductGap(d, x / d);
  }

  // ----- Invariant -----

  /** The sub-allocations that use the heap of slot i. */
  ghost function UsersOf(m: Memory, i: int): set<int> {
    set n | n in m.returned && Level(n) <= m.buddy.order && MemoryIndex(m, Offset(m.buddy.order, n)) == i
  }

  ghost predicate SlotOk(m: Memory, i: int)
    requires 0 <= i < |m.tracked|
  {
    && m.tracked[i].refcount == |UsersOf(m, i)|
    && (m.tracked[i].heap.Some? <==> m.tracked[i].refcount > 0)
  }

  ghost predicate SmallBlock(m: Memory, n: int) {
    n in m.buddy.blocks && m.buddy.order - m.blockOrder <= Level(n) <= m.buddy.order
  }

  ghost predicate MemoryInv(m: Memory) {
    && Inv(m.buddy)
    && m.blockOrder <= m.buddy.order
    && |m.tracked| == Pow2(m.buddy.order - m.blockOrder)
    && m.returned !! m.leaked
    && Live(m.buddy) == m.returned + m.leaked
    && (forall n :: n in m.returned ==> SmallBlock(m, n))
    && (forall i {:trigger SlotOk(m, i)} :: 0 <= i < |m.tracked| ==> SlotOk(m, i))
  }

  // ----- Blocks inside one heap -----

  /** An aligned range no larger than a heap does not cross a heap boundary. */
  lemma InsideOneHeap(offset: nat, size: nat, heapSize: nat)
    requires size >= 1 && heapSize >= 1 && offset % size == 0 && heapSize % size == 0
    ensures offset % heapSize + size <= heapSize
  {
    var q, r := offset / heapSize, offset % heapSize;
    assert offset == heapSize * q + r;
    MultipleMod(q, heapSize);
    ModTransitive(heapSize * q, heapSize, size);
    ModSum(offset, heapSize * q, size);
    DivUnique(size, size, 1, 0);
    ModSum(r, size, size);
    NoMultipleBetween(r + size, heapSize, size);
  }

  lemma BlockInsideOneHeap(m: Memory, n: int)
    requires MemoryInv(m) && n >= 1 && m.buddy.order - m.blockOrder <= Level(n) <= m.buddy.order
    ensures var offset := Offset(m.buddy.order, n);
            && MemoryIndex(m, offset) < |m.tracked|
            && offset % Pow2(m.blockOrder) + Size(m.buddy.order, n) <= Pow2(m.blockOrder)
  {
    var order := m.buddy.order;
    var offset := Offset(order, n);
    OffsetAligned(order, n);
    Pow2Divides(order - Level(n), m.blockOrder);
    InsideOneHeap(offset, Size(order, n), Pow2(m.blockOrder));
    Pow2Add(order - m.blockOrder, m.blockOrder);
    QuotientBelow(offset, Pow2(m.blockOrder), Pow2(order - m.blockOrder));
  }

  lemma QuotientBelow(x: nat, d: nat, q: nat)
    requires d >= 1 && x < q * d
    ensures x / d < q
  {
    var p, r := x / d, x % d;
    assert x == d * p + r;
    ProductGap(d, p - q);
  }

  lemma RoundedSizeFits(m: Memory, allocationSize: nat)
    requires 1 <= allocationSize <= Pow2(m.blockOrder) && m.blockOrder <= m.buddy.order
    ensures var size := NextPowerOfTwo(allocationSize);
            && allocationSize <= size <= Pow2(m.blockOrder) && size >= 1 && Pow2(Log2(size)) == size
            && Log2(size) <= m.blockOrder && size <= Pow2(m.buddy.order)
  {
    NextPowerOfTwoIsLeast(allocationSize, m.blockOrder);
    var j :| NextPowerOfTwo(allocationSize) == Pow2(j);
    Pow2Log2(j);
    Pow2Monotone(m.blockOrder, m.buddy.order);
    Log2OfBounded(m.blockOrder, NextPowerOfTwo(allocationSize));
  }

  /** The block granted for a rounded request is no larger than a heap. */
  lemma GrantedIsSmall(m: Memory, allocationSize: nat, alignment: nat)
    requires MemoryInv(m) && alignment >= 1 && 1 <= allocationSize <= Pow2(m.blockOrder)
    ensures var size := NextPowerOfTwo(allocationSize);
            var (buddy, r) := BuddyModel.Allocate(m.buddy, size, alignment);
            r.Granted? ==>
              && r.block >= 1
              && m.buddy.order - m.blockOrder <= Level(r.block) <= m.buddy.order
              && Size(m.buddy.order, r.block) == size
  {
    var size := NextPowerOfTwo(allocationSize);
    RoundedSizeFits(m, allocationSize);
    var (buddy, r) := BuddyModel.Allocate(m.buddy, size, alignment);
    if r.Granted? {
      AllocateInv(m.buddy, size, alignment);
      GrantedSize(m.buddy, size, alignment);
      assert r.block in Live(buddy);
      assert NodeOk(buddy, r.block);
      HeadsOk(m.buddy);
      var level := LevelFor(m.buddy.order, size);
      var from := NextFreeLevel(m.buddy, level, alignment);
      LeftmostFacts(m.buddy.order, m.buddy.free[from][0], level);
    }
  }

  lemma ReturnedIsTracked(m: Memory, n: int)
    requires MemoryInv(m) && n in m.returned
    ensures n in Live(m.buddy) && n >= 1 && m.buddy.order - m.blockOrder <= Level(n) <= m.buddy.order
    ensures var i := MemoryIndex(m, Offset(m.buddy.order, n));
            i < |m.tracked| && SlotOk(m, i) && n in UsersOf(m, i) && m.tracked[i].refcount > 0
  {
    assert SmallBlock(m, n) && n in Live(m.buddy);
    assert NodeOk(m.buddy, n);
    BlockInsideOneHeap(m, n);
    var i := MemoryIndex(m, Offset(m.buddy.order, n));
    assert SlotOk(m, i);
    assert n in UsersOf(m, i);
  }

  // ----- Operations -----

  function Initially(order: nat, blockOrder: nat): Memory
    requires blockOrder <= order
  {
    Memory(Initial(order), blockOrder, seq(Pow2(order - blockOrder), _ => Tracked(0, None)), {}, {})
  }

  /** A block was granted: count it in its heap, which is created if no block uses it yet. */
  function AfterGrant(m: Memory, buddy: State, n: int, offset: nat, i: nat, created: Option<nat>)
    : (Memory, Result)
    requires i < |m.tracked| && (m.tracked[i].heap.Some? <==> m.tracked[i].refcount > 0)
  {
    var slot := m.tracked[i];
    if slot.refcount == 0 && created.None? then
      (m.(buddy := buddy, leaked := m.leaked + {n}), HeapCreationFailed)
    else
      var heap := if slot.refcount == 0 then created else slot.heap;
      (m.(buddy := buddy, tracked := m.tracked[i := Tracked(slot.refcount + 1, heap)],
          returned := m.returned + {n}),
       SubAllocated(offset, offset % Pow2(m.blockOrder), heap.value))
  }

  /** `created` is what the heap allocator answers if it is asked for a heap. */
  function Allocate(m: Memory, allocationSize: nat, alignment: nat, created: Option<nat>): (Memory, Result)
    requires MemoryInv(m) && alignment >= 1
  {
    if allocationSize == 0 || allocationSize > Pow2(m.blockOrder) then (m, Invalid)
    else
      var size := NextPowerOfTwo(allocationSize);
      if size > Pow2(m.blockOrder) then (m, Invalid)
      else
        var (buddy, r) := BuddyModel.Allocate(m.buddy, size, alignment);
        match r
        case Refused => (m, Invalid)
        case Granted(n) =>
          GrantIsTracked(m, allocationSize, alignment);
          var offset := Offset(m.buddy.order, n);
          AfterGrant(m, buddy, n, offset, MemoryIndex(m, offset), created)
  }

  /** A granted block falls into one heap, whose slot is in order. */
  lemma GrantIsTracked(m: Memory, allocationSize: nat, alignment: nat)
    requires MemoryInv(m) && alignment >= 1 && 1 <= allocationSize <= Pow2(m.blockOrder)
    ensures var r := BuddyModel.Allocate(m.buddy, NextPowerOfTwo(allocationSize), alignment).1;
            r.Granted? ==>
              && Level(r.block) <= m.buddy.order
              && var i := MemoryIndex(m, Offset(m.buddy.order, r.block));
                 i < |m.tracked| && (m.tracked[i].heap.Some? <==> m.tracked[i].refcount > 0)
  {
    GrantedIsSmall(m, allocationSize, alignment);
    var r := BuddyModel.Allocate(m.buddy, NextPowerOfTwo(allocationSize), alignment).1;
    if r.Granted? {
      BlockInsideOneHeap(m, r.block);
      assert SlotOk(m, MemoryIndex(m, Offset(m.buddy.order, r.block)));
    }
  }

  /** A block was released: the last user of a heap takes the heap with it. */
  function AfterRelease(m: Memory, buddy: State, n: int, i: nat): (Memory, Option<nat>)
    requires i < |m.tracked| && m.tracked[i].refcount > 0
  {
    var slot := m.tracked[i];
    var last := slot.refcount == 1;
    (m.(buddy := buddy,
        tracked := m.tracked[i := Tracked(slot.refcount - 1, if last then None else slot.heap)],
        returned := m.returned - {n}),
     if last then slot.heap else None)
  }

  /** Give back block n; the answer is the heap to destroy, if any. */
  function Deallocate(m: Memory, n: int): (Memory, Option<nat>)
    requires MemoryInv(m) && n in m.returned
  {
    ReturnedIsTracked(m, n);
    AfterRelease(m, Release(m.buddy, n), n, MemoryIndex(m, Offset(m.buddy.order, n)))
  }

  /** The offset of a returned block leads the buddy system to that block. */
  lemma OffsetFindsReturned(m: Memory, n: int)
    requires MemoryInv(m) && n in m.returned
    ensures Level(n) <= m.buddy.order
    ensures Descend(m.buddy, 1, Offset(m.buddy.order, n)) == n && m.buddy.blocks[n] == Allocated
    ensures BuddyModel.Deallocate(m.buddy, Offset(m.buddy.order, n)) == Release(m.buddy, n)
  {
    ReturnedIsTracked(m, n);
    DescendFindsLeaf(m.buddy, n, Offset(m.buddy.order, n));
  }

  // ----- Every operation keeps the invariant -----

  lemma InitiallyInv(order: nat, blockOrder: nat)
    requires blockOrder <= order
    ensures MemoryInv(Initially(order, blockOrder))
  {
    var m := Initially(order, blockOrder);
    InitialInv(order);
    forall i | 0 <= i < |m.tracked|
      ensures SlotOk(m, i)
    {
      assert UsersOf(m, i) == {};
    }
  }

  /** Changing one slot and one user leaves the other slots as they were. */
  lemma SlotsKept(m: Memory, t: Memory, n: int, i: nat)
    requires MemoryInv(m) && Level(n) <= m.buddy.order && i < |m.tracked|
    requires i == MemoryIndex(m, Offset(m.buddy.order, n))
    requires t.buddy.order == m.buddy.order && t.blockOrder == m.blockOrder && |t.tracked| == |m.tracked|
    requires forall j | 0 <= j < |m.tracked| && j != i :: t.tracked[j] == m.tracked[j]
    requires forall k :: k != n ==> (k in t.returned <==> k in m.returned)
    requires SlotOk(t, i)
    ensures forall j {:trigger SlotOk(t, j)} :: 0 <= j < |t.tracked| ==> SlotOk(t, j)
  {
    forall j | 0 <= j < |t.tracked|
      ensures SlotOk(t, j)
    {
      if j != i {
        assert SlotOk(m, j);
        assert UsersOf(t, j) == UsersOf(m, j);
      }
    }
  }

  /** Live small blocks stay where they are when the buddy system changes around them. */
  lemma StillSmall(m: Memory, t: Memory)
    requires MemoryInv(m) && t.buddy.order == m.buddy.order && t.blockOrder == m.blockOrder
    requires t.returned <= Live(t.buddy)
    requires forall n :: n in t.returned ==> m.buddy.order - m.blockOrder <= Level(n) <= m.buddy.order
    ensures forall n :: n in t.returned ==> SmallBlock(t, n)
  {
  }

  /** The buddy system after granting the small block n. */
  ghost predicate Grants(m: Memory, buddy: State, n: int) {
    && Inv(buddy) && buddy.order == m.buddy.order
    && n !in Live(m.buddy) && Live(buddy) == Live(m.buddy) + {n}
    && n >= 1 && m.buddy.order - m.blockOrder <= Level(n) <= m.buddy.order
  }

  lemma LeakKeepsInv(m: Memory, buddy: State, n: int)
    requires MemoryInv(m) && Grants(m, buddy, n)
    ensures MemoryInv(m.(buddy := buddy, leaked := m.leaked + {n}))
  {
    var t := m.(buddy := buddy, leaked := m.leaked + {n});
    BlockInsideOneHeap(m, n);
    var i := MemoryIndex(m, Offset(m.buddy.order, n));
    assert SlotOk(m, i);
    assert UsersOf(t, i) == UsersOf(m, i);
    SlotsKept(m, t, n, i);
    assert forall k :: k in m.returned ==> SmallBlock(m, k);
    StillSmall(m, t);
  }

  /** The memory after handing block n out of slot i. */
  ghost function Used(m: Memory, buddy: State, n: int, i: nat, heap: nat): Memory
    requires i < |m.tracked|
  {
    m.(buddy := buddy,
       tracked := m.tracked[i := Tracked(m.tracked[i].refcount + 1, Some(heap))],
       returned := m.returned + {n})
  }

  lemma UseSlotOk(m: Memory, buddy: State, n: int, i: nat, heap: nat)
    requires i < |m.tracked| && SlotOk(m, i) && n !in m.returned
    requires buddy.order == m.buddy.order && Level(n) <= m.buddy.order
    requires i == MemoryIndex(m, Offset(m.buddy.order, n))
    ensures SlotOk(Used(m, buddy, n, i, heap), i)
  {
    var t := Used(m, buddy, n, i, heap);
    assert n !in UsersOf(m, i);
    assert UsersOf(t, i) == UsersOf(m, i) + {n};
  }

  lemma UseKeepsInv(m: Memory, buddy: State, n: int, i: nat, heap: nat)
    requires MemoryInv(m) && Grants(m, buddy, n)
    requires i == MemoryIndex(m, Offset(m.buddy.order, n)) && i < |m.tracked|
    ensures MemoryInv(Used(m, buddy, n, i, heap))
  {
    var t := Used(m, buddy, n, i, heap);
    assert SlotOk(m, i);
    assert n !in m.returned;
    UseSlotOk(m, buddy, n, i, heap);
    SlotsKept(m, t, n, i);
    assert forall k :: k in m.returned ==> SmallBlock(m, k);
    StillSmall(m, t);
  }

  lemma GrantFacts(m: Memory, allocationSize: nat, alignment: nat)
    requires MemoryInv(m) && alignment >= 1 && 1 <= allocationSize <= Pow2(m.blockOrder)
    ensures var size := NextPowerOfTwo(allocationSize);
            var (buddy, r) := BuddyModel.Allocate(m.buddy, size, alignment);
            r.Granted? ==>
              Grants(m, buddy, r.block) && MemoryIndex(m, Offset(m.buddy.order, r.block)) < |m.tracked|
  {
    var size := NextPowerOfTwo(allocationSize);
    var (buddy, r) := BuddyModel.Allocate(m.buddy, size, alignment);
    AllocateInv(m.buddy, size, alignment);
    GrantedIsSmall(m, allocationSize, alignment);
    if r.Granted? { BlockInsideOneHeap(m, r.block); }
  }

  lemma AfterGrantKeepsInv(m: Memory, buddy: State, n: int, offset: nat, i: nat, created: Option<nat>)
    requires MemoryInv(m) && Grants(m, buddy, n)
    requires offset == Offset(m.buddy.order, n) && i == MemoryIndex(m, offset) && i < |m.tracked|
    requires m.tracked[i].heap.Some? <==> m.tracked[i].refcount > 0
    ensures MemoryInv(AfterGrant(m, buddy, n, offset, i, created).0)
  {
    if m.tracked[i].refcount == 0 && created.None? {
      LeakKeepsInv(m, buddy, n);
    } else {
      var heap := if m.tracked[i].refcount == 0 then created.value else m.tracked[i].heap.value;
      UseKeepsInv(m, buddy, n, i, heap);
    }
  }

  lemma AllocateKeepsInv(m: Memory, allocationSize: nat, alignment: nat, created: Option<nat>)
    requires MemoryInv(m) && alignment >= 1
    ensures MemoryInv(Allocate(m, allocationSize, alignment, created).0)
  {
    if 1 <= allocationSize <= Pow2(m.blockOrder) {
      var (buddy, r) := BuddyModel.Allocate(m.buddy, NextPowerOfTwo(allocationSize), alignment);
      GrantFacts(m, allocationSize, alignment);
      GrantIsTracked(m, allocationSize, alignment);
      if r.Granted? {
        var offset := Offset(m.buddy.order, r.block);
        AfterGrantKeepsInv(m, buddy, r.block, offset, MemoryIndex(m, offset), created);
      }
    }
  }

  lemma DeallocateKeepsInv(m: Memory, n: int)
    requires MemoryInv(m) && n in m.returned
    ensures MemoryInv(Deallocate(m, n).0)
  {
    var (t, r) := Deallocate(m, n);
    ReturnedIsTracked(m, n);
    ReleaseInv(m.buddy, n);
    var i := MemoryIndex(m, Offset(m.buddy.order, n));
    assert UsersOf(t, i) == UsersOf(m, i) - {n};
    SlotsKept(m, t, n, i);
    assert forall k :: k in m.returned ==> SmallBlock(m, k);
    StillSmall(m, t);
  }

  // ----- What callers may rely on -----

  /** The range of a block inside its heap. */
  ghost predicate LocalApart(m: Memory, a: int, b: int)
    requires Level(a) <= m.buddy.order && Level(b) <= m.buddy.order
  {
    var size := Pow2(m.blockOrder);
    var x, y := Offset(m.buddy.order, a) % size, Offset(m.buddy.order, b) % size;
    x + Size(m.buddy.order, a) <= y || y + Size(m.buddy.order, b) <= x
  }

  /** Ranges that are apart stay apart when both starts are taken modulo d in the same multiple of d. */
  lemma SameQuotientApart(x: nat, sx: nat, y: nat, sy: nat, d: nat)
    requires d >= 1 && x / d == y / d && (x + sx <= y || y + sy <= x)
    ensures x % d + sx <= y % d || y % d + sy <= x % d
  {
    assert x == d * (x / d) + x % d;
    assert y == d * (y / d) + y % d;
  }

  /** Live sub-allocations of one heap never overlap inside it. */
  lemma UsersApart(m: Memory, i: nat, a: int, b: int)
    requires MemoryInv(m) && i < |m.tracked| && a in UsersOf(m, i) && b in UsersOf(m, i) && a != b
    ensures LocalApart(m, a, b)
  {
    ReturnedIsTracked(m, a);
    ReturnedIsTracked(m, b);
    LeavesApart(m.buddy, a, b);
    var order := m.buddy.order;
    SameQuotientApart(Offset(order, a), Size(order, a), Offset(order, b), Size(order, b), Pow2(m.blockOrder));
  }

  /**
   A successful call returns a range that lies in one existing heap, is large enough, is aligned
   there, and whose heap is then in use.
   */
  lemma SubAllocationFits(m: Memory, allocationSize: nat, alignment: nat, created: Option<nat>)
    requires MemoryInv(m) && alignment >= 1 && IsPowerOfTwo(alignment)
    ensures var (t, r) := Allocate(m, allocationSize, alignment, created);
            r.SubAllocated? ==>
              && r.memoryOffset + allocationSize <= Pow2(m.blockOrder)
              && r.memoryOffset % alignment == 0
              && MemoryIndex(m, r.blockOffset) < |t.tracked|
              && t.tracked[MemoryIndex(m, r.blockOffset)].heap == Some(r.heap)
              && t.tracked[MemoryIndex(m, r.blockOffset)].refcount > 0
  {
    var (t, r) := Allocate(m, allocationSize, alignment, created);
    if r.SubAllocated? {
      var size := NextPowerOfTwo(allocationSize);
      RoundedSizeFits(m, allocationSize);
      GrantedIsSmall(m, allocationSize, alignment);
      GrantIsTracked(m, allocationSize, alignment);
      var n := BuddyModel.Allocate(m.buddy, size, alignment).1.block;
      BlockInsideOneHeap(m, n);
      GrantedBlock(m.buddy, size, alignment);
      LocalOffsetAligned(r.blockOffset, m.blockOrder, alignment);
    }
  }

  /** The buddy system grants a block for the request, and no live sub-allocation uses its heap. */
  ghost predicate NeedsHeap(m: Memory, allocationSize: nat, alignment: nat)
    requires MemoryInv(m) && alignment >= 1
  {
    && 1 <= allocationSize <= Pow2(m.blockOrder)
    && var r := BuddyModel.Allocate(m.buddy, NextPowerOfTwo(allocationSize), alignment).1;
       && r.Granted? && Level(r.block) <= m.buddy.order
       && UsersOf(m, MemoryIndex(m, Offset(m.buddy.order, r.block))) == {}
  }

  /** For every alignment: a call fails exactly when it needs a new heap that cannot be created. */
  lemma FailsIff(m: Memory, allocationSize: nat, alignment: nat, created: Option<nat>)
    requires MemoryInv(m) && alignment >= 1
    ensures Allocate(m, allocationSize, alignment, created).1 == HeapCreationFailed <==>
            NeedsHeap(m, allocationSize, alignment) && created == None
  {
    if 1 <= allocationSize <= Pow2(m.blockOrder) {
      RoundedSizeFits(m, allocationSize);
      GrantIsTracked(m, allocationSize, alignment);
      var r := BuddyModel.Allocate(m.buddy, NextPowerOfTwo(allocationSize), alignment).1;
      if r.Granted? { assert SlotOk(m, MemoryIndex(m, Offset(m.buddy.order, r.block))); }
    }
  }

  /**
   What the answers mean, for alignments up to the rounded size: Invalid exactly for sizes that are
   zero or exceed a heap and when no free block holds the rounded size, and a failure exactly when a
   new heap is needed and cannot be created.
   */
  lemma AnswerIff(m: Memory, allocationSize: nat, alignment: nat, created: Option<nat>)
    requires MemoryInv(m) && alignment >= 1 && IsPowerOfTwo(alignment)
    requires alignment <= NextPowerOfTwo(allocationSize)
    ensures var (t, r) := Allocate(m, allocationSize, alignment, created);
            var size := NextPowerOfTwo(allocationSize);
            && (r == Invalid ==> t == m)
            && (r == Invalid <==>
                  || allocationSize == 0 || allocationSize > Pow2(m.blockOrder)
                  || (size <= Pow2(m.buddy.order) && !SomethingFits(m.buddy, LevelFor(m.buddy.order, size))))
            && (r == HeapCreationFailed <==> NeedsHeap(m, allocationSize, alignment) && created == None)
            && (r.SubAllocated? && created == None ==>
                  MemoryIndex(m, r.blockOffset) < |m.tracked| &&
                  m.tracked[MemoryIndex(m, r.blockOffset)].heap == Some(r.heap))
  {
    FailsIff(m, allocationSize, alignment, created);
    if 1 <= allocationSize <= Pow2(m.blockOrder) {
      RoundedSizeFits(m, allocationSize);
      RefusedIffNothingFits(m.buddy, NextPowerOfTwo(allocationSize), alignment);
      GrantIsTracked(m, allocationSize, alignment);
    }
  }

  lemma RemainderAligned(x: nat, d: nat, a: nat)
    requires d >= 1 && a >= 1 && d % a == 0 && x % a == 0
    ensures x % d % a == 0
  {
    var q := x / d;
    assert x == q * d + x % d;
    MultipleMod(q, d);
    ModTransitive(q * d, d, a);
    ModSum(x, q * d, a);
  }

  lemma RemainderZero(x: nat, d: nat, a: nat)
    requires d >= 1 && a >= 1 && a % d == 0 && x % a == 0
    ensures x % d % a == 0
  {
    ModTransitive(x, a, d);
    DivUnique(0, a, 0, 0);
  }

  /** An offset aligned in the whole system is aligned inside its heap. */
  lemma LocalOffsetAligned(offset: nat, heapOrder: nat, alignment: nat)
    requires alignment >= 1 && IsPowerOfTwo(alignment) && offset % alignment == 0
    ensures offset % Pow2(heapOrder) % alignment == 0
  {
    BitAndZeroPowerOfTwo(alignment);
    var k := Log2(alignment);
    if k <= heapOrder {
      Pow2Divides(k, heapOrder);
      RemainderAligned(offset, Pow2(heapOrder), alignment);
    } else {
      Pow2Divides(heapOrder, k);
      RemainderZero(offset, Pow2(heapOrder), alignment);
    }
  }

  /** Allocate then Deallocate of what it returned restores the whole allocator. */
  lemma AllocateThenDeallocate(m: Memory, allocationSize: nat, alignment: nat, created: Option<nat>)
    requires MemoryInv(m) && alignment >= 1
    ensures var (t, r) := Allocate(m, allocationSize, alignment, created);
            r.SubAllocated? ==>
              exists n :: n in t.returned && n !in m.returned && Level(n) <= m.buddy.order
                          && Offset(m.buddy.order, n) == r.blockOffset
                          && MemoryInv(t) && Deallocate(t, n).0 == m
  {
    var (t, r) := Allocate(m, allocationSize, alignment, created);
    if r.SubAllocated? {
      AllocateKeepsInv(m, allocationSize, alignment, created);
      var size := NextPowerOfTwo(allocationSize);
      GrantFacts(m, allocationSize, alignment);
      var n := BuddyModel.Allocate(m.buddy, size, alignment).1.block;
      RoundTrip(m.buddy, size, alignment);
      assert n in Live(t.buddy);
      assert NodeOk(t.buddy, n);
      DescendFindsLeaf(t.buddy, n, r.blockOffset);
      var i := MemoryIndex(m, r.blockOffset);
      assert SlotOk(m, i);
      var u := Deallocate(t, n).0;
      assert n !in m.returned;
      assert u.returned == m.returned;
      assert u.tracked[i] == m.tracked[i];
      assert u.tracked == m.tracked;
      assert u.buddy == m.buddy;
    }
  }

  /** With everything given back no heap is held, and the tree is whole exactly if nothing leaked. */
  lemma AllGivenBack(m: Memory)
    requires MemoryInv(m) && m.returned == {}
    ensures forall i :: 0 <= i < |m.tracked| ==> m.tracked[i] == Tracked(0, None)
    ensures m.buddy == Initial(m.buddy.order) <==> m.leaked == {}
  {
    forall i | 0 <= i < |m.tracked|
      ensures m.tracked[i] == Tracked(0, None)
    {
      assert SlotOk(m, i);
      assert UsersOf(m, i) == {};
    }
    InitialInv(m.buddy.order);
    if m.leaked == {} { NothingLiveIsInitial(m.buddy); }
  }

  // ----- Runs -----

  datatype Call = Request(size: nat, alignment: nat, created: Option<nat>) | GiveBack(block: int)

  datatype Reached = Broken | At(memory: Memory)

  ghost function Step(m: Memory, call: Call): (r: Reached)
    requires MemoryInv(m)
    ensures r.At? ==>
              MemoryInv(r.memory) && r.memory.buddy.order == m.buddy.order && r.memory.blockOrder == m.blockOrder
  {
    match call
    case Request(size, alignment, created) =>
      if alignment == 0 then Broken
      else
        AllocateKeepsInv(m, size, alignment, created);
        AllocateKeepsOrder(m, size, alignment, created);
        At(Allocate(m, size, alignment, created).0)
    case GiveBack(n) =>
      if n !in m.returned then Broken
      else
        DeallocateKeepsInv(m, n);
        DeallocateKeepsOrder(m, n);
        At(Deallocate(m, n).0)
  }

  lemma AllocateKeepsOrder(m: Memory, size: nat, alignment: nat, created: Option<nat>)
    requires MemoryInv(m) && alignment >= 1
    ensures Allocate(m, size, alignment, created).0.buddy.order == m.buddy.order
  {
    if 1 <= size <= Pow2(m.blockOrder) { GrantFacts(m, size, alignment); }
  }

  lemma DeallocateKeepsOrder(m: Memory, n: int)
    requires MemoryInv(m) && n in m.returned
    ensures Deallocate(m, n).0.buddy.order == m.buddy.order
  {
    ReturnedIsTracked(m, n);
    ReleaseInv(m.buddy, n);
  }

  /** After any run of legal calls, heap creation failures included, the invariant holds. */
  ghost function Run(order: nat, blockOrder: nat, calls: seq<Call>): (r: Reached)
    requires blockOrder <= order
    ensures r.At? ==> MemoryInv(r.memory) && r.memory.buddy.order == order && r.memory.blockOrder == blockOrder
  {
    if calls == [] then InitiallyInv(order, blockOrder); At(Initially(order, blockOrder))
    else
      var before := Run(order, blockOrder, calls[..|calls| - 1]);
      if before.Broken? then Broken else Step(before.memory, calls[|calls| - 1])
  }

  /** How many calls of a run needed a heap that could not be created. */
  ghost function Failures(order: nat, blockOrder: nat, calls: seq<Call>): nat
    requires blockOrder <= order
  {
    if calls == [] then 0
    else
      var earlier := calls[..|calls| - 1];
      var before := Run(order, blockOrder, earlier);
      var call := calls[|calls| - 1];
      Failures(order, blockOrder, earlier) +
      if before.At? && call.Request? && call.alignment >= 1 &&
         NeedsHeap(before.memory, call.size, call.alignment) && call.created == None then 1 else 0
  }

  lemma FailureLeaks(m: Memory, size: nat, alignment: nat, created: Option<nat>)
    requires MemoryInv(m) && alignment >= 1
    ensures var (t, r) := Allocate(m, size, alignment, created);
            |t.leaked| == |m.leaked| + if NeedsHeap(m, size, alignment) && created == None then 1 else 0
  {
    FailsIff(m, size, alignment, created);
    if 1 <= size <= Pow2(m.blockOrder) { GrantFacts(m, size, alignment); }
  }

  /** Every failed heap creation leaks exactly one block of the buddy system, for good. */
  lemma {:induction false} LeaksCountFailures(order: nat, blockOrder: nat, calls: seq<Call>)
    requires blockOrder <= order && Run(order, blockOrder, calls).At?
    ensures |Run(order, blockOrder, calls).memory.leaked| == Failures(order, blockOrder, calls)
  {
    if calls != [] {
      var earlier, call := calls[..|calls| - 1], calls[|calls| - 1];
      LeaksCountFailures(order, blockOrder, earlier);
      if call.Request? {
        FailureLeaks(Run(order, blockOrder, earlier).memory, call.size, call.alignment, call.created);
      }
    }
  }

  /**
   Over every run: once everything returned was given back, the buddy system is whole again if and
   only if no call needed a heap that could not be created.
   */
  lemma GivenBackIsWholeIff(order: nat, blockOrder: nat, calls: seq<Call>)
    requires blockOrder <= order && Run(order, blockOrder, calls).At?
    requires Run(order, blockOrder, calls).memory.returned == {}
    ensures Run(order, blockOrder, calls).memory.buddy == Initial(order) <==> Failures(order, blockOrder, calls) == 0
  {
    LeaksCountFailures(order, blockOrder, calls);
    AllGivenBack(Run(order, blockOrder, calls).memory);
  }

  /** A failed call changes nothing but the buddy system, from which it keeps one block. */
  lemma FailedCall(m: Memory, size: nat, alignment: nat, created: Option<nat>) returns (n: int)
    requires MemoryInv(m) && alignment >= 1 && Allocate(m, size, alignment, created).1 == HeapCreationFailed
    ensures var t := Allocate(m, size, alignment, created).0;
            t == m.(buddy := t.buddy, leaked := m.leaked + {n}) && t.buddy.order == m.buddy.order
    ensures n >= 1 && Level(n) <= m.buddy.order && Size(m.buddy.order, n) == NextPowerOfTwo(size)
  {
    GrantIsTracked(m, size, alignment);
    GrantedIsSmall(m, size, alignment);
    AllocateKeepsOrder(m, size, alignment, created);
    n := BuddyModel.Allocate(m.buddy, NextPowerOfTwo(size), alignment).1.block;
  }

  lemma RoundedPowerOfTwo(order: nat)
    ensures NextPowerOfTwo(Pow2(order)) == Pow2(order) && IsPowerOfTwo(Pow2(order)) && LevelFor(order, Pow2(order)) == 0
  {
    NextPowerOfTwoIsLeast(Pow2(order), order);
    Pow2Log2(order);
    BitAndZeroPowerOfTwo(Pow2(order));
  }

  /** The first request for the only heap fails if the heap cannot be created. */
  lemma FirstRequestFails(m: Memory, size: nat)
    requires m == Initially(m.blockOrder, m.blockOrder) && MemoryInv(m) && size == Pow2(m.blockOrder)
    ensures Allocate(m, size, size, None).1 == HeapCreationFailed
  {
    RoundedPowerOfTwo(m.blockOrder);
    assert IsFreeAtLevel(m.buddy, 1, 0);
    assert SomethingFits(m.buddy, 0);
    AnswerIff(m, size, size, None);
    assert forall i :: 0 <= i < |m.tracked| ==> m.tracked[i].heap == None;
  }

  lemma OneCall(m: Memory, order: nat, call: Call)
    requires m == Initially(order, order) && MemoryInv(m)
    ensures Run(order, order, [call]) == Step(m, call)
  {
    assert [call][..0] == [];
  }

  /** With the root taken there is no free block. */
  lemma NothingFree(t: Memory, n: int)
    requires MemoryInv(t) && n in t.leaked && n >= 1 && Level(n) == 0
    ensures forall level: nat :: !SomethingFits(t.buddy, level)
  {
    assert n == 1 && n in Live(t.buddy);
    forall k, l: nat
      ensures !IsFreeAtLevel(t.buddy, k, l)
    {
      if k in t.buddy.blocks && k != 1 {
        assert NodeOk(t.buddy, k);
        RootIsAncestor(k);
        NothingBelowLeaf(t.buddy, 1, k);
        assert false;
      }
    }
  }

  lemma LargestIsRoot(order: nat, n: int)
    requires n >= 1 && Level(n) <= order && Size(order, n) == Pow2(order)
    ensures Level(n) == 0
  {
    if Level(n) > 0 { Pow2Monotone(order - Level(n), order); }
  }

  /**
   A run in which the leak happens, for every system of one heap: the first request cannot create
   the heap. Then nothing is in use, but no later request is ever granted.
   */
  lemma FailureCanExhaust(order: nat, size: nat, alignment: nat, created: Option<nat>)
    requires alignment >= 1 && IsPowerOfTwo(alignment) && alignment <= NextPowerOfTwo(size)
    ensures var r := Run(order, order, [Request(Pow2(order), Pow2(order), None)]);
            && r.At? && r.memory.returned == {} && r.memory.buddy != Initial(order)
            && Allocate(r.memory, size, alignment, created) == (r.memory, Invalid)
  {
    var m, whole := Initially(order, order), Pow2(order);
    InitiallyInv(order, order);
    OneCall(m, order, Request(whole, whole, None));
    var t := ExhaustedBy(m, whole);
    AllGivenBack(t);
    if 1 <= size <= Pow2(t.blockOrder) { RoundedSizeFits(t, size); }
    AnswerIff(t, size, alignment, created);
  }

  lemma ExhaustedBy(m: Memory, whole: nat) returns (t: Memory)
    requires m == Initially(m.blockOrder, m.blockOrder) && MemoryInv(m) && whole == Pow2(m.blockOrder)
    ensures t == Allocate(m, whole, whole, None).0 && MemoryInv(t)
    ensures t.returned == {} && t.leaked != {} && t.buddy.order == t.blockOrder == m.blockOrder
    ensures forall level: nat :: !SomethingFits(t.buddy, level)
  {
    FirstRequestFails(m, whole);
    AllocateKeepsInv(m, whole, whole, None);
    var n := FailedCall(m, whole, whole, None);
    RoundedPowerOfTwo(m.blockOrder);
    LargestIsRoot(m.blockOrder, n);
    t := Allocate(m, whole, whole, None).0;
    assert n in t.leaked;
    NothingFree(t, n);
  }
}
