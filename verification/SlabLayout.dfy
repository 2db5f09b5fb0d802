/** Where a slab's blocks lie in memory (src/common/SlabAllocator.{h,cpp}). */
module SlabLayout {
  import opened DawnMath

  /** Two 16-bit indices. */
  const NODE_SIZE := 4
  const NODE_ALIGNMENT := 2
  const INVALID_INDEX := 0xFFFF
  const UINT32_RANGE := 0x1_0000_0000

  /** What the allocator is built for; the first two are the size and alignment of a slab's header. */
  datatype Sizes = Sizes(slabSize: nat, slabAlignment: nat, objectSize: nat, objectAlignment: nat)

  ghost predicate SizesOk(z: Sizes) {
    && z.slabAlignment >= 1 && IsPowerOfTwo(z.slabAlignment) && z.slabAlignment % NODE_ALIGNMENT == 0
    && z.slabSize % z.slabAlignment == 0
    && z.objectAlignment >= 1 && IsPowerOfTwo(z.objectAlignment)
  }

  datatype Layout = Layout(
    allocationAlignment: nat,
    slabBlocksOffset: nat,
    indexLinkNodeOffset: nat,
    blockStride: nat,
    blocksPerSlab: nat,
    totalAllocationSize: int)

  /** The product of the number of blocks and the stride is taken in 32 bits before it is widened. */
  function MakeLayout(z: Sizes, blocksPerSlab: nat): Layout
    requires SizesOk(z)
  {
    var alignment := if z.slabAlignment > z.objectAlignment then z.slabAlignment else z.objectAlignment;
    var blocksOffset := Align(z.slabSize, z.objectAlignment);
    var nodeOffset := Align(z.objectSize, NODE_ALIGNMENT);
    var stride := Align(nodeOffset + NODE_SIZE, z.objectAlignment);
    Layout(alignment, blocksOffset, nodeOffset, stride, blocksPerSlab,
           blocksOffset + blocksPerSlab * stride % UINT32_RANGE + alignment)
  }

  /** The bytes of a slab: its header and its blocks. */
  function Extent(l: Layout): int {
    l.slabBlocksOffset + l.blockStride * l.blocksPerSlab
  }

  // ----- Address arithmetic -----

  /** Conversion of an int to a signed 16-bit value. */
  function ToInt16(x: int): int {
    (x + 0x8000) % 0x1_0000 - 0x8000
  }

  function OffsetFrom(l: Layout, node: int, offset: int): int {
    node + l.blockStride * ToInt16(offset)
  }

  function NodeFromObject(l: Layout, ptr: int): int {
    ptr + l.indexLinkNodeOffset
  }

  function ObjectFromNode(l: Layout, node: int): int {
    node - l.indexLinkNodeOffset
  }

  /** The slab that Deallocate computes from an object and the index stored behind it. */
  function SlabFromObject(l: Layout, ptr: int, index: int): int {
    ObjectFromNode(l, OffsetFrom(l, NodeFromObject(l, ptr), -index)) - l.slabBlocksOffset
  }

  function ObjectAddress(l: Layout, slab: int, i: int): int {
    slab + l.slabBlocksOffset + l.blockStride * i
  }

  function NodeAddress(l: Layout, slab: int, i: int): int {
    NodeFromObject(l, ObjectAddress(l, slab, i))
  }

  /** The index behind an object leads back to its slab. */
  lemma ObjectLeadsToSlab(l: Layout, slab: int, i: int)
    requires 0 <= i <= 0x8000
    ensures SlabFromObject(l, ObjectAddress(l, slab, i), i) == slab
  {
    assert ToInt16(-i) == -i;
    MulNegate(l.blockStride, i);
  }

  lemma MulNegate(a: int, b: int)
    ensures a * (-b) == -(a * b)
  {
  }

  /** Moving by an index difference moves between the nodes of a slab. */
  lemma NodeToNode(l: Layout, slab: int, i: int, j: int)
    requires 0 <= i < 0x8000 && 0 <= j < 0x8000
    ensures OffsetFrom(l, NodeAddress(l, slab, i), j - i) == NodeAddress(l, slab, j)
  {
    assert ToInt16(j - i) == j - i;
    MulSubtract(l.blockStride, j, i);
  }

  lemma MulSubtract(a: int, b: int, c: int)
    ensures a * (b - c) == a * b - a * c
  {
  }

  /** Initialising a new slab reaches every node exactly when a slab has at most 32768 blocks. */
  lemma NodesReachableIff(l: Layout, slab: int)
    requires l.blockStride >= 1 && l.blocksPerSlab <= INVALID_INDEX
    ensures (forall i :: 0 <= i < l.blocksPerSlab ==>
               OffsetFrom(l, NodeAddress(l, slab, 0), i) == NodeAddress(l, slab, i))
            <==> l.blocksPerSlab <= 0x8000
  {
    if l.blocksPerSlab <= 0x8000 {
      forall i | 0 <= i < l.blocksPerSlab
        ensures OffsetFrom(l, NodeAddress(l, slab, 0), i) == NodeAddress(l, slab, i)
      {
        NodeToNode(l, slab, 0, i);
      }
    } else {
      var i := 0x8000;
      assert ToInt16(i) == -0x8000;
      assert OffsetFrom(l, NodeAddress(l, slab, 0), i) == NodeAddress(l, slab, 0) - l.blockStride * 0x8000;
      assert OffsetFrom(l, NodeAddress(l, slab, 0), i) != NodeAddress(l, slab, i);
    }
  }

  // ----- The layout itself -----

  lemma PowersDivide(a: nat, b: nat)
    requires a >= 1 && b >= 1 && IsPowerOfTwo(a) && IsPowerOfTwo(b) && a <= b
    ensures b % a == 0
  {
    BitAndZeroPowerOfTwo(a);
    BitAndZeroPowerOfTwo(b);
    if Log2(a) > Log2(b) { Pow2Monotone(Log2(b), Log2(a)); }
    Pow2Divides(Log2(a), Log2(b));
  }

  lemma Reflexive(a: nat)
    requires a >= 1
    ensures a % a == 0
  {
    DivUnique(a, a, 1, 0);
  }

  lemma LayoutFacts(z: Sizes, n: nat)
    requires SizesOk(z)
    ensures var l := MakeLayout(z, n);
            && z.slabSize <= l.slabBlocksOffset
            && z.objectSize <= l.indexLinkNodeOffset
            && l.indexLinkNodeOffset + NODE_SIZE <= l.blockStride
            && l.allocationAlignment >= 1
            && l.allocationAlignment % z.objectAlignment == 0
            && l.allocationAlignment % z.slabAlignment == 0
            && l.slabBlocksOffset % z.objectAlignment == 0
            && l.blockStride % z.objectAlignment == 0
            && l.indexLinkNodeOffset % NODE_ALIGNMENT == 0
            && l.slabBlocksOffset % NODE_ALIGNMENT == 0
            && l.blockStride % NODE_ALIGNMENT == 0
  {
    AlignIsLeast(z.slabSize, z.objectAlignment);
    AlignIsLeast(z.objectSize, NODE_ALIGNMENT);
    var nodeOffset := Align(z.objectSize, NODE_ALIGNMENT);
    AlignIsLeast(nodeOffset + NODE_SIZE, z.objectAlignment);
    Reflexive(z.objectAlignment);
    Reflexive(z.slabAlignment);
    if z.slabAlignment > z.objectAlignment {
      PowersDivide(z.objectAlignment, z.slabAlignment);
    } else {
      PowersDivide(z.slabAlignment, z.objectAlignment);
    }
    EvenOffsets(z);
  }

  /** Both offsets of the layout are even, also for byte-aligned objects. */
  lemma EvenOffsets(z: Sizes)
    requires SizesOk(z)
    ensures Align(z.slabSize, z.objectAlignment) % NODE_ALIGNMENT == 0
    ensures Align(Align(z.objectSize, NODE_ALIGNMENT) + NODE_SIZE, z.objectAlignment) % NODE_ALIGNMENT == 0
  {
    var nodeOffset := Align(z.objectSize, NODE_ALIGNMENT);
    AlignIsLeast(z.objectSize, NODE_ALIGNMENT);
    ModTransitive(z.slabSize, z.slabAlignment, NODE_ALIGNMENT);
    if z.objectAlignment == 1 {
      AlignToOne(z.slabSize);
      AlignToOne(nodeOffset + NODE_SIZE);
    } else {
      assert IsPowerOfTwo(2) by { BitAndZeroPowerOfTwo(2); assert Log2(2) == 1; assert Pow2(1) == 2; }
      PowersDivide(2, z.objectAlignment);
      AlignIsLeast(z.slabSize, z.objectAlignment);
      AlignIsLeast(nodeOffset + NODE_SIZE, z.objectAlignment);
      ModTransitive(Align(z.slabSize, z.objectAlignment), z.objectAlignment, 2);
      ModTransitive(Align(nodeOffset + NODE_SIZE, z.objectAlignment), z.objectAlignment, 2);
    }
  }

  lemma AlignToOne(x: nat)
    ensures Align(x, 1) == x
  {
  }

  lemma MultipleAligned(base: nat, stride: nat, i: nat, offset: nat, a: nat)
    requires a >= 1 && base % a == 0 && stride % a == 0 && offset % a == 0
    ensures (base + offset + stride * i) % a == 0
  {
    if stride == 0 {
    } else {
      MultipleMod(i, stride);
      ModTransitive(stride * i, stride, a);
    }
    ModSum(base, offset, a);
    ModSum(base + offset, stride * i, a);
  }

  /** Every object and every node of an aligned slab is aligned. */
  lemma BlocksAligned(z: Sizes, n: nat, slab: nat, i: nat)
    requires SizesOk(z) && i < n && slab % MakeLayout(z, n).allocationAlignment == 0
    ensures var l := MakeLayout(z, n);
            && slab % z.slabAlignment == 0
            && ObjectAddress(l, slab, i) % z.objectAlignment == 0
            && NodeAddress(l, slab, i) % NODE_ALIGNMENT == 0
  {
    var l := MakeLayout(z, n);
    LayoutFacts(z, n);
    ModTransitive(slab, l.allocationAlignment, z.objectAlignment);
    ModTransitive(slab, l.allocationAlignment, z.slabAlignment);
    ModTransitive(slab, z.slabAlignment, NODE_ALIGNMENT);
    MultipleAligned(slab, l.blockStride, i, l.slabBlocksOffset, z.objectAlignment);
    MultipleAligned(slab, l.blockStride, i, l.slabBlocksOffset, NODE_ALIGNMENT);
    ModSum(ObjectAddress(l, slab, i), l.indexLinkNodeOffset, NODE_ALIGNMENT);
  }

  /** What LayoutFacts says about sizes. */
  ghost predicate Roomy(l: Layout, z: Sizes) {
    && z.slabSize <= l.slabBlocksOffset
    && z.objectSize <= l.indexLinkNodeOffset
    && l.indexLinkNodeOffset + NODE_SIZE <= l.blockStride
  }

  lemma BlocksApart(l: Layout, z: Sizes, slab: int, i: nat, j: nat)
    requires Roomy(l, z) && i < j < l.blocksPerSlab
    ensures NodeAddress(l, slab, i) + NODE_SIZE <= ObjectAddress(l, slab, j)
  {
    MulAtLeast(l.blockStride, i, j);
  }

  lemma LayoutRoomy(z: Sizes, n: nat)
    requires SizesOk(z)
    ensures Roomy(MakeLayout(z, n), z)
  {
    LayoutFacts(z, n);
  }

  lemma Commute(a: int, b: int)
    ensures a * b == b * a
  {
  }

  /**
   Header, objects and nodes follow each other without overlap, and every block ends inside an
   allocation of the slab's extent and its alignment.
   */
  lemma BlocksApartAndInside(z: Sizes, n: nat, allocation: nat, i: nat, j: nat)
    requires SizesOk(z) && i < n && j < n
    ensures var l := MakeLayout(z, n);
            && l.allocationAlignment >= 1
            && var slab := Align(allocation, l.allocationAlignment);
               && allocation <= slab
               && slab + z.slabSize <= ObjectAddress(l, slab, i)
               && ObjectAddress(l, slab, i) + z.objectSize <= NodeAddress(l, slab, i)
               && NodeAddress(l, slab, i) + NODE_SIZE <= allocation + Extent(l) + l.allocationAlignment
               && (i < j ==> NodeAddress(l, slab, i) + NODE_SIZE <= ObjectAddress(l, slab, j))
               && (j < i ==> NodeAddress(l, slab, j) + NODE_SIZE <= ObjectAddress(l, slab, i))
  {
    var l := MakeLayout(z, n);
    var slab := Align(allocation, l.allocationAlignment);
    LayoutFacts(z, n);
    LayoutRoomy(z, n);
    AlignIsLeast(allocation, l.allocationAlignment);
    BlockInside(l, z, slab, i);
    if i < j { BlocksApart(l, z, slab, i, j); }
    if j < i { BlocksApart(l, z, slab, j, i); }
  }

  lemma MulAtLeast(d: nat, i: nat, j: nat)
    requires i < j
    ensures d * i + d <= d * j
  {
    MulSubtract(d, j, i);
    if d > 0 { ProductGap(d, j - i); }
  }

  lemma BlockInside(l: Layout, z: Sizes, slab: int, i: nat)
    requires Roomy(l, z) && i < l.blocksPerSlab
    ensures slab + z.slabSize <= ObjectAddress(l, slab, i)
    ensures ObjectAddress(l, slab, i) + z.objectSize <= NodeAddress(l, slab, i)
    ensures NodeAddress(l, slab, i) + NODE_SIZE <= slab + Extent(l)
  {
    MulAtLeast(l.blockStride, i, l.blocksPerSlab);
    MulAtLeast(l.blockStride, 0, i + 1);
    MulSubtract(l.blockStride, i + 1, 1);
  }

  // ----- The 32-bit product in the size of an allocation -----

  /** All blocks of the slab in an allocation of the stored size end inside it. */
  ghost predicate HoldsBlocks(l: Layout, allocation: nat)
    requires l.allocationAlignment >= 1
  {
    forall i :: 0 <= i < l.blocksPerSlab ==>
      NodeAddress(l, Align(allocation, l.allocationAlignment), i) + NODE_SIZE <= allocation + l.totalAllocationSize
  }

  /** Alignments are powers of two stored in 32 bits, so neither padding makes up for a lost 2^32. */
  ghost predicate AlignmentsIn32Bits(z: Sizes) {
    z.slabAlignment <= 0x8000_0000 && z.objectAlignment <= 0x8000_0000
  }

  /** The allocation holds all blocks, wherever it lies, if and only if the product does not wrap. */
  lemma StoredSizeSufficesIff(z: Sizes, n: nat, allocation: nat)
    requires SizesOk(z) && AlignmentsIn32Bits(z)
    ensures MakeLayout(z, n).allocationAlignment >= 1
    ensures HoldsBlocks(MakeLayout(z, n), allocation) <==>
            n * MakeLayout(z, n).blockStride < UINT32_RANGE
  {
    if n * MakeLayout(z, n).blockStride < UINT32_RANGE {
      AllBlocksFit(z, n, allocation);
    } else {
      LastBlockSticksOut(z, n, allocation);
    }
  }

  lemma StoredSizeExactIff(z: Sizes, n: nat)
    requires SizesOk(z)
    ensures var l := MakeLayout(z, n);
            l.totalAllocationSize == Extent(l) + l.allocationAlignment <==> n * l.blockStride < UINT32_RANGE
  {
    var l := MakeLayout(z, n);
    Commute(n, l.blockStride);
    if n * l.blockStride < UINT32_RANGE { NoWrap(n * l.blockStride); } else { WrapLoses(n * l.blockStride); }
  }

  lemma AllBlocksFit(z: Sizes, n: nat, allocation: nat)
    requires SizesOk(z) && n * MakeLayout(z, n).blockStride < UINT32_RANGE
    ensures MakeLayout(z, n).allocationAlignment >= 1
    ensures HoldsBlocks(MakeLayout(z, n), allocation)
  {
    var l := MakeLayout(z, n);
    LayoutFacts(z, n);
    StoredSizeExactIff(z, n);
    forall i | 0 <= i < n
      ensures NodeAddress(l, Align(allocation, l.allocationAlignment), i) + NODE_SIZE
              <= allocation + l.totalAllocationSize
    {
      BlocksApartAndInside(z, n, allocation, i, i);
    }
  }

  lemma LastBlockSticksOut(z: Sizes, n: nat, allocation: nat)
    requires SizesOk(z) && AlignmentsIn32Bits(z)
    requires n * MakeLayout(z, n).blockStride >= UINT32_RANGE
    ensures MakeLayout(z, n).allocationAlignment >= 1
    ensures !HoldsBlocks(MakeLayout(z, n), allocation)
  {
    var l := MakeLayout(z, n);
    LayoutFacts(z, n);
    AlignIsLeast(allocation, l.allocationAlignment);
    AlignIsLeast(l.indexLinkNodeOffset + NODE_SIZE, z.objectAlignment);
    Commute(n, l.blockStride);
    MulSubtract(l.blockStride, n, 1);
    WrapLoses(n * l.blockStride);
    assert NodeAddress(l, Align(allocation, l.allocationAlignment), n - 1) + NODE_SIZE
           > allocation + l.totalAllocationSize;
  }

  /** 32768 blocks of 128 KiB: the product is 2^32 and the stored size has no room for any block. */
  lemma BigSlabIsTooSmall(z: Sizes, n: nat, allocation: nat)
    requires z == Sizes(40, 8, 131068, 4) && n == 0x8000
    ensures SizesOk(z) && AlignmentsIn32Bits(z) && MakeLayout(z, n).allocationAlignment == 8
    ensures !HoldsBlocks(MakeLayout(z, n), allocation)
  {
    BitAndZeroPowerOfTwo(8);
    BitAndZeroPowerOfTwo(4);
    assert Log2(8) == 3 && Log2(4) == 2;
    assert Pow2(3) == 8 && Pow2(2) == 4;
    assert MakeLayout(z, n).blockStride == 0x2_0000;
    StoredSizeSufficesIff(z, n, allocation);
  }

  lemma NoWrap(x: nat)
    requires x < UINT32_RANGE
    ensures x % UINT32_RANGE == x
  {
  }

  lemma WrapLoses(x: nat)
    requires x >= UINT32_RANGE
    ensures x % UINT32_RANGE <= x - UINT32_RANGE
  {
  }

  /** Different slabs in disjoint allocations have disjoint blocks. */
  lemma SlabsApart(z: Sizes, n: nat, a: nat, b: nat, i: nat, j: nat)
    requires SizesOk(z) && i < n && j < n
    requires a + Extent(MakeLayout(z, n)) + MakeLayout(z, n).allocationAlignment <= b
    ensures var l := MakeLayout(z, n);
            && l.allocationAlignment >= 1
            && NodeAddress(l, Align(a, l.allocationAlignment), i) + NODE_SIZE
               <= Align(b, l.allocationAlignment)
            && Align(b, l.allocationAlignment) <= ObjectAddress(l, Align(b, l.allocationAlignment), j)
  {
    var l := MakeLayout(z, n);
    LayoutFacts(z, n);
    LayoutRoomy(z, n);
    AlignIsLeast(a, l.allocationAlignment);
    AlignIsLeast(b, l.allocationAlignment);
    BlockInside(l, z, Align(a, l.allocationAlignment), i);
    BlockInside(l, z, Align(b, l.allocationAlignment), j);
  }
}
