/**
 Copies that reach the byte arithmetic of CopyArithmetic: the texture's size and the copy's range are
 validated first (src/dawn_native/Texture.cpp, src/dawn_native/CommandValidation.cpp), and empty
 copies are skipped.
 */
module TextureCopies {
  import opened DawnMath
  import opened CopyArithmetic

  const MAX_TEXTURE_DIMENSION_2D := 8192
  const MAX_TEXTURE_DIMENSION_3D := 2048
  const MAX_TEXTURE_ARRAY_LAYERS := 256

  /** The largest blocks of the format table (src/dawn_native/Format.cpp). */
  const MAX_BLOCK_BYTES := 16
  const MAX_BLOCK_SIDE := 12

  datatype Origin = Origin(x: nat, y: nat, z: nat)

  /** `block` is that of the aspect copied; `volume` tells three-dimensional textures from arrays. */
  datatype Texture = Texture(size: Extent, volume: bool, mipLevelCount: nat, compressed: bool, block: TexelBlock)

  predicate FormatOk(t: Texture) {
    && 1 <= t.block.byteSize <= MAX_BLOCK_BYTES
    && 1 <= t.block.width <= MAX_BLOCK_SIDE && 1 <= t.block.height <= MAX_BLOCK_SIDE
    && (!t.compressed ==> t.block.width == 1 && t.block.height == 1)
  }

  function Max(a: nat, b: nat): nat {
    if a < b then b else a
  }

  /** The side that is halved most often until it is 1. */
  function MaxMippedDimension(t: Texture): nat {
    var side := Max(t.size.width, t.size.height);
    if t.volume then Max(side, t.size.depthOrArrayLayers) else side
  }

  predicate HasTexels(t: Texture) {
    t.size.width != 0 && t.size.height != 0 && t.size.depthOrArrayLayers != 0
  }

  predicate ValidateTextureSize(t: Texture)
    requires FormatOk(t) && HasTexels(t)
  {
    var maxExtent :=
      if t.volume then Extent(MAX_TEXTURE_DIMENSION_3D, MAX_TEXTURE_DIMENSION_3D, MAX_TEXTURE_DIMENSION_3D)
      else Extent(MAX_TEXTURE_DIMENSION_2D, MAX_TEXTURE_DIMENSION_2D, MAX_TEXTURE_ARRAY_LAYERS);
    && t.size.width <= maxExtent.width && t.size.height <= maxExtent.height
    && t.size.depthOrArrayLayers <= maxExtent.depthOrArrayLayers
    && Log2(MaxMippedDimension(t)) + 1 >= t.mipLevelCount
    && (t.compressed ==> t.size.width % t.block.width == 0 && t.size.height % t.block.height == 0)
  }

  predicate TextureOk(t: Texture) {
    HasTexels(t) && FormatOk(t) && ValidateTextureSize(t)
  }

  // ----- Mip levels -----

  function Halved(x: nat, level: nat): nat {
    if x / Pow2(level) > 1 then x / Pow2(level) else 1
  }

  /** Array layers are not halved. */
  function MipLevelVirtualSize(t: Texture, level: nat): Extent {
    Extent(Halved(t.size.width, level), Halved(t.size.height, level),
           if t.volume then Halved(t.size.depthOrArrayLayers, level) else t.size.depthOrArrayLayers)
  }

  /** The least number of whole blocks, in texels. */
  function WholeBlocks(x: nat, d: nat): nat
    requires d >= 1
  {
    (x + d - 1) / d * d
  }

  function MipLevelPhysicalSize(t: Texture, level: nat): Extent
    requires FormatOk(t)
  {
    var extent := MipLevelVirtualSize(t, level);
    if t.compressed && level != 0 then
      extent.(width := WholeBlocks(extent.width, t.block.width), height := WholeBlocks(extent.height, t.block.height))
    else
      extent
  }

  lemma HalvedBounds(x: nat, level: nat)
    requires x >= 1
    ensures 1 <= Halved(x, level) <= x && Halved(x, 0) == x
  {
    DivAtMost(x, Pow2(level));
    assert Pow2(0) == 1;
  }

  /** A size halved level by level, rounding down but never below 1. */
  function SideAt(side: nat, level: nat): nat {
    if level == 0 then side
    else
      var above := SideAt(side, level - 1);
      if above <= 1 then 1 else above / 2
  }

  lemma {:induction false} HalvedIsSide(side: nat, level: nat)
    requires side >= 1
    ensures Halved(side, level) == SideAt(side, level)
  {
    HalvedBounds(side, level);
    if level > 0 {
      HalvedIsSide(side, level - 1);
      HalvedBounds(side, level - 1);
      DivTwice(side, Pow2(level - 1));
    }
  }

  lemma DivTwice(x: nat, d: nat)
    requires d >= 1
    ensures x / (2 * d) == x / d / 2
  {
    var q, h := x / d, x / d / 2;
    assert x == d * q + x % d;
    assert q == 2 * h + q % 2;
    var r := d * (q % 2) + x % d;
    assert d * q == d * (2 * h) + d * (q % 2);
    assert d * (2 * h) == 2 * d * h;
    DivUnique(x, 2 * d, h, r);
  }

  /** A level of a texture has a single texel per layer. */
  ghost predicate SmallestLevel(t: Texture, level: nat) {
    && SideAt(t.size.width, level) <= 1 && SideAt(t.size.height, level) <= 1
    && (t.volume ==> SideAt(t.size.depthOrArrayLayers, level) <= 1)
  }

  lemma QuotientAboveOne(x: nat, d: nat)
    requires d >= 1
    ensures x / d > 1 <==> x >= 2 * d
  {
    var q := x / d;
    assert x == d * q + x % d;
    ProductGap(d, q - 2);
    if q >= 2 { MulMonotone(d, d, 2, q); } else if q == 1 { } else { assert d * q <= 0; }
  }

  lemma PowerBelowIff(side: nat, k: nat)
    requires side >= 1
    ensures Pow2(k) <= side <==> k <= Log2(side)
  {
    if k <= Log2(side) { Pow2Monotone(k, Log2(side)); } else { Pow2Monotone(Log2(side) + 1, k); }
  }

  lemma SideLargeIff(side: nat, level: nat)
    requires side >= 1
    ensures SideAt(side, level) > 1 <==> level < Log2(side)
  {
    HalvedIsSide(side, level);
    QuotientAboveOne(side, Pow2(level));
    PowerBelowIff(side, level + 1);
  }

  lemma LogOfMax(a: nat, b: nat)
    requires a >= 1 && b >= 1
    ensures Log2(Max(a, b)) == Max(Log2(a), Log2(b))
  {
    PowerBelowIff(a, Log2(b));
    PowerBelowIff(b, Log2(a));
  }

  /** A level after one with a single texel per layer is one too many. */
  lemma SmallestLevelIff(t: Texture, level: nat)
    requires HasTexels(t)
    ensures SmallestLevel(t, level) <==> Log2(MaxMippedDimension(t)) <= level
  {
    SideLargeIff(t.size.width, level);
    SideLargeIff(t.size.height, level);
    SideLargeIff(t.size.depthOrArrayLayers, level);
    LogOfMax(t.size.width, t.size.height);
    LogOfMax(Max(t.size.width, t.size.height), t.size.depthOrArrayLayers);
  }

  /** The limits of a texture: its sides and layers, whole blocks, and no level below a smallest one. */
  lemma TextureSizeRules(t: Texture)
    requires FormatOk(t) && HasTexels(t)
    ensures ValidateTextureSize(t) <==>
            && t.size.width <= (if t.volume then 2048 else 8192) && t.size.height <= (if t.volume then 2048 else 8192)
            && t.size.depthOrArrayLayers <= (if t.volume then 2048 else 256)
            && t.size.width % t.block.width == 0 && t.size.height % t.block.height == 0
            && (t.mipLevelCount >= 2 ==> !SmallestLevel(t, t.mipLevelCount - 2))
  {
    if t.mipLevelCount >= 2 { SmallestLevelIff(t, t.mipLevelCount - 2); }
    ByOne(t.size.width);
    ByOne(t.size.height);
  }

  lemma ByOne(x: nat)
    ensures x % 1 == 0
  {
  }

  lemma AlignMultiple(x: nat, d: nat)
    requires d >= 1 && x % d == 0
    ensures Align(x, d) == x
  {
    AlignIsLeast(x, d);
  }

  /** The physical size is the virtual size in whole blocks, and no larger than needed. */
  lemma PhysicalSizeIsAligned(t: Texture, level: nat)
    requires TextureOk(t)
    ensures var p, v := MipLevelPhysicalSize(t, level), MipLevelVirtualSize(t, level);
            && p.width == Align(v.width, t.block.width) && p.height == Align(v.height, t.block.height)
            && p.depthOrArrayLayers == v.depthOrArrayLayers
            && 1 <= v.width <= t.size.width && 1 <= v.height <= t.size.height
            && 1 <= v.depthOrArrayLayers <= t.size.depthOrArrayLayers
  {
    var v := MipLevelVirtualSize(t, level);
    HalvedBounds(t.size.width, level);
    HalvedBounds(t.size.height, level);
    HalvedBounds(t.size.depthOrArrayLayers, level);
    AlignByDivision(v.width, t.block.width);
    AlignByDivision(v.height, t.block.height);
    if !t.compressed || level == 0 {
      AlignMultiple(v.width, t.block.width);
      AlignMultiple(v.height, t.block.height);
    }
  }

  // ----- The range of a copy -----

  predicate NotEmpty(copy: Extent) {
    copy.width > 0 && copy.height > 0 && copy.depthOrArrayLayers > 0
  }

  predicate ValidateTextureCopyRange(t: Texture, level: nat, origin: Origin, copy: Extent)
    requires TextureOk(t)
  {
    var mipSize := MipLevelPhysicalSize(t, level);
    && origin.x + copy.width <= mipSize.width && origin.y + copy.height <= mipSize.height
    && origin.z + copy.depthOrArrayLayers <= mipSize.depthOrArrayLayers
    && (t.compressed ==>
          && origin.x % t.block.width == 0 && origin.y % t.block.height == 0
          && copy.width % t.block.width == 0 && copy.height % t.block.height == 0)
  }

  /** The texels of a mip level: its sides are padded to whole blocks, and array layers are not halved. */
  ghost predicate InLevel(t: Texture, level: nat, x: nat, y: nat, z: nat)
    requires FormatOk(t)
  {
    && x < Align(SideAt(t.size.width, level), t.block.width)
    && y < Align(SideAt(t.size.height, level), t.block.height)
    && z < if t.volume then SideAt(t.size.depthOrArrayLayers, level) else t.size.depthOrArrayLayers
  }

  ghost predicate InBox(origin: Origin, copy: Extent, x: nat, y: nat, z: nat) {
    && origin.x <= x < origin.x + copy.width && origin.y <= y < origin.y + copy.height
    && origin.z <= z < origin.z + copy.depthOrArrayLayers
  }

  /** The corners of the box are those of whole blocks. */
  ghost predicate WholeBlockBox(block: TexelBlock, origin: Origin, copy: Extent)
    requires block.width >= 1 && block.height >= 1
  {
    && origin.x % block.width == 0 && copy.width % block.width == 0
    && origin.y % block.height == 0 && copy.height % block.height == 0
  }

  /** A copy that is not empty is in range exactly if all its texels are in the level and it takes whole blocks. */
  lemma CopyRangeIff(t: Texture, level: nat, origin: Origin, copy: Extent)
    requires TextureOk(t) && NotEmpty(copy)
    ensures ValidateTextureCopyRange(t, level, origin, copy) <==>
            && (forall x: nat, y: nat, z: nat :: InBox(origin, copy, x, y, z) ==> InLevel(t, level, x, y, z))
            && WholeBlockBox(t.block, origin, copy)
  {
    PhysicalSizeIsAligned(t, level);
    HalvedIsSide(t.size.width, level);
    HalvedIsSide(t.size.height, level);
    HalvedIsSide(t.size.depthOrArrayLayers, level);
    var x, y, z := origin.x + copy.width - 1, origin.y + copy.height - 1, origin.z + copy.depthOrArrayLayers - 1;
    assert InBox(origin, copy, x, y, z);
  }

  /** A copy in range consists of whole blocks, and its rows are far from overflowing 32 bits. */
  lemma CopyInRange(t: Texture, level: nat, origin: Origin, copy: Extent)
    requires TextureOk(t) && ValidateTextureCopyRange(t, level, origin, copy)
    ensures CopyOk(t.block, copy)
    ensures RowBytes(t.block, copy) <= (MAX_TEXTURE_DIMENSION_2D + MAX_BLOCK_SIDE) * MAX_BLOCK_BYTES
  {
    RangeBounds(t, level, origin, copy);
    RowsAreShort(t.block, copy);
  }

  lemma RangeBounds(t: Texture, level: nat, origin: Origin, copy: Extent)
    requires TextureOk(t) && ValidateTextureCopyRange(t, level, origin, copy)
    ensures copy.width < MAX_TEXTURE_DIMENSION_2D + MAX_BLOCK_SIDE && copy.width % t.block.width == 0
    ensures copy.height < MAX_TEXTURE_DIMENSION_2D + MAX_BLOCK_SIDE && copy.height % t.block.height == 0
    ensures copy.depthOrArrayLayers <= MAX_TEXTURE_DIMENSION_3D
  {
    PhysicalSizeIsAligned(t, level);
    var v := MipLevelVirtualSize(t, level);
    AlignIsLeast(v.width, t.block.width);
    AlignIsLeast(v.height, t.block.height);
    ByOne(copy.width);
    ByOne(copy.height);
  }

  lemma RowsAreShort(block: TexelBlock, copy: Extent)
    requires block.width >= 1 && block.height >= 1 && 1 <= block.byteSize <= MAX_BLOCK_BYTES
    requires copy.width < MAX_TEXTURE_DIMENSION_2D + MAX_BLOCK_SIDE && copy.width % block.width == 0
    requires copy.height < MAX_TEXTURE_DIMENSION_2D + MAX_BLOCK_SIDE && copy.height % block.height == 0
    requires copy.depthOrArrayLayers <= MAX_TEXTURE_DIMENSION_3D
    ensures CopyOk(block, copy)
    ensures RowBytes(block, copy) <= (MAX_TEXTURE_DIMENSION_2D + MAX_BLOCK_SIDE) * MAX_BLOCK_BYTES
  {
    DivAtMost(copy.width, block.width);
    MulMonotone(copy.width / block.width, MAX_TEXTURE_DIMENSION_2D + MAX_BLOCK_SIDE, block.byteSize, MAX_BLOCK_BYTES);
  }

  /** For such copies the assertion inside Align holds, and the default stride holds a row. */
  lemma DefaultStrideHolds(t: Texture, level: nat, origin: Origin, copy: Extent, layout: Layout)
    requires TextureOk(t) && ValidateTextureCopyRange(t, level, origin, copy)
    requires layout.bytesPerRow == COPY_STRIDE_UNDEFINED
    ensures CopyOk(t.block, copy)
    ensures Align(RowBytes(t.block, copy), BYTES_PER_ROW_ALIGNMENT) < UINT32_RANGE
    ensures RowBytes(t.block, copy) <= Defaults(layout, t.block, copy).bytesPerRow
  {
    CopyInRange(t, level, origin, copy);
    AlignIsLeast(RowBytes(t.block, copy), BYTES_PER_ROW_ALIGNMENT);
    DefaultStrideExactIff(layout, t.block, copy);
  }

  /** Backends see no unspecified stride: what was given is kept, and the rest is the least that holds the copy. */
  lemma DefaultsAreLeast(t: Texture, level: nat, origin: Origin, copy: Extent, layout: Layout)
    requires TextureOk(t) && ValidateTextureCopyRange(t, level, origin, copy) && LayoutOk(layout)
    ensures CopyOk(t.block, copy)
    ensures var l := Defaults(layout, t.block, copy);
            && l.offset == layout.offset
            && l.bytesPerRow != COPY_STRIDE_UNDEFINED && l.rowsPerImage != COPY_STRIDE_UNDEFINED
            && (layout.bytesPerRow != COPY_STRIDE_UNDEFINED ==> l.bytesPerRow == layout.bytesPerRow)
            && (layout.rowsPerImage != COPY_STRIDE_UNDEFINED ==> l.rowsPerImage == layout.rowsPerImage)
            && (layout.bytesPerRow == COPY_STRIDE_UNDEFINED ==>
                  RowBytes(t.block, copy) <= l.bytesPerRow < RowBytes(t.block, copy) + 256 && l.bytesPerRow % 256 == 0)
            && (layout.rowsPerImage == COPY_STRIDE_UNDEFINED ==> l.rowsPerImage == HeightInBlocks(t.block, copy))
  {
    CopyInRange(t, level, origin, copy);
    RowDefault(t.block, copy, layout);
    HeightInRange(t, level, origin, copy);
  }

  lemma RowDefault(block: TexelBlock, copy: Extent, layout: Layout)
    requires CopyOk(block, copy)
    requires RowBytes(block, copy) <= (MAX_TEXTURE_DIMENSION_2D + MAX_BLOCK_SIDE) * MAX_BLOCK_BYTES
    ensures var stride := Defaults(layout, block, copy).bytesPerRow;
            layout.bytesPerRow == COPY_STRIDE_UNDEFINED ==>
              && RowBytes(block, copy) <= stride < RowBytes(block, copy) + BYTES_PER_ROW_ALIGNMENT
              && stride % BYTES_PER_ROW_ALIGNMENT == 0 && stride != COPY_STRIDE_UNDEFINED
  {
    var row := RowBytes(block, copy);
    AlignIsLeast(row, BYTES_PER_ROW_ALIGNMENT);
    SmallMod(Align(row, BYTES_PER_ROW_ALIGNMENT), UINT32_RANGE);
  }

  lemma HeightInRange(t: Texture, level: nat, origin: Origin, copy: Extent)
    requires TextureOk(t) && ValidateTextureCopyRange(t, level, origin, copy) && CopyOk(t.block, copy)
    ensures HeightInBlocks(t.block, copy) < MAX_TEXTURE_DIMENSION_2D + MAX_BLOCK_SIDE
  {
    RangeBounds(t, level, origin, copy);
  }

  // ----- Copies that the backends perform -----

  lemma SomeBlocks(x: nat, d: nat)
    requires d >= 1 && x > 0 && x % d == 0
    ensures x / d >= 1
  {
    assert x == d * (x / d) + x % d;
  }

  lemma SomeBytes(block: TexelBlock, copy: Extent)
    requires CopyOk(block, copy) && NotEmpty(copy)
    ensures RowBytes(block, copy) >= 1 && HeightInBlocks(block, copy) >= 1
  {
    SomeBlocks(copy.width, block.width);
    SomeBlocks(copy.height, block.height);
    MulMonotone(1, copy.width / block.width, 1, block.byteSize);
  }

  lemma RequiredHoldsRow(layout: Layout, block: TexelBlock, copy: Extent)
    requires CopyOk(block, copy) && copy.depthOrArrayLayers >= 1 && HeightInBlocks(block, copy) >= 1
    ensures RowBytes(block, copy) <= Required(block, copy, layout.bytesPerRow, layout.rowsPerImage)
  {
    var images := layout.bytesPerRow * layout.rowsPerImage;
    MulMonotone(0, layout.bytesPerRow, 0, layout.rowsPerImage);
    MulMonotone(0, images, 0, copy.depthOrArrayLayers - 1);
    MulMonotone(0, layout.bytesPerRow, 0, HeightInBlocks(block, copy) - 1);
  }

  lemma NotEmptyNeedsBytes(layout: Layout, bufferSize: nat, block: TexelBlock, copy: Extent)
    requires Validated(layout, bufferSize, block, copy) && NotEmpty(copy)
    ensures bufferSize > 0
  {
    SomeBytes(block, copy);
    RequiredHoldsRow(layout, block, copy);
  }

  /** For validated copies that are not empty, the test holds if and only if every byte is written. */
  lemma OverwrittenExact(layout: Layout, bufferSize: nat, block: TexelBlock, copy: Extent)
    requires Validated(layout, bufferSize, block, copy) && NotEmpty(copy)
    ensures ComputeRequiredBytesInCopy(block, copy, layout.bytesPerRow, layout.rowsPerImage).Ok?
    ensures IsFullBufferOverwritten(layout, bufferSize, block, copy) <==> WritesAll(layout, bufferSize, block, copy)
  {
    NotEmptyNeedsBytes(layout, bufferSize, block, copy);
    OverwrittenIff(layout, bufferSize, block, copy);
  }

  /**
   From the checks of the encoder to the backend's decision: a copy whose range and data were
   validated, with default strides filled in, stays inside the buffer, and if it is not skipped as
   empty, the test for a fully overwritten buffer is exact.
   */
  lemma PerformedCopyExact(t: Texture, level: nat, origin: Origin, copy: Extent, layout: Layout, bufferSize: nat)
    requires TextureOk(t) && ValidateTextureCopyRange(t, level, origin, copy)
    requires LayoutOk(layout) && bufferSize < UINT64_RANGE
    requires CopyOk(t.block, copy) ==> ValidateLinearTextureData(layout, bufferSize, t.block, copy).Ok?
    ensures CopyOk(t.block, copy)
    ensures var l := Defaults(layout, t.block, copy);
            && (forall a: nat :: Written(l, t.block, copy, a) ==> a < bufferSize)
            && ComputeRequiredBytesInCopy(t.block, copy, l.bytesPerRow, l.rowsPerImage).Ok?
            && (NotEmpty(copy) ==>
                  (IsFullBufferOverwritten(l, bufferSize, t.block, copy) <==>
                   WritesAll(l, bufferSize, t.block, copy)))
  {
    CopyInRange(t, level, origin, copy);
    var l := Defaults(layout, t.block, copy);
    AcceptedThenValidated(layout, bufferSize, t.block, copy);
    WrittenIsInside(l, bufferSize, t.block, copy);
    OverwrittenIff(l, bufferSize, t.block, copy);
    if NotEmpty(copy) { OverwrittenExact(l, bufferSize, t.block, copy); }
  }
}
