/**
 Byte ranges of copies between buffers and textures: src/dawn_native/CommandValidation.cpp and the
 test for a fully overwritten buffer in src/dawn_native/CommandBuffer.cpp. Machine arithmetic is
 written with its wrap-around; the lemmas show that none occurs.
 */
module CopyArithmetic {
  import opened DawnMath

  const UINT32_RANGE := 0x1_0000_0000
  const UINT64_RANGE := 0x1_0000_0000_0000_0000
  /** An unspecified bytesPerRow or rowsPerImage. */
  const COPY_STRIDE_UNDEFINED := 0xFFFF_FFFF
  const BYTES_PER_ROW_ALIGNMENT := 256

  datatype TexelBlock = TexelBlock(width: nat, height: nat, byteSize: nat)

  datatype Extent = Extent(width: nat, height: nat, depthOrArrayLayers: nat)

  datatype Layout = Layout(offset: nat, bytesPerRow: nat, rowsPerImage: nat)

  /** All values fit their machine types and the extent consists of whole blocks. */
  predicate CopyOk(block: TexelBlock, copy: Extent) {
    && block.width >= 1 && block.height >= 1 && 1 <= block.byteSize < UINT32_RANGE
    && copy.width < UINT32_RANGE && copy.height < UINT32_RANGE && copy.depthOrArrayLayers < UINT32_RANGE
    && copy.width % block.width == 0 && copy.height % block.height == 0
    && copy.width / block.width * block.byteSize < UINT32_RANGE
  }

  predicate LayoutOk(layout: Layout) {
    layout.offset < UINT64_RANGE && layout.bytesPerRow < UINT32_RANGE && layout.rowsPerImage < UINT32_RANGE
  }

  function WidthInBlocks(block: TexelBlock, copy: Extent): nat
    requires CopyOk(block, copy)
  {
    copy.width / block.width
  }

  function HeightInBlocks(block: TexelBlock, copy: Extent): (h: nat)
    requires CopyOk(block, copy)
    ensures h <= copy.height
  {
    DivAtMost(copy.height, block.height);
    copy.height / block.height
  }

  lemma DivAtMost(x: nat, d: nat)
    requires d >= 1
    ensures x / d <= x
  {
    assert x == d * (x / d) + x % d;
    MulMonotone(1, d, x / d, x / d);
  }

  /** The bytes of one row of blocks. */
  function RowBytes(block: TexelBlock, copy: Extent): nat
    requires CopyOk(block, copy)
  {
    WidthInBlocks(block, copy) * block.byteSize
  }

  // ----- What a copy touches -----

  /** The address of byte c of row y of image z. */
  function Address(layout: Layout, z: nat, y: nat, c: nat): nat {
    layout.offset + z * (layout.bytesPerRow * layout.rowsPerImage) + y * layout.bytesPerRow + c
  }

  predicate InCopy(block: TexelBlock, copy: Extent, z: nat, y: nat, c: nat)
    requires CopyOk(block, copy)
  {
    z < copy.depthOrArrayLayers && y < HeightInBlocks(block, copy) && c < RowBytes(block, copy)
  }

  /** Byte b of block x of a row is a byte of that row, and all bytes of a row are of this form. */
  lemma BlocksMakeRows(block: TexelBlock, copy: Extent, x: nat, b: nat, c: nat)
    requires CopyOk(block, copy)
    ensures x < WidthInBlocks(block, copy) && b < block.byteSize ==> x * block.byteSize + b < RowBytes(block, copy)
    ensures c < RowBytes(block, copy) ==>
              && c / block.byteSize < WidthInBlocks(block, copy) && c % block.byteSize < block.byteSize
              && c == c / block.byteSize * block.byteSize + c % block.byteSize
  {
    if x < WidthInBlocks(block, copy) {
      MulMonotone(x + 1, WidthInBlocks(block, copy), block.byteSize, block.byteSize);
    }
    if c < RowBytes(block, copy) { DivBelow(c, block.byteSize, WidthInBlocks(block, copy)); }
  }

  /** One past the last byte touched, from the first one on, without machine arithmetic. */
  function Required(block: TexelBlock, copy: Extent, bytesPerRow: nat, rowsPerImage: nat): nat
    requires CopyOk(block, copy)
  {
    var h := HeightInBlocks(block, copy);
    if copy.depthOrArrayLayers == 0 then 0
    else
      MulMonotone(0, bytesPerRow, 0, rowsPerImage);
      MulMonotone(0, bytesPerRow * rowsPerImage, 0, copy.depthOrArrayLayers - 1);
      var images: nat := bytesPerRow * rowsPerImage * (copy.depthOrArrayLayers - 1);
      if h == 0 then images else images + bytesPerRow * (h - 1) + RowBytes(block, copy)
  }

  // ----- The program's arithmetic -----

  datatype Result<T> = Ok(value: T) | Err(error: Error)

  datatype Error =
    | ImagesTooLarge
    | StridesNotSpecified
    | BytesPerRowNotSpecified
    | BytesPerRowTooSmall
    | RowsPerImageTooSmall
    | DataTooSmall

  function Safe32x32(a: nat, b: nat): nat {
    a * b % UINT64_RANGE
  }

  lemma Safe32x32Exact(a: nat, b: nat)
    requires a < UINT32_RANGE && b < UINT32_RANGE
    ensures Safe32x32(a, b) == a * b <= 0xFFFF_FFFE_0000_0001
  {
    MulMonotone(a, 0xFFFF_FFFF, b, 0xFFFF_FFFF);
    SmallMod(a * b, UINT64_RANGE);
  }

  function ComputeRequiredBytesInCopy(block: TexelBlock, copy: Extent, bytesPerRow: nat, rowsPerImage: nat): Result<nat>
    requires CopyOk(block, copy)
  {
    var heightInBlocks := HeightInBlocks(block, copy);
    var bytesInLastRow := Safe32x32(WidthInBlocks(block, copy), block.byteSize);
    if copy.depthOrArrayLayers == 0 then Ok(0)
    else
      var bytesPerImage := Safe32x32(bytesPerRow, rowsPerImage);
      if bytesPerImage > 0xFFFF_FFFF_FFFF_FFFF / copy.depthOrArrayLayers then Err(ImagesTooLarge)
      else
        Ok(TotalBytes(bytesPerImage, copy.depthOrArrayLayers, bytesPerRow, heightInBlocks, bytesInLastRow))
  }

  /** All images but the last, and the rows of the last image up to the end of its last row. */
  function TotalBytes(bytesPerImage: nat, depth: nat, bytesPerRow: nat, heightInBlocks: nat, bytesInLastRow: nat): nat
    requires depth >= 1
  {
    var images := bytesPerImage * (depth - 1) % UINT64_RANGE;
    if heightInBlocks == 0 then images
    else
      var bytesInLastImage := (Safe32x32(bytesPerRow, heightInBlocks - 1) + bytesInLastRow) % UINT64_RANGE;
      (images + bytesInLastImage) % UINT64_RANGE
  }

  /** Rows and images lie behind each other, as far as there is more than one. */
  predicate Strided(block: TexelBlock, copy: Extent, layout: Layout)
    requires CopyOk(block, copy)
  {
    && (copy.depthOrArrayLayers > 1 || HeightInBlocks(block, copy) > 1 ==> RowBytes(block, copy) <= layout.bytesPerRow)
    && (copy.depthOrArrayLayers > 1 ==> HeightInBlocks(block, copy) <= layout.rowsPerImage)
  }

  lemma QuotientBound(x: nat, d: nat, m: nat)
    requires d >= 1
    ensures x <= m / d <==> x * d <= m
  {
    assert m == m / d * d + m % d;
    if x <= m / d { MulMonotone(x, m / d, d, d); } else { MulMonotone(m / d + 1, x, d, d); }
  }

  /** The last image is no larger than a full one. */
  lemma LastImageFits(bytesPerRow: nat, rowsPerImage: nat, h: nat, row: nat)
    requires 1 <= h <= rowsPerImage && row <= bytesPerRow
    ensures bytesPerRow * (h - 1) + row <= bytesPerRow * rowsPerImage
  {
    MulMonotone(bytesPerRow, bytesPerRow, h, rowsPerImage);
  }

  lemma TotalExact(bytesPerImage: nat, depth: nat, bytesPerRow: nat, h: nat, row: nat, images: int, rows: int)
    requires depth >= 1 && images == bytesPerImage * (depth - 1)
    requires rows == if h == 0 then 0 else bytesPerRow * (h - 1) + row
    requires images + rows < UINT64_RANGE
    ensures TotalBytes(bytesPerImage, depth, bytesPerRow, h, row) == images + rows
  {
    MulMonotone(0, bytesPerImage, 0, depth - 1);
    if h > 0 { MulMonotone(0, bytesPerRow, 0, h - 1); }
    SmallMod(images, UINT64_RANGE);
    SmallMod(rows, UINT64_RANGE);
    SmallMod(images + rows, UINT64_RANGE);
    if h > 0 { SmallMod(bytesPerRow * (h - 1), UINT64_RANGE); }
  }

  lemma RequiredOkIff(block: TexelBlock, copy: Extent, layout: Layout)
    requires CopyOk(block, copy) && LayoutOk(layout)
    ensures ComputeRequiredBytesInCopy(block, copy, layout.bytesPerRow, layout.rowsPerImage).Ok? <==>
            layout.bytesPerRow * layout.rowsPerImage * copy.depthOrArrayLayers < UINT64_RANGE
  {
    Safe32x32Exact(layout.bytesPerRow, layout.rowsPerImage);
    var bytesPerImage := layout.bytesPerRow * layout.rowsPerImage;
    if copy.depthOrArrayLayers > 0 {
      QuotientBound(bytesPerImage, copy.depthOrArrayLayers, 0xFFFF_FFFF_FFFF_FFFF);
    } else {
      ZeroTimes(bytesPerImage, copy.depthOrArrayLayers);
    }
  }

  /** It fails exactly when all images together overflow 64 bits; otherwise nothing wraps. */
  lemma RequiredExact(block: TexelBlock, copy: Extent, layout: Layout)
    requires CopyOk(block, copy) && LayoutOk(layout) && Strided(block, copy, layout)
    ensures var r := ComputeRequiredBytesInCopy(block, copy, layout.bytesPerRow, layout.rowsPerImage);
            && (r.Ok? <==> layout.bytesPerRow * layout.rowsPerImage * copy.depthOrArrayLayers < UINT64_RANGE)
            && (r.Ok? ==> r.value == Required(block, copy, layout.bytesPerRow, layout.rowsPerImage) < UINT64_RANGE)
  {
    var h, d, row := HeightInBlocks(block, copy), copy.depthOrArrayLayers, RowBytes(block, copy);
    var bytesPerImage := layout.bytesPerRow * layout.rowsPerImage;
    RequiredOkIff(block, copy, layout);
    if d > 0 && bytesPerImage * d < UINT64_RANGE {
      Safe32x32Exact(layout.bytesPerRow, layout.rowsPerImage);
      MulMonotone(bytesPerImage, bytesPerImage, d - 1, d);
      SmallMod(row, UINT64_RANGE);
      if h > 0 { SumFits(block, copy, layout); }
      TotalExact(bytesPerImage, d, layout.bytesPerRow, h, row, bytesPerImage * (d - 1),
                 if h == 0 then 0 else layout.bytesPerRow * (h - 1) + row);
    }
  }

  lemma SumFits(block: TexelBlock, copy: Extent, layout: Layout)
    requires CopyOk(block, copy) && LayoutOk(layout) && Strided(block, copy, layout)
    requires copy.depthOrArrayLayers >= 1 && HeightInBlocks(block, copy) >= 1
    requires layout.bytesPerRow * layout.rowsPerImage * copy.depthOrArrayLayers < UINT64_RANGE
    ensures 0 <= Required(block, copy, layout.bytesPerRow, layout.rowsPerImage) < UINT64_RANGE
  {
    var h, d, row := HeightInBlocks(block, copy), copy.depthOrArrayLayers, RowBytes(block, copy);
    var bytesPerImage := layout.bytesPerRow * layout.rowsPerImage;
    if d > 1 {
      LastImageFits(layout.bytesPerRow, layout.rowsPerImage, h, row);
      assert bytesPerImage * (d - 1) + bytesPerImage == bytesPerImage * d;
    } else {
      assert bytesPerImage * (d - 1) == 0;
      Safe32x32Exact(layout.bytesPerRow, h - 1);
    }
  }

  // ----- Accepted copies -----

  /** Data of `byteSize` bytes holds the copy. */
  function ValidateLinearTextureData(layout: Layout, byteSize: nat, block: TexelBlock, copy: Extent): Result<()>
    requires CopyOk(block, copy)
  {
    var heightInBlocks := HeightInBlocks(block, copy);
    if copy.depthOrArrayLayers > 1 &&
       (layout.bytesPerRow == COPY_STRIDE_UNDEFINED || layout.rowsPerImage == COPY_STRIDE_UNDEFINED)
    then Err(StridesNotSpecified)
    else if heightInBlocks > 1 && layout.bytesPerRow == COPY_STRIDE_UNDEFINED then Err(BytesPerRowNotSpecified)
    else
      var bytesInLastRow := WidthInBlocks(block, copy) * block.byteSize % UINT32_RANGE;
      if layout.bytesPerRow != COPY_STRIDE_UNDEFINED && bytesInLastRow > layout.bytesPerRow then
        Err(BytesPerRowTooSmall)
      else if layout.rowsPerImage != COPY_STRIDE_UNDEFINED && heightInBlocks > layout.rowsPerImage
      then Err(RowsPerImageTooSmall)
      else
        match ComputeRequiredBytesInCopy(block, copy, layout.bytesPerRow, layout.rowsPerImage)
        case Err(e) => Err(e)
        case Ok(required) =>
          if layout.offset <= byteSize && required <= byteSize - layout.offset then Ok(()) else Err(DataTooSmall)
  }

  /** An error names a rule that the copy breaks. */
  ghost predicate Explains(e: Error, layout: Layout, byteSize: nat, block: TexelBlock, copy: Extent)
    requires CopyOk(block, copy)
  {
    match e
    case StridesNotSpecified =>
      copy.depthOrArrayLayers > 1 && (layout.bytesPerRow == 0xFFFF_FFFF || layout.rowsPerImage == 0xFFFF_FFFF)
    case BytesPerRowNotSpecified => HeightInBlocks(block, copy) > 1 && layout.bytesPerRow == 0xFFFF_FFFF
    case BytesPerRowTooSmall => layout.bytesPerRow < RowBytes(block, copy)
    case RowsPerImageTooSmall => layout.rowsPerImage < HeightInBlocks(block, copy)
    case ImagesTooLarge => layout.bytesPerRow * layout.rowsPerImage * copy.depthOrArrayLayers >= UINT64_RANGE
    case DataTooSmall =>
      byteSize < layout.offset + Required(block, copy, layout.bytesPerRow, layout.rowsPerImage)
  }

  lemma ErrorExplains(layout: Layout, byteSize: nat, block: TexelBlock, copy: Extent)
    requires CopyOk(block, copy) && LayoutOk(layout)
    ensures var r := ValidateLinearTextureData(layout, byteSize, block, copy);
            r.Err? ==> Explains(r.error, layout, byteSize, block, copy)
  {
    SmallMod(RowBytes(block, copy), UINT32_RANGE);
    RequiredOkIff(block, copy, layout);
    if Strided(block, copy, layout) { RequiredExact(block, copy, layout); }
  }

  /** What an accepted layout satisfies. */
  lemma AcceptedIsStrided(layout: Layout, byteSize: nat, block: TexelBlock, copy: Extent)
    requires CopyOk(block, copy) && LayoutOk(layout)
    requires ValidateLinearTextureData(layout, byteSize, block, copy).Ok?
    ensures Strided(block, copy, layout)
    ensures layout.offset + Required(block, copy, layout.bytesPerRow, layout.rowsPerImage) <= byteSize
  {
    SmallMod(RowBytes(block, copy), UINT32_RANGE);
    RequiredExact(block, copy, layout);
  }

  /** Every address of a copy is below the required size, and for a copy that is not empty the last one is reached. */
  lemma AddressBelow(block: TexelBlock, copy: Extent, layout: Layout, z: nat, y: nat, c: nat)
    requires CopyOk(block, copy) && Strided(block, copy, layout) && InCopy(block, copy, z, y, c)
    ensures Address(layout, z, y, c) < layout.offset + Required(block, copy, layout.bytesPerRow, layout.rowsPerImage)
  {
    var h, d := HeightInBlocks(block, copy), copy.depthOrArrayLayers;
    var bytesPerImage := layout.bytesPerRow * layout.rowsPerImage;
    MulMonotone(z, d - 1, bytesPerImage, bytesPerImage);
    MulMonotone(y, h - 1, layout.bytesPerRow, layout.bytesPerRow);
    assert layout.bytesPerRow * (h - 1) == (h - 1) * layout.bytesPerRow;
    assert bytesPerImage * (d - 1) == (d - 1) * bytesPerImage;
  }

  lemma LastAddress(block: TexelBlock, copy: Extent, layout: Layout)
    requires CopyOk(block, copy)
    requires copy.depthOrArrayLayers >= 1 && HeightInBlocks(block, copy) >= 1 && RowBytes(block, copy) >= 1
    ensures var z, y, c := copy.depthOrArrayLayers - 1, HeightInBlocks(block, copy) - 1, RowBytes(block, copy) - 1;
            && InCopy(block, copy, z, y, c)
            && Address(layout, z, y, c) + 1 ==
               layout.offset + Required(block, copy, layout.bytesPerRow, layout.rowsPerImage)
  {
    var h, d := HeightInBlocks(block, copy), copy.depthOrArrayLayers;
    assert layout.bytesPerRow * (h - 1) == (h - 1) * layout.bytesPerRow;
    assert layout.bytesPerRow * layout.rowsPerImage * (d - 1) == (d - 1) * (layout.bytesPerRow * layout.rowsPerImage);
  }

  ghost predicate AllInside(layout: Layout, byteSize: nat, block: TexelBlock, copy: Extent)
    requires CopyOk(block, copy)
  {
    forall z: nat, y: nat, c: nat :: InCopy(block, copy, z, y, c) ==> Address(layout, z, y, c) < byteSize
  }

  /** The strides are given where they are needed and large enough. */
  predicate StridesOk(layout: Layout, block: TexelBlock, copy: Extent)
    requires CopyOk(block, copy)
  {
    && (copy.depthOrArrayLayers > 1 ==>
          layout.bytesPerRow != COPY_STRIDE_UNDEFINED && layout.rowsPerImage != COPY_STRIDE_UNDEFINED)
    && (HeightInBlocks(block, copy) > 1 ==> layout.bytesPerRow != COPY_STRIDE_UNDEFINED)
    && RowBytes(block, copy) <= layout.bytesPerRow && HeightInBlocks(block, copy) <= layout.rowsPerImage
  }

  /** A copy is accepted only if all its bytes are inside the data. */
  lemma AcceptedIsInside(layout: Layout, byteSize: nat, block: TexelBlock, copy: Extent)
    requires CopyOk(block, copy) && LayoutOk(layout)
    requires ValidateLinearTextureData(layout, byteSize, block, copy).Ok?
    ensures AllInside(layout, byteSize, block, copy)
  {
    AcceptedIsStrided(layout, byteSize, block, copy);
    forall z: nat, y: nat, c: nat | InCopy(block, copy, z, y, c)
      ensures Address(layout, z, y, c) < byteSize
    {
      AddressBelow(block, copy, layout, z, y, c);
    }
  }

  /** For a copy that is not empty the bound is tight. */
  lemma AcceptedIffInside(layout: Layout, byteSize: nat, block: TexelBlock, copy: Extent)
    requires CopyOk(block, copy) && LayoutOk(layout) && byteSize < UINT64_RANGE
    requires copy.depthOrArrayLayers >= 1 && HeightInBlocks(block, copy) >= 1 && RowBytes(block, copy) >= 1
    ensures ValidateLinearTextureData(layout, byteSize, block, copy).Ok? <==>
            && StridesOk(layout, block, copy)
            && layout.bytesPerRow * layout.rowsPerImage * copy.depthOrArrayLayers < UINT64_RANGE
            && AllInside(layout, byteSize, block, copy)
  {
    SmallMod(RowBytes(block, copy), UINT32_RANGE);
    if ValidateLinearTextureData(layout, byteSize, block, copy).Ok? {
      AcceptedIsInside(layout, byteSize, block, copy);
      AcceptedIsStrided(layout, byteSize, block, copy);
    }
    if StridesOk(layout, block, copy) {
      RequiredExact(block, copy, layout);
      if AllInside(layout, byteSize, block, copy) { LastAddress(block, copy, layout); }
    }
  }

  // ----- Default strides -----

  class TextureDataLayout {
    var layout: Layout

    constructor (layout: Layout)
      ensures this.layout == layout
    {
      this.layout := layout;
    }
  }

  /** The strides filled in for unspecified ones; 32-bit arithmetic wraps. */
  function Defaults(layout: Layout, block: TexelBlock, copy: Extent): Layout
    requires CopyOk(block, copy)
  {
    layout.(bytesPerRow := if layout.bytesPerRow == COPY_STRIDE_UNDEFINED
                           then Align(RowBytes(block, copy), BYTES_PER_ROW_ALIGNMENT) % UINT32_RANGE
                           else layout.bytesPerRow,
            rowsPerImage := if layout.rowsPerImage == COPY_STRIDE_UNDEFINED
                            then HeightInBlocks(block, copy) else layout.rowsPerImage)
  }

  method ApplyDefaultTextureDataLayoutOptions(l: TextureDataLayout, block: TexelBlock, copy: Extent)
    requires CopyOk(block, copy) && StridesOk(l.layout, block, copy)
    modifies l
    ensures l.layout == Defaults(old(l.layout), block, copy)
  {
    var heightInBlocks := copy.height / block.height;
    if l.layout.bytesPerRow == COPY_STRIDE_UNDEFINED {
      var widthInBlocks := copy.width / block.width;
      var bytesInLastRow := widthInBlocks * block.byteSize % UINT32_RANGE;
      SmallMod(RowBytes(block, copy), UINT32_RANGE);
      assert heightInBlocks <= 1 && copy.depthOrArrayLayers <= 1;
      l.layout := l.layout.(bytesPerRow := Align(bytesInLastRow, BYTES_PER_ROW_ALIGNMENT) % UINT32_RANGE);
    }
    if l.layout.rowsPerImage == COPY_STRIDE_UNDEFINED {
      assert copy.depthOrArrayLayers <= 1;
      l.layout := l.layout.(rowsPerImage := heightInBlocks);
    }
  }

  /** Defaults change neither the required size nor any address of the copy. */
  lemma DefaultsKeepCopy(layout: Layout, block: TexelBlock, copy: Extent)
    requires CopyOk(block, copy) && StridesOk(layout, block, copy)
    ensures var l := Defaults(layout, block, copy);
            && Required(block, copy, l.bytesPerRow, l.rowsPerImage) ==
               Required(block, copy, layout.bytesPerRow, layout.rowsPerImage)
            && Strided(block, copy, l)
            && forall z: nat, y: nat, c: nat :: InCopy(block, copy, z, y, c) ==>
                 Address(l, z, y, c) == Address(layout, z, y, c)
  {
    var l := Defaults(layout, block, copy);
    forall z: nat, y: nat, c: nat | InCopy(block, copy, z, y, c)
      ensures Address(l, z, y, c) == Address(layout, z, y, c)
    {
      ZeroTimes(l.bytesPerRow * l.rowsPerImage, z);
      ZeroTimes(layout.bytesPerRow * layout.rowsPerImage, z);
    }
    if copy.depthOrArrayLayers == 1 {
      ZeroTimes(l.bytesPerRow * l.rowsPerImage, 0);
      ZeroTimes(layout.bytesPerRow * layout.rowsPerImage, 0);
    }
  }

  /** The default stride holds a row, without overflow in Align, exactly for rows below the last 255 values. */
  lemma DefaultStrideExactIff(layout: Layout, block: TexelBlock, copy: Extent)
    requires CopyOk(block, copy) && layout.bytesPerRow == COPY_STRIDE_UNDEFINED
    ensures RowBytes(block, copy) <= Defaults(layout, block, copy).bytesPerRow <==>
            RowBytes(block, copy) <= UINT32_RANGE - BYTES_PER_ROW_ALIGNMENT
  {
    var row := RowBytes(block, copy);
    AlignIsLeast(row, BYTES_PER_ROW_ALIGNMENT);
    var aligned := Align(row, BYTES_PER_ROW_ALIGNMENT);
    if row <= UINT32_RANGE - BYTES_PER_ROW_ALIGNMENT {
      SmallMod(aligned, UINT32_RANGE);
    } else {
      NoMultipleBetween(UINT32_RANGE, aligned, BYTES_PER_ROW_ALIGNMENT);
      DivUnique(aligned, UINT32_RANGE, 1, aligned - UINT32_RANGE);
    }
  }

  lemma ZeroTimes(x: nat, z: nat)
    ensures z == 0 ==> z * x == 0 && x * z == 0
  {
  }

  /** Starts and length are 32-bit; the sum is taken in 64 bits. */
  predicate IsRangeOverlapped(startA: nat, startB: nat, length: nat) {
    var maxStart := if startA < startB then startB else startA;
    var minStart := if startA < startB then startA else startB;
    (minStart + length) % UINT64_RANGE > maxStart
  }

  predicate InRange(x: int, start: nat, length: nat) {
    start <= x < start + length
  }

  lemma OverlapIff(startA: nat, startB: nat, length: nat)
    requires startA < UINT32_RANGE && startB < UINT32_RANGE && length < UINT32_RANGE
    ensures IsRangeOverlapped(startA, startB, length) <==>
            exists x :: InRange(x, startA, length) && InRange(x, startB, length)
  {
    var x := if startA < startB then startB else startA;
    SmallMod(startA + length, UINT64_RANGE);
    SmallMod(startB + length, UINT64_RANGE);
    assert IsRangeOverlapped(startA, startB, length) ==> InRange(x, startA, length) && InRange(x, startB, length);
  }

  // ----- Overwriting a whole buffer -----

  predicate IsFullBufferOverwritten(layout: Layout, bufferSize: nat, block: TexelBlock, copy: Extent)
    requires CopyOk(block, copy)
    requires ComputeRequiredBytesInCopy(block, copy, layout.bytesPerRow, layout.rowsPerImage).Ok?
  {
    if layout.offset > 0 then false
    else if GapBetweenImages(layout, block, copy) then false
    else if GapBetweenRows(layout, block, copy) then false
    else
      var writtenBytes := ComputeRequiredBytesInCopy(block, copy, layout.bytesPerRow, layout.rowsPerImage).value;
      layout.offset == 0 && writtenBytes == bufferSize
  }

  predicate GapBetweenImages(layout: Layout, block: TexelBlock, copy: Extent)
    requires CopyOk(block, copy)
  {
    copy.depthOrArrayLayers > 1 && layout.rowsPerImage > HeightInBlocks(block, copy)
  }

  predicate GapBetweenRows(layout: Layout, block: TexelBlock, copy: Extent)
    requires CopyOk(block, copy)
  {
    (copy.depthOrArrayLayers > 1 || HeightInBlocks(block, copy) > 1) && layout.bytesPerRow > RowBytes(block, copy)
  }

  ghost predicate Written(layout: Layout, block: TexelBlock, copy: Extent, a: nat)
    requires CopyOk(block, copy)
  {
    exists z: nat, y: nat, c: nat :: InCopy(block, copy, z, y, c) && Address(layout, z, y, c) == a
  }

  /** The copy writes exactly the bytes of the buffer. */
  ghost predicate WritesAll(layout: Layout, bufferSize: nat, block: TexelBlock, copy: Extent)
    requires CopyOk(block, copy)
  {
    forall a: nat :: Written(layout, block, copy, a) <==> a < bufferSize
  }

  /** A copy that passed validation, with default strides filled in. */
  ghost predicate Validated(layout: Layout, bufferSize: nat, block: TexelBlock, copy: Extent) {
    && CopyOk(block, copy) && LayoutOk(layout) && Strided(block, copy, layout)
    && layout.bytesPerRow * layout.rowsPerImage * copy.depthOrArrayLayers < UINT64_RANGE
    && layout.offset + Required(block, copy, layout.bytesPerRow, layout.rowsPerImage) <= bufferSize < UINT64_RANGE
  }

  /** An accepted copy stays within bounds when default strides are filled in. */
  lemma AcceptedThenValidated(layout: Layout, bufferSize: nat, block: TexelBlock, copy: Extent)
    requires CopyOk(block, copy) && LayoutOk(layout) && bufferSize < UINT64_RANGE
    requires ValidateLinearTextureData(layout, bufferSize, block, copy).Ok?
    ensures Validated(Defaults(layout, block, copy), bufferSize, block, copy)
  {
    var l := Defaults(layout, block, copy);
    SmallMod(RowBytes(block, copy), UINT32_RANGE);
    AcceptedIsStrided(layout, bufferSize, block, copy);
    DefaultsKeepCopy(layout, block, copy);
    if copy.depthOrArrayLayers <= 1 {
      Safe32x32Exact(l.bytesPerRow, l.rowsPerImage);
      MulMonotone(l.bytesPerRow * l.rowsPerImage, l.bytesPerRow * l.rowsPerImage, copy.depthOrArrayLayers, 1);
    } else {
      RequiredOkIff(block, copy, layout);
      assert l == layout;
    }
  }

  /** Without gaps the copy is one run of images of whole rows. */
  lemma RequiredWithoutGaps(layout: Layout, block: TexelBlock, copy: Extent)
    requires CopyOk(block, copy) && Strided(block, copy, layout) && copy.depthOrArrayLayers >= 1
    requires !GapBetweenImages(layout, block, copy) && !GapBetweenRows(layout, block, copy)
    ensures var h, d, row := HeightInBlocks(block, copy), copy.depthOrArrayLayers, RowBytes(block, copy);
            Required(block, copy, layout.bytesPerRow, layout.rowsPerImage) == row * h * d
  {
    var h, d, row := HeightInBlocks(block, copy), copy.depthOrArrayLayers, RowBytes(block, copy);
    DistributeLast(row * h, d);
    if h > 0 { DistributeLast(row, h); } else { ZeroTimes(row, h); }
    if d == 1 {
      ZeroTimes(layout.bytesPerRow * layout.rowsPerImage, d - 1);
      ZeroTimes(row * h, d - 1);
      if h == 1 {
        ZeroTimes(layout.bytesPerRow, h - 1);
        ZeroTimes(row, h - 1);
      }
    } else {
      assert layout.bytesPerRow == row && layout.rowsPerImage == h;
    }
  }

  lemma DistributeLast(x: nat, n: nat)
    requires n >= 1
    ensures x * (n - 1) + x == x * n
  {
  }

  /** Byte a of such a run is in image a / (row * h), in row and column by the remainder. */
  lemma RunAddress(layout: Layout, block: TexelBlock, copy: Extent, a: nat)
    requires CopyOk(block, copy) && Strided(block, copy, layout) && copy.depthOrArrayLayers >= 1 && layout.offset == 0
    requires !GapBetweenImages(layout, block, copy) && !GapBetweenRows(layout, block, copy)
    requires a < RowBytes(block, copy) * HeightInBlocks(block, copy) * copy.depthOrArrayLayers
    ensures Written(layout, block, copy, a)
  {
    var h, d, row := HeightInBlocks(block, copy), copy.depthOrArrayLayers, RowBytes(block, copy);
    var z, y, c := Digits(row, h, d, a);
    assert InCopy(block, copy, z, y, c);
    if d == 1 {
      ZeroTimes(layout.bytesPerRow * layout.rowsPerImage, z);
      ZeroTimes(row * h, z);
    }
    if d == 1 && h == 1 {
      ZeroTimes(layout.bytesPerRow, y);
      ZeroTimes(row, y);
    }
    assert d > 1 ==> layout.bytesPerRow == row && layout.rowsPerImage == h;
    assert h > 1 ==> layout.bytesPerRow == row;
    assert Address(layout, z, y, c) == a;
  }

  lemma Digits(row: nat, h: nat, d: nat, a: nat) returns (z: nat, y: nat, c: nat)
    requires a < row * h * d
    ensures z < d && y < h && c < row && a == z * (row * h) + y * row + c
  {
    PositiveFactors(row, h, d, a);
    DivBelow(a, row * h, d);
    DivBelow(a % (row * h), row, h);
    z, y, c := a / (row * h), a % (row * h) / row, a % (row * h) % row;
  }

  lemma PositiveFactors(row: nat, h: nat, d: nat, a: nat)
    requires a < row * h * d
    ensures row >= 1 && h >= 1 && row * h >= 1
  {
    if row == 0 || h == 0 { assert row * h == 0; ZeroTimes(d, row * h); }
    MulMonotone(1, row, 1, h);
  }

  /** If the test says so, the copy writes exactly the whole buffer. */
  lemma OverwrittenIsAll(layout: Layout, bufferSize: nat, block: TexelBlock, copy: Extent)
    requires Validated(layout, bufferSize, block, copy)
    requires ComputeRequiredBytesInCopy(block, copy, layout.bytesPerRow, layout.rowsPerImage).Ok?
    requires IsFullBufferOverwritten(layout, bufferSize, block, copy)
    ensures WritesAll(layout, bufferSize, block, copy)
  {
    RequiredExact(block, copy, layout);
    WrittenIsInside(layout, bufferSize, block, copy);
    if copy.depthOrArrayLayers >= 1 {
      RequiredWithoutGaps(layout, block, copy);
      forall a: nat | a < bufferSize
        ensures Written(layout, block, copy, a)
      {
        RunAddress(layout, block, copy, a);
      }
    }
  }

  lemma WrittenIsInside(layout: Layout, bufferSize: nat, block: TexelBlock, copy: Extent)
    requires Validated(layout, bufferSize, block, copy)
    ensures forall a: nat :: Written(layout, block, copy, a) ==>
              layout.offset <= a < layout.offset + Required(block, copy, layout.bytesPerRow, layout.rowsPerImage)
  {
    forall a: nat | Written(layout, block, copy, a)
      ensures layout.offset <= a < layout.offset + Required(block, copy, layout.bytesPerRow, layout.rowsPerImage)
    {
      var z: nat, y: nat, c: nat :| InCopy(block, copy, z, y, c) && Address(layout, z, y, c) == a;
      AddressBelow(block, copy, layout, z, y, c);
      AddressAtLeast(layout, z, y, c);
    }
  }

  lemma AddressAtLeast(layout: Layout, z: nat, y: nat, c: nat)
    ensures layout.offset <= Address(layout, z, y, c)
  {
    MulMonotone(0, layout.bytesPerRow, 0, layout.rowsPerImage);
    MulMonotone(0, z, 0, layout.bytesPerRow * layout.rowsPerImage);
    MulMonotone(0, y, 0, layout.bytesPerRow);
  }

  /** A gap between rows leaves the byte behind the first row alone. */
  lemma RowGap(layout: Layout, block: TexelBlock, copy: Extent, z: nat, y: nat, c: nat)
    requires CopyOk(block, copy) && Strided(block, copy, layout) && GapBetweenRows(layout, block, copy)
    requires InCopy(block, copy, z, y, c)
    ensures Address(layout, z, y, c) != layout.offset + RowBytes(block, copy)
  {
    MulMonotone(0, z, 0, layout.bytesPerRow * layout.rowsPerImage);
    MulMonotone(0, y, 0, layout.bytesPerRow);
    if y >= 1 { MulMonotone(1, y, layout.bytesPerRow, layout.bytesPerRow); }
    if z >= 1 {
      MulMonotone(layout.bytesPerRow, layout.bytesPerRow, 1, layout.rowsPerImage);
      MulMonotone(1, z, layout.bytesPerRow, layout.bytesPerRow * layout.rowsPerImage);
    }
  }

  /** A gap between images leaves the first byte behind the rows of the first image alone. */
  lemma ImageGap(layout: Layout, block: TexelBlock, copy: Extent, z: nat, y: nat, c: nat)
    requires CopyOk(block, copy) && Strided(block, copy, layout) && GapBetweenImages(layout, block, copy)
    requires InCopy(block, copy, z, y, c)
    ensures Address(layout, z, y, c) != layout.offset + HeightInBlocks(block, copy) * layout.bytesPerRow
  {
    var h, bpr := HeightInBlocks(block, copy), layout.bytesPerRow;
    if z == 0 {
      ZeroTimes(bpr * layout.rowsPerImage, z);
      MulMonotone(y + 1, h, bpr, bpr);
      assert (y + 1) * bpr == y * bpr + bpr;
    } else {
      MulMonotone(h + 1, layout.rowsPerImage, bpr, bpr);
      assert (h + 1) * bpr == h * bpr + bpr;
      assert layout.rowsPerImage * bpr == bpr * layout.rowsPerImage;
      MulMonotone(1, z, bpr * layout.rowsPerImage, bpr * layout.rowsPerImage);
      MulMonotone(0, y, 0, bpr);
    }
  }

  /** Where a gap would be is still below the required size. */
  lemma GapsAreInside(layout: Layout, block: TexelBlock, copy: Extent)
    requires CopyOk(block, copy) && Strided(block, copy, layout)
    requires copy.depthOrArrayLayers >= 1 && HeightInBlocks(block, copy) >= 1 && RowBytes(block, copy) >= 1
    ensures GapBetweenRows(layout, block, copy) ==>
              RowBytes(block, copy) < Required(block, copy, layout.bytesPerRow, layout.rowsPerImage)
    ensures GapBetweenImages(layout, block, copy) ==>
              HeightInBlocks(block, copy) * layout.bytesPerRow <
              Required(block, copy, layout.bytesPerRow, layout.rowsPerImage)
  {
    var h, d, bpr := HeightInBlocks(block, copy), copy.depthOrArrayLayers, layout.bytesPerRow;
    var image := bpr * layout.rowsPerImage;
    MulMonotone(0, bpr, 0, layout.rowsPerImage);
    MulMonotone(0, image, 0, d - 1);
    MulMonotone(0, bpr, 0, h - 1);
    if h > 1 { MulMonotone(bpr, bpr, 1, h - 1); }
    if d > 1 {
      MulMonotone(bpr, bpr, h, layout.rowsPerImage);
      MulMonotone(bpr, bpr, 1, h);
      MulMonotone(image, image, 1, d - 1);
      assert h * bpr == bpr * h;
    }
  }

  /** A copy that writes all of a buffer that is not empty is not empty, starts at 0 and ends at the end. */
  lemma AllIsTight(layout: Layout, bufferSize: nat, block: TexelBlock, copy: Extent)
    requires Validated(layout, bufferSize, block, copy) && bufferSize > 0 && WritesAll(layout, bufferSize, block, copy)
    ensures layout.offset == 0 && Required(block, copy, layout.bytesPerRow, layout.rowsPerImage) == bufferSize
    ensures copy.depthOrArrayLayers >= 1 && HeightInBlocks(block, copy) >= 1 && RowBytes(block, copy) >= 1
  {
    WrittenIsInside(layout, bufferSize, block, copy);
    assert Written(layout, block, copy, 0) && Written(layout, block, copy, bufferSize - 1);
    var z: nat, y: nat, c: nat :| InCopy(block, copy, z, y, c) && Address(layout, z, y, c) == 0;
  }

  /** Such a copy has no gaps. */
  lemma AllHasNoGaps(layout: Layout, bufferSize: nat, block: TexelBlock, copy: Extent)
    requires Validated(layout, bufferSize, block, copy) && bufferSize > 0 && WritesAll(layout, bufferSize, block, copy)
    ensures !GapBetweenRows(layout, block, copy) && !GapBetweenImages(layout, block, copy)
  {
    AllIsTight(layout, bufferSize, block, copy);
    GapsAreInside(layout, block, copy);
    GapsAreNotWritten(layout, block, copy);
  }

  lemma AllIsOverwritten(layout: Layout, bufferSize: nat, block: TexelBlock, copy: Extent)
    requires Validated(layout, bufferSize, block, copy) && bufferSize > 0
    requires ComputeRequiredBytesInCopy(block, copy, layout.bytesPerRow, layout.rowsPerImage).Ok?
    requires WritesAll(layout, bufferSize, block, copy)
    ensures IsFullBufferOverwritten(layout, bufferSize, block, copy)
  {
    RequiredExact(block, copy, layout);
    AllIsTight(layout, bufferSize, block, copy);
    AllHasNoGaps(layout, bufferSize, block, copy);
  }

  lemma GapsAreNotWritten(layout: Layout, block: TexelBlock, copy: Extent)
    requires CopyOk(block, copy) && Strided(block, copy, layout)
    ensures GapBetweenRows(layout, block, copy) ==>
              !Written(layout, block, copy, layout.offset + RowBytes(block, copy))
    ensures GapBetweenImages(layout, block, copy) ==>
              !Written(layout, block, copy, layout.offset + HeightInBlocks(block, copy) * layout.bytesPerRow)
  {
    forall z: nat, y: nat, c: nat | InCopy(block, copy, z, y, c)
      ensures GapBetweenRows(layout, block, copy) ==>
                Address(layout, z, y, c) != layout.offset + RowBytes(block, copy)
      ensures GapBetweenImages(layout, block, copy) ==>
                Address(layout, z, y, c) != layout.offset + HeightInBlocks(block, copy) * layout.bytesPerRow
    {
      if GapBetweenRows(layout, block, copy) { RowGap(layout, block, copy, z, y, c); }
      if GapBetweenImages(layout, block, copy) { ImageGap(layout, block, copy, z, y, c); }
    }
  }

  /**
   The test is exact for every buffer that is not empty. An empty buffer is always overwritten, but
   strides larger than the copy make the test say no.
   */
  lemma OverwrittenIff(layout: Layout, bufferSize: nat, block: TexelBlock, copy: Extent)
    requires Validated(layout, bufferSize, block, copy)
    ensures ComputeRequiredBytesInCopy(block, copy, layout.bytesPerRow, layout.rowsPerImage).Ok?
    ensures IsFullBufferOverwritten(layout, bufferSize, block, copy) == WritesAll(layout, bufferSize, block, copy) <==>
            bufferSize > 0 || (!GapBetweenImages(layout, block, copy) && !GapBetweenRows(layout, block, copy))
  {
    RequiredExact(block, copy, layout);
    if IsFullBufferOverwritten(layout, bufferSize, block, copy) {
      OverwrittenIsAll(layout, bufferSize, block, copy);
    } else if bufferSize > 0 && WritesAll(layout, bufferSize, block, copy) {
      AllIsOverwritten(layout, bufferSize, block, copy);
    }
    if bufferSize == 0 { WrittenIsInside(layout, bufferSize, block, copy); }
  }

  /** Two rows of no images into an empty buffer, with a stride larger than a row: all is written, the test says no. */
  lemma EmptyBufferIsMissed(layout: Layout, block: TexelBlock, copy: Extent)
    requires layout == Layout(0, 256, 2) && block == TexelBlock(1, 1, 4) && copy == Extent(1, 2, 0)
    ensures Validated(layout, 0, block, copy)
    ensures ComputeRequiredBytesInCopy(block, copy, layout.bytesPerRow, layout.rowsPerImage).Ok?
    ensures WritesAll(layout, 0, block, copy) && !IsFullBufferOverwritten(layout, 0, block, copy)
  {
    assert forall z: nat, y: nat, c: nat :: !InCopy(block, copy, z, y, c);
  }
}
