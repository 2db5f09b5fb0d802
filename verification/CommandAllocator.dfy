/**
 Writing and reading command streams (src/dawn_native/CommandAllocator.{h,cpp}). The allocator
 appends items, the iterator yields them back in order at the same addresses.
 */
module CommandMemory {
  import opened DawnMath
  import opened CommandStream

  const SIZE_MAX_PLUS_ONE := 0x1_0000_0000_0000_0000
  const DEFAULT_BASE_ALLOCATION_SIZE := 2048
  const MAX_DOUBLED_SIZE := 16384

  /** The address space shared by allocators and iterators. */
  class Memory {
    var cells: Cells

    constructor ()
      ensures cells == map[]
    {
      cells := map[];
    }
  }

  // ----- Block sizes -----

  /** Sizes double from block to block up to a maximum; size_t arithmetic wraps. */
  function GrownSize(last: nat, minimumSize: nat): nat {
    var doubled := last * 2 % SIZE_MAX_PLUS_ONE;
    var capped := if doubled < MAX_DOUBLED_SIZE then doubled else MAX_DOUBLED_SIZE;
    if minimumSize > capped then minimumSize else capped
  }

  /**
   For commands that need at most twice the base size, the blocks have 4, 8 and then always 16 KiB. A
   command that needs more than that gets a block of just its size.
   */
  lemma {:induction false} BlockSizes(sizes: seq<nat>, minimums: seq<nat>, k: nat)
    requires |sizes| == |minimums| + 1 && k < |sizes| && sizes[0] == DEFAULT_BASE_ALLOCATION_SIZE
    requires forall i :: 0 <= i < |minimums| ==> sizes[i + 1] == GrownSize(sizes[i], minimums[i])
    ensures (forall i :: 0 <= i < k ==> minimums[i] <= 4096) ==>
              sizes[k] == if k == 0 then 2048 else if k == 1 then 4096 else if k == 2 then 8192 else 16384
    ensures k > 0 ==> minimums[k - 1] <= sizes[k]
    ensures k > 0 && minimums[k - 1] > 16384 ==> sizes[k] == minimums[k - 1]
  {
    if k > 0 {
      BlockSizes(sizes, minimums, k - 1);
      assert sizes[k - 1 + 1] == GrownSize(sizes[k - 1], minimums[k - 1]);
    }
  }

  class CommandAllocator {
    const heap: Memory
    /** Address of the one-word stand-in block used before the first allocation. */
    const mDummyEnum: nat
    var mBlocks: seq<Block>
    var mLastAllocationSize: nat
    var mCurrentPtr: nat
    var mEndPtr: nat

    /** What was written to the stand-in block and to mBlocks. */
    ghost var stream: Stream

    /** The cursor and the end are those of the last block of the stream. */
    ghost predicate Linked()
      reads this
    {
      && Sized(stream) && stream.blocks == [Block(mDummyEnum, ID_SIZE)] + mBlocks
      && stream.first[1] == 0
      && mCurrentPtr == stream.cursor[|mBlocks|]
      && mEndPtr == stream.blocks[|mBlocks|].start + stream.blocks[|mBlocks|].size
      && mLastAllocationSize < SIZE_MAX_PLUS_ONE
    }

    ghost predicate Valid()
      reads this, heap
    {
      Linked() && StreamOk(stream, heap.cells, |stream.blocks| - 1)
    }

    ghost function Contents(): seq<Item>
      reads this
    {
      Items(stream.entries)
    }

    constructor (heap: Memory, dummy: nat)
      requires dummy > 0 && dummy % 4 == 0
      ensures Valid() && this.heap == heap && mDummyEnum == dummy && mBlocks == [] && Contents() == []
    {
      this.heap, mDummyEnum, mBlocks := heap, dummy, [];
      mLastAllocationSize := DEFAULT_BASE_ALLOCATION_SIZE;
      mCurrentPtr, mEndPtr := dummy, dummy + ID_SIZE;
      stream := Stream([Block(dummy, ID_SIZE)], [dummy], [0, 0], []);
      new;
      assert BlockOk(stream, 0);
    }

    /** There is room for the record and, in the worst case, all padding and the next id. */
    predicate Fits(commandSize: nat)
      reads this
    {
      mEndPtr - mCurrentPtr >= WORST_CASE_ADDITIONAL_SIZE &&
      mEndPtr - mCurrentPtr - WORST_CASE_ADDITIONAL_SIZE >= commandSize
    }

    function NextAllocationSize(minimumSize: nat): nat
      reads this
    {
      GrownSize(mLastAllocationSize, minimumSize)
    }

    /** What malloc may return for a size: null, or word-aligned memory apart from all blocks. */
    ghost predicate MallocOk(block: nat, size: nat)
      reads this
    {
      block != 0 ==>
        && block % 4 == 0
        && forall i :: 0 <= i < |stream.blocks| ==> Disjoint(stream.blocks[i], Block(block, size))
    }

    /** The allocation overflows size_t, or malloc fails. */
    ghost predicate Fails(commandSize: nat, malloc: nat) {
      commandSize + WORST_CASE_ADDITIONAL_SIZE >= SIZE_MAX_PLUS_ONE || malloc == 0
    }

    /** Words other than those at two places keep their value. */
    twostate predicate OnlyWritesAt(p: nat, q: nat)
      reads heap
    {
      forall a :: a in old(heap.cells) && a != p && a != q ==> a in heap.cells && heap.cells[a] == old(heap.cells)[a]
    }

    lemma CursorAligned()
      requires Valid()
      ensures mCurrentPtr % 4 == 0 && mCurrentPtr > 0 && mCurrentPtr + ID_SIZE <= mEndPtr
    {
      assert BlockOk(stream, |mBlocks|);
    }

    /** Append a command, in a new block if need be; `malloc` is what malloc returns if it is called. */
    method Allocate(commandId: int, commandSize: nat, commandAlignment: nat, malloc: nat) returns (r: nat)
      requires Valid() && 0 <= commandId < END_OF_BLOCK && AlignmentOk(commandAlignment)
      requires commandSize < SIZE_MAX_PLUS_ONE
      requires Fits(commandSize) || MallocOk(malloc, NextAllocationSize(commandSize + WORST_CASE_ADDITIONAL_SIZE))
      modifies this, heap
      ensures Valid()
      ensures r == 0 <==> !old(Fits(commandSize)) && Fails(commandSize, malloc)
      ensures r == 0 ==> Contents() == old(Contents())
      ensures r != 0 ==>
                && Contents() == old(Contents()) + [Item(Record(commandId, commandSize, commandAlignment), r)]
                && r % commandAlignment == 0 && r + commandSize <= mCurrentPtr && mCurrentPtr + ID_SIZE <= mEndPtr
      ensures mBlocks == if r == 0 || old(Fits(commandSize)) then old(mBlocks)
                         else old(mBlocks +
                                  [Block(malloc, NextAllocationSize(commandSize + WORST_CASE_ADDITIONAL_SIZE))])
      ensures OnlyWritesAt(old(mCurrentPtr), malloc)
      decreases if Fits(commandSize) then 0 else 2
    {
      // It is always possible to write one id.
      CursorAligned();
      assert mCurrentPtr % 4 == 0 && mCurrentPtr + ID_SIZE <= mEndPtr;
      var remainingSize := mEndPtr - mCurrentPtr;
      if remainingSize >= WORST_CASE_ADDITIONAL_SIZE && remainingSize - WORST_CASE_ADDITIONAL_SIZE >= commandSize {
        r := WriteRecord(commandId, commandSize, commandAlignment);
      } else {
        r := AllocateInNewBlock(commandId, commandSize, commandAlignment, malloc);
      }
    }

    /** The good case: id, command and next id fit in the current block. */
    method WriteRecord(commandId: int, commandSize: nat, commandAlignment: nat) returns (commandAlloc: nat)
      requires Valid() && 0 <= commandId < END_OF_BLOCK && AlignmentOk(commandAlignment) && Fits(commandSize)
      modifies this`mCurrentPtr, this`stream, heap
      ensures Valid() && commandAlloc != 0 && commandAlloc % commandAlignment == 0
      ensures commandAlloc + commandSize <= mCurrentPtr && mCurrentPtr + ID_SIZE <= mEndPtr
      ensures Contents() == old(Contents()) + [Item(Record(commandId, commandSize, commandAlignment), commandAlloc)]
      ensures heap.cells == old(heap.cells)[old(mCurrentPtr) := commandId]
    {
      ghost var record := Record(commandId, commandSize, commandAlignment);
      CursorAligned();
      assert BlockOk(stream, |mBlocks|);
      RecordExtent(mCurrentPtr, record);
      AppendOk(stream, heap.cells, record);
      heap.cells := heap.cells[mCurrentPtr := commandId];
      commandAlloc := Align(mCurrentPtr + ID_SIZE, commandAlignment);
      mCurrentPtr := Align(commandAlloc + commandSize, ID_SIZE);
      stream := Append(stream, record);
    }

    /** Tag the current block so that a reader moves on to the next one. */
    method WriteEndTag()
      requires Valid()
      modifies heap
      ensures Valid() && StreamOk(stream, heap.cells, |stream.blocks|)
      ensures heap.cells == old(heap.cells)[mCurrentPtr := END_OF_BLOCK]
    {
      TagOk(stream, heap.cells);
      heap.cells := heap.cells[mCurrentPtr := END_OF_BLOCK];
    }

    method AllocateInNewBlock(commandId: int, commandSize: nat, commandAlignment: nat, malloc: nat) returns (r: nat)
      requires Valid() && 0 <= commandId < END_OF_BLOCK && AlignmentOk(commandAlignment) && !Fits(commandSize)
      requires commandSize < SIZE_MAX_PLUS_ONE
      requires MallocOk(malloc, NextAllocationSize(commandSize + WORST_CASE_ADDITIONAL_SIZE))
      modifies this, heap
      ensures Valid()
      ensures r == 0 <==> Fails(commandSize, malloc)
      ensures r == 0 ==> Contents() == old(Contents())
      ensures r != 0 ==>
                && Contents() == old(Contents()) + [Item(Record(commandId, commandSize, commandAlignment), r)]
                && r % commandAlignment == 0 && r + commandSize <= mCurrentPtr && mCurrentPtr + ID_SIZE <= mEndPtr
      ensures mBlocks == if r == 0 then old(mBlocks)
                         else old(mBlocks +
                                  [Block(malloc, NextAllocationSize(commandSize + WORST_CASE_ADDITIONAL_SIZE))])
      ensures OnlyWritesAt(old(mCurrentPtr), malloc)
      decreases 1
    {
      WriteEndTag();
      var requestedBlockSize := (commandSize + WORST_CASE_ADDITIONAL_SIZE) % SIZE_MAX_PLUS_ONE;
      if requestedBlockSize <= commandSize {
        return 0;
      }
      var ok := GetNewBlock(requestedBlockSize, malloc);
      if !ok {
        return 0;
      }
      // The command fits now, so this is the only second attempt.
      r := Allocate(commandId, commandSize, commandAlignment, malloc);
    }

    method GetNewBlock(minimumSize: nat, malloc: nat) returns (ok: bool)
      requires Valid() && StreamOk(stream, heap.cells, |stream.blocks|)
      requires ID_SIZE <= minimumSize < SIZE_MAX_PLUS_ONE && MallocOk(malloc, NextAllocationSize(minimumSize))
      modifies this
      ensures Valid() && ok == (malloc != 0) && Contents() == old(Contents())
      ensures mLastAllocationSize == old(NextAllocationSize(minimumSize)) >= minimumSize
      ensures ok ==> mCurrentPtr == malloc && mEndPtr - mCurrentPtr >= minimumSize &&
                     mBlocks == old(mBlocks) + [Block(malloc, mLastAllocationSize)]
      ensures !ok ==> mCurrentPtr == old(mCurrentPtr) && mBlocks == old(mBlocks)
    {
      mLastAllocationSize := NextAllocationSize(minimumSize);
      if malloc == 0 {
        return false;
      }
      ghost var b := Block(malloc, mLastAllocationSize);
      AddBlockOk(stream, heap.cells, b);
      mBlocks := mBlocks + [Block(malloc, mLastAllocationSize)];
      AlignOfMultiple(malloc, ID_SIZE);
      mCurrentPtr := Align(malloc, ID_SIZE);
      mEndPtr := malloc + mLastAllocationSize;
      stream := AddBlock(stream, b);
      return true;
    }

    /** Hand the blocks over to a reader; the allocator cannot be used afterwards. */
    method AcquireBlocks() returns (acquired: seq<Block>)
      requires Valid()
      modifies this`mBlocks, this`mCurrentPtr, this`mEndPtr, heap
      ensures acquired == old(mBlocks) == stream.blocks[1..] && mBlocks == [] && mCurrentPtr == 0 && mEndPtr == 0
      ensures StreamOk(stream, heap.cells, |stream.blocks|) && |stream.blocks| >= 1 && stream.first[1] == 0
      ensures heap.cells == old(heap.cells)[old(mCurrentPtr) := END_OF_BLOCK]
    {
      WriteEndTag();
      acquired := mBlocks;
      mBlocks, mCurrentPtr, mEndPtr := [], 0, 0;
    }
  }

  /** No block of one stream overlaps a block of the other. */
  ghost predicate Apart(s: Stream, t: Stream) {
    forall i, j :: 0 <= i < |s.blocks| && 0 <= j < |t.blocks| ==> Disjoint(s.blocks[i], t.blocks[j])
  }

  /** What is written into one block does not disturb streams apart from it. */
  lemma ApartKept(s: Stream, cells: Cells, closed: int, b: Block, p: int, value: int)
    requires StreamOk(s, cells, closed) && b.start <= p && p + ID_SIZE <= b.start + b.size
    requires forall i :: 0 <= i < |s.blocks| ==> Disjoint(s.blocks[i], b)
    ensures StreamOk(s, cells[p := value], closed)
  {
    forall k | 0 <= k < |s.entries|
      ensures s.entries[k].id in cells && s.entries[k].id != p
    {
      IdInBlock(s, cells, closed, k);
      assert BlockOk(s, s.entries[k].block);
      assert Disjoint(s.blocks[s.entries[k].block], b);
    }
    forall i | 0 <= i < closed
      ensures s.cursor[i] in cells && s.cursor[i] != p
    {
      assert Tagged(s, cells, i) && BlockOk(s, i);
    }
    StreamKept(s, cells, closed, cells[p := value]);
  }

  ghost predicate InLastBlock(s: Stream, p: nat) {
    && |s.blocks| >= 1
    && s.blocks[|s.blocks| - 1].start <= p
    && p + ID_SIZE <= s.blocks[|s.blocks| - 1].start + s.blocks[|s.blocks| - 1].size
  }

  /** Once t is taken over and tagged, a stream apart from both is still intact and apart from the result. */
  lemma LaterKept(s: Stream, t: Stream, later: Stream, cells: Cells, closed: int, p: nat)
    requires Sized(s) && Sized(t) && InLastBlock(t, p) && StreamOk(later, cells, closed)
    requires Apart(s, later) && Apart(t, later)
    ensures StreamOk(later, cells[p := END_OF_BLOCK], closed) && Apart(Concat(s, t), later)
  {
    ApartKept(later, cells, closed, t.blocks[|t.blocks| - 1], p, END_OF_BLOCK);
  }

  ghost function Streams(allocators: seq<CommandAllocator>): (streams: seq<Stream>)
    reads allocators
    ensures |streams| == |allocators|
    ensures forall i :: 0 <= i < |allocators| ==> streams[i] == allocators[i].stream
  {
    seq(|allocators|, i requires 0 <= i < |allocators| reads allocators => allocators[i].stream)
  }

  /** Everything written to the streams, in order. */
  ghost function AllItems(streams: seq<Stream>): seq<Item> {
    if streams == [] then []
    else AllItems(streams[..|streams| - 1]) + Items(streams[|streams| - 1].entries)
  }

  lemma AllItemsSnoc(streams: seq<Stream>, n: nat)
    requires n < |streams|
    ensures AllItems(streams[..n + 1]) == AllItems(streams[..n]) + Items(streams[n].entries)
  {
    assert streams[..n + 1][..n] == streams[..n];
  }

  ghost predicate EndApart(s: Stream, endOfBlock: nat) {
    forall j :: 0 <= j < |s.blocks| ==> Disjoint(s.blocks[j], Block(endOfBlock, ID_SIZE))
  }

  /** Streams apart from each other and from the reader's own tag. */
  ghost predicate AllApart(streams: seq<Stream>, endOfBlock: nat) {
    && (forall i, j :: 0 <= i < j < |streams| ==> Apart(streams[i], streams[j]))
    && (forall i :: 0 <= i < |streams| ==> EndApart(streams[i], endOfBlock))
  }

  ghost predicate WaitingAt(s: Stream, streams: seq<Stream>, cells: Cells, i: int)
    requires 0 <= i < |streams|
  {
    StreamOk(streams[i], cells, |streams[i].blocks| - 1) && Apart(s, streams[i])
  }

  /** The streams from n on are intact and apart from what was taken over. */
  ghost predicate Waiting(s: Stream, streams: seq<Stream>, cells: Cells, endOfBlock: nat, n: int) {
    && (forall i {:trigger WaitingAt(s, streams, cells, i)} :: 0 <= n <= i < |streams| ==>
          WaitingAt(s, streams, cells, i))
    && endOfBlock in cells && cells[endOfBlock] == END_OF_BLOCK
  }

  lemma WaitingStep(s: Stream, streams: seq<Stream>, cells: Cells, endOfBlock: nat, n: int, p: nat)
    requires AllApart(streams, endOfBlock) && Waiting(s, streams, cells, endOfBlock, n) && 0 <= n < |streams|
    requires Sized(s) && Sized(streams[n]) && InLastBlock(streams[n], p)
    ensures Waiting(Concat(s, streams[n]), streams, cells[p := END_OF_BLOCK], endOfBlock, n + 1)
  {
    forall i {:trigger streams[i]} | n + 1 <= i < |streams|
      ensures WaitingAt(Concat(s, streams[n]), streams, cells[p := END_OF_BLOCK], i)
    {
      assert WaitingAt(s, streams, cells, i);
      assert Apart(streams[n], streams[i]);
      LaterKept(s, streams[n], streams[i], cells, |streams[i].blocks| - 1, p);
    }
    assert EndApart(streams[n], endOfBlock);
  }

  // ----- Reading -----

  class CommandIterator {
    const heap: Memory
    /** Address of the iterator's own end tag, the only block of an empty iterator. */
    const mEndOfBlock: nat
    var mBlocks: seq<Block>
    var mCurrentPtr: nat
    var mCurrentBlock: nat

    /** What the blocks hold; the number of the next entry; whether its id was just read. */
    ghost var stream: Stream
    ghost var position: nat
    ghost var midRecord: bool

    ghost predicate AllClosed()
      reads this`mBlocks, this`stream, heap
    {
      stream.blocks == mBlocks && |mBlocks| >= 1 && StreamOk(stream, heap.cells, |mBlocks|)
    }

    ghost predicate Valid()
      reads this, heap
    {
      && AllClosed()
      && mCurrentBlock < |mBlocks|
      && stream.first[mCurrentBlock] <= position <= stream.first[mCurrentBlock + 1] <= |stream.entries|
      && (if midRecord
          then position < stream.first[mCurrentBlock + 1] && mCurrentPtr == stream.entries[position].id + ID_SIZE
          else Align(mCurrentPtr, ID_SIZE) == IdOf(stream, mCurrentBlock, position))
    }

    ghost function Contents(): seq<Item>
      reads this
    {
      Items(stream.entries)
    }

    /** What is still to be read. */
    ghost function Remaining(): seq<Item>
      requires position <= |stream.entries|
      reads this
    {
      Contents()[position..]
    }

    constructor (heap: Memory, endOfBlock: nat)
      requires endOfBlock > 0 && endOfBlock % 4 == 0
      requires endOfBlock in heap.cells && heap.cells[endOfBlock] == END_OF_BLOCK
      ensures Valid() && this.heap == heap && mEndOfBlock == endOfBlock && !midRecord
      ensures IsEmpty() && Contents() == Remaining() == []
    {
      this.heap, mEndOfBlock, mBlocks := heap, endOfBlock, [];
      mCurrentBlock, mCurrentPtr, position, midRecord := 0, 0, 0, false;
      stream := Stream([], [], [0], []);
      new;
      Reset();
    }

    predicate IsEmpty()
      reads this
    {
      mBlocks != [] && mBlocks[0].start == mEndOfBlock
    }

    /** Go back to the first command; an iterator without blocks gets its own end tag as one. */
    method Reset()
      requires stream.blocks == mBlocks && StreamOk(stream, heap.cells, |mBlocks|)
      requires mBlocks == [] ==>
                 && mEndOfBlock > 0 && mEndOfBlock % 4 == 0
                 && mEndOfBlock in heap.cells && heap.cells[mEndOfBlock] == END_OF_BLOCK
      modifies this
      ensures Valid() && !midRecord && stream.entries == old(stream.entries) && position == 0
      ensures mBlocks == if old(mBlocks) == [] then [Block(mEndOfBlock, ID_SIZE)] else old(mBlocks)
    {
      mCurrentBlock := 0;
      position, midRecord := 0, false;
      if mBlocks == [] {
        mCurrentPtr := mEndOfBlock;
        mBlocks := [Block(mEndOfBlock, ID_SIZE)];
        AddBlockOk(stream, heap.cells, Block(mEndOfBlock, ID_SIZE));
        stream := AddBlock(stream, Block(mEndOfBlock, ID_SIZE));
        assert Tagged(stream, heap.cells, 0);
        BlockStart(stream, heap.cells, 1, 0);
      } else {
        BlockStart(stream, heap.cells, |mBlocks|, 0);
        mCurrentPtr := Align(mBlocks[0].start, ID_SIZE);
      }
    }

    /** The id of the next command, or false once at the end; then reading starts over. */
    method NextCommandId() returns (ok: bool, commandId: int)
      requires Valid() && !midRecord
      modifies this
      ensures Valid() && stream.entries == old(stream.entries) && ok == (old(Remaining()) != [])
      ensures ok ==> position == old(position) && midRecord && commandId == Remaining()[0].record.id
      ensures !ok ==> position == 0 && !midRecord && commandId == END_OF_BLOCK
      decreases |mBlocks| - mCurrentBlock, 1
    {
      assert BlockOk(stream, mCurrentBlock);
      var idPtr := Align(mCurrentPtr, ID_SIZE);
      if position < stream.first[mCurrentBlock + 1] {
        IdInBlock(stream, heap.cells, |mBlocks|, position);
      } else {
        assert Tagged(stream, heap.cells, mCurrentBlock);
      }
      assert idPtr + ID_SIZE <= mBlocks[mCurrentBlock].start + mBlocks[mCurrentBlock].size;
      var id := heap.cells[idPtr];
      if id != END_OF_BLOCK {
        mCurrentPtr := idPtr + ID_SIZE;
        midRecord := true;
        return true, id;
      }
      ok, commandId := NextCommandIdInNewBlock();
    }

    method NextCommandIdInNewBlock() returns (ok: bool, commandId: int)
      requires Valid() && !midRecord && position == stream.first[mCurrentBlock + 1]
      modifies this
      ensures Valid() && stream.entries == old(stream.entries) && ok == (old(Remaining()) != [])
      ensures ok ==> position == old(position) && midRecord && commandId == Remaining()[0].record.id
      ensures !ok ==> position == 0 && !midRecord && commandId == END_OF_BLOCK
      decreases |mBlocks| - mCurrentBlock, 0
    {
      mCurrentBlock := mCurrentBlock + 1;
      if mCurrentBlock >= |mBlocks| {
        assert |old(Remaining())| == 0;
        Reset();
        return false, END_OF_BLOCK;
      }
      BlockStart(stream, heap.cells, |mBlocks|, mCurrentBlock);
      mCurrentPtr := Align(mBlocks[mCurrentBlock].start, ID_SIZE);
      ok, commandId := NextCommandId();
    }

    /** The data of the command whose id was just read; size and alignment are those it was written with. */
    method NextCommand(commandSize: nat, commandAlignment: nat) returns (commandPtr: nat)
      requires Valid() && midRecord
      requires Remaining()[0].record.size == commandSize && Remaining()[0].record.alignment == commandAlignment
      modifies this`mCurrentPtr, this`position, this`midRecord
      ensures Valid() && !midRecord && position == old(position) + 1
      ensures commandPtr == old(Remaining())[0].address
    {
      ghost var e := stream.entries[position];
      IdInBlock(stream, heap.cells, |mBlocks|, position);
      assert BlockOk(stream, mCurrentBlock);
      RecordExtent(e.id, e.record);
      commandPtr := Align(mCurrentPtr, commandAlignment);
      assert commandPtr == e.command;
      // The bound the program asserts (for the size of a size_t), and the one it needs.
      assert commandPtr + 8 <= mBlocks[mCurrentBlock].start + mBlocks[mCurrentBlock].size;
      assert commandPtr + commandSize <= mBlocks[mCurrentBlock].start + mBlocks[mCurrentBlock].size;
      mCurrentPtr := commandPtr + commandSize;
      midRecord := false;
      position := position + 1;
    }

    /** Additional data: its id must come next. */
    method NextData(dataSize: nat, dataAlignment: nat) returns (dataPtr: nat)
      requires Valid() && !midRecord && Remaining() != []
      requires Remaining()[0].record == Record(ADDITIONAL_DATA, dataSize, dataAlignment)
      modifies this
      ensures Valid() && !midRecord && stream.entries == old(stream.entries) && position == old(position) + 1
      ensures dataPtr == old(Remaining())[0].address
    {
      var hasId, id := NextCommandId();
      assert hasId && id == ADDITIONAL_DATA;
      dataPtr := NextCommand(dataSize, dataAlignment);
    }

    /** Take over the blocks of one allocator. */
    method AcquireOne(allocator: CommandAllocator)
      requires stream.blocks == mBlocks && StreamOk(stream, heap.cells, |mBlocks|)
      requires allocator.heap == heap && allocator.Valid() && Apart(stream, allocator.stream)
      modifies this`mBlocks, this`stream, heap, allocator`mBlocks, allocator`mCurrentPtr, allocator`mEndPtr
      ensures Sized(old(stream)) && Sized(allocator.stream) && |allocator.stream.blocks| >= 1
      ensures stream == Concat(old(stream), allocator.stream)
      ensures stream.blocks == mBlocks && StreamOk(stream, heap.cells, |mBlocks|)
      ensures Contents() == old(Contents()) + allocator.Contents()
      ensures heap.cells == old(heap.cells)[old(allocator.mCurrentPtr) := END_OF_BLOCK]
      ensures InLastBlock(allocator.stream, old(allocator.mCurrentPtr))
    {
      ghost var p := allocator.mCurrentPtr;
      ghost var t := allocator.stream;
      assert BlockOk(t, |allocator.mBlocks|);
      ApartKept(stream, heap.cells, |mBlocks|, t.blocks[|t.blocks| - 1], p, END_OF_BLOCK);
      var blocks := allocator.AcquireBlocks();
      ConcatOk(stream, t, heap.cells);
      mBlocks := mBlocks + blocks;
      stream := Concat(stream, t);
    }

    /** All streams before n are taken over; the allocators from n on are untouched. */
    ghost predicate Taking(allocators: seq<CommandAllocator>, streams: seq<Stream>, n: int)
      reads this, heap, allocators
    {
      && 0 <= n <= |allocators| == |streams|
      && stream.blocks == mBlocks && StreamOk(stream, heap.cells, |mBlocks|)
      && Contents() == AllItems(streams[..n])
      && (forall i :: n <= i < |allocators| ==> allocators[i].stream == streams[i] && allocators[i].Linked())
      && Waiting(stream, streams, heap.cells, mEndOfBlock, n)
    }

    method AcquireAt(allocators: seq<CommandAllocator>, ghost streams: seq<Stream>, n: nat)
      requires Taking(allocators, streams, n) && n < |allocators| && allocators[n].heap == heap
      requires AllApart(streams, mEndOfBlock)
      requires forall i, j :: 0 <= i < j < |allocators| ==> allocators[i] != allocators[j]
      modifies this`mBlocks, this`stream, heap
      modifies allocators[n]
      ensures Taking(allocators, streams, n + 1)
    {
      ghost var was, cells, p := stream, heap.cells, allocators[n].mCurrentPtr;
      assert allocators[n].stream == streams[n] && WaitingAt(stream, streams, cells, n);
      AcquireOne(allocators[n]);
      AllItemsSnoc(streams, n);
      WaitingStep(was, streams, cells, mEndOfBlock, n, p);
    }

    /** Take over the blocks of several allocators and start reading. */
    method AcquireCommandBlocks(allocators: seq<CommandAllocator>)
      requires IsEmpty() && mEndOfBlock in heap.cells && heap.cells[mEndOfBlock] == END_OF_BLOCK
      requires mEndOfBlock > 0 && mEndOfBlock % 4 == 0
      requires forall i :: 0 <= i < |allocators| ==> allocators[i].heap == heap && allocators[i].Valid()
      requires forall i, j :: 0 <= i < j < |allocators| ==> allocators[i] != allocators[j]
      requires AllApart(Streams(allocators), mEndOfBlock)
      modifies this, heap, allocators
      ensures Valid() && !midRecord && position == 0
      ensures Contents() == AllItems(old(Streams(allocators)))
    {
      ghost var streams := Streams(allocators);
      mBlocks := [];
      stream := Stream([], [], [0], []);
      for n := 0 to |allocators|
        invariant Taking(allocators, streams, n)
      {
        AcquireAt(allocators, streams, n);
      }
      assert streams[..|allocators|] == streams;
      assert Contents() == AllItems(streams);
      Reset();
    }
  }

  /**
   The loop every reader of a command buffer runs: all ids at their addresses in the order written,
   across blocks and allocators, and at the end the iterator is back at the start. `shapes` are the
   sizes and alignments the reader knows from the ids and from the commands read before.
   */
  method ReadAll(commands: CommandIterator, shapes: seq<(nat, nat)>) returns (ids: seq<int>, addresses: seq<nat>)
    requires commands.Valid() && !commands.midRecord && commands.position == 0
    requires |shapes| == |commands.Contents()|
    requires forall k :: 0 <= k < |shapes| ==>
               shapes[k] == (commands.Contents()[k].record.size, commands.Contents()[k].record.alignment)
    modifies commands
    ensures commands.Valid() && !commands.midRecord && commands.position == 0
    ensures commands.Contents() == old(commands.Contents())
    ensures |ids| == |addresses| == |commands.Contents()|
    ensures forall k :: 0 <= k < |ids| ==>
              ids[k] == commands.Contents()[k].record.id && addresses[k] == commands.Contents()[k].address
  {
    ids, addresses := [], [];
    ghost var entries := commands.stream.entries;
    var ok, id := commands.NextCommandId();
    while ok
      invariant commands.Valid() && commands.stream.entries == entries && commands.midRecord == ok
      invariant |ids| == |addresses| <= |entries|
      invariant ok ==> commands.position == |ids| < |entries| && id == entries[|ids|].record.id
      invariant !ok ==> commands.position == 0 && |ids| == |entries|
      invariant forall k :: 0 <= k < |ids| ==> ids[k] == entries[k].record.id && addresses[k] == entries[k].command
      decreases |entries| - |ids|, ok
    {
      var address := commands.NextCommand(shapes[|ids|].0, shapes[|ids|].1);
      ids, addresses := ids + [id], addresses + [address];
      ok, id := commands.NextCommandId();
    }
  }
}
