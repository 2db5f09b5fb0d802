/**
 The whole life of command streams (src/dawn_native/CommandAllocator.{h,cpp}): several allocators
 write commands in turn, the application fills in the data of any command at any time, and one
 iterator then reads everything back.
 */
module CommandRoundTrip {
  import opened CommandStream
  import opened CommandMemory

  /** Write a record with an allocator, or overwrite bytes, at offsets into the data of an earlier write. */
  datatype Action = Write(allocator: nat, record: Record) | Fill(write: nat, bytes: set<int>)

  predicate ActionOk(actions: seq<Action>, count: nat, i: nat)
    requires i < |actions|
  {
    match actions[i]
    case Write(k, r) => k < count && RecordOk(r) && r.size < SIZE_MAX_PLUS_ONE
    case Fill(w, bytes) =>
      && w < i && actions[w].Write? && actions[w].allocator < count
      && forall offset :: offset in bytes ==> 0 <= offset < actions[w].record.size
  }

  /** What allocator k holds after the first actions, given the addresses they returned; 0 is a failure. */
  function Expected(actions: seq<Action>, results: seq<nat>, k: nat): seq<Item>
    requires |results| <= |actions|
  {
    if results == [] then []
    else
      var n := |results| - 1;
      var earlier := Expected(actions, results[..n], k);
      if actions[n].Write? && actions[n].allocator == k && results[n] != 0
      then earlier + [Item(actions[n].record, results[n])]
      else earlier
  }

  /** The contents of the first allocators, one after the other. */
  function AllExpected(actions: seq<Action>, results: seq<nat>, count: nat): seq<Item>
    requires |results| <= |actions|
  {
    if count == 0 then [] else AllExpected(actions, results, count - 1) + Expected(actions, results, count - 1)
  }

  lemma ExpectedSnoc(actions: seq<Action>, results: seq<nat>, r: nat, k: nat)
    requires |results| < |actions|
    ensures Expected(actions, results + [r], k) ==
            Expected(actions, results, k) +
            if actions[|results|].Write? && actions[|results|].allocator == k && r != 0
            then [Item(actions[|results|].record, r)] else []
  {
    assert (results + [r])[..|results|] == results;
  }

  /** Where a successful write is found. */
  lemma {:induction false} ExpectedHas(actions: seq<Action>, results: seq<nat>, w: nat) returns (j: nat)
    requires |results| <= |actions| && w < |results| && actions[w].Write? && results[w] != 0
    ensures var items := Expected(actions, results, actions[w].allocator);
            j < |items| && items[j] == Item(actions[w].record, results[w])
    decreases |results|
  {
    var n := |results| - 1;
    var k := actions[w].allocator;
    if w == n {
      j := |Expected(actions, results[..n], k)|;
    } else {
      j := ExpectedHas(actions, results[..n], w);
    }
  }

  // ----- Memory -----

  ghost predicate BlockApart(s: Stream, b: Block) {
    forall j :: 0 <= j < |s.blocks| ==> Disjoint(s.blocks[j], b)
  }

  /** The word at a shares a byte with b. */
  predicate Meets(a: int, b: Block) {
    a < b.start + b.size && b.start < a + ID_SIZE
  }

  /** No id and no end tag has a byte in memory apart from the stream's blocks. */
  lemma IdsOutside(s: Stream, cells: Cells, closed: int, b: Block)
    requires StreamOk(s, cells, closed) && BlockApart(s, b)
    ensures forall k :: 0 <= k < |s.entries| ==>
              s.entries[k].id in cells && s.entries[k].id > 0 && !Meets(s.entries[k].id, b)
    ensures forall i :: 0 <= i < closed ==>
              s.cursor[i] in cells && s.cursor[i] > 0 && !Meets(s.cursor[i], b)
  {
    forall k | 0 <= k < |s.entries|
      ensures s.entries[k].id in cells && s.entries[k].id > 0 && !Meets(s.entries[k].id, b)
    {
      IdInBlock(s, cells, closed, k);
      assert BlockOk(s, s.entries[k].block);
      assert Disjoint(s.blocks[s.entries[k].block], b);
    }
    forall i | 0 <= i < closed
      ensures s.cursor[i] in cells && s.cursor[i] > 0 && !Meets(s.cursor[i], b)
    {
      assert Tagged(s, cells, i) && BlockOk(s, i);
      assert Disjoint(s.blocks[i], b);
    }
  }

  /** Words without a byte in two pieces of memory do not change. */
  ghost predicate SameOutside(cells: Cells, cells': Cells, b: Block, c: Block) {
    forall a :: a in cells && a > 0 && !Meets(a, b) && !Meets(a, c) ==> a in cells' && cells'[a] == cells[a]
  }

  lemma StreamIntact(s: Stream, cells: Cells, closed: int, cells': Cells, b: Block, c: Block)
    requires StreamOk(s, cells, closed) && BlockApart(s, b) && BlockApart(s, c) && SameOutside(cells, cells', b, c)
    ensures StreamOk(s, cells', closed)
  {
    IdsOutside(s, cells, closed, b);
    IdsOutside(s, cells, closed, c);
    StreamKept(s, cells, closed, cells');
  }

  ghost predicate Intact(streams: seq<Stream>, cells: Cells, k: int)
    requires 0 <= k < |streams|
  {
    |streams[k].blocks| >= 1 && StreamOk(streams[k], cells, |streams[k].blocks| - 1)
  }

  ghost predicate Clear(streams: seq<Stream>, places: seq<Block>, k: int, i: int)
    requires 0 <= k < |streams| && 0 <= i < |places|
  {
    BlockApart(streams[k], places[i])
  }

  ghost predicate StreamsApart(streams: seq<Stream>, j: int, k: int)
    requires 0 <= j < |streams| && 0 <= k < |streams|
  {
    Apart(streams[j], streams[k])
  }

  /** The reader's tag, the allocators' stand-in words, and what malloc has to give, one place per action. */
  ghost predicate PlacesOk(places: seq<Block>) {
    && |places| >= 1 && places[0].size == ID_SIZE
    && (forall i :: 0 <= i < |places| ==> places[i].start > 0 && places[i].start % 4 == 0)
    && (forall i, j :: 0 <= i < j < |places| ==> Disjoint(places[i], places[j]))
  }

  /** All streams are intact, apart from each other, from the reader's tag and from the places not yet given. */
  ghost predicate World(streams: seq<Stream>, cells: Cells, places: seq<Block>, from: int) {
    && PlacesOk(places) && 1 <= from <= |places|
    && (forall k {:trigger Intact(streams, cells, k)} :: 0 <= k < |streams| ==> Intact(streams, cells, k))
    && (forall j, k {:trigger StreamsApart(streams, j, k)} :: 0 <= j < |streams| && 0 <= k < |streams| && j != k ==>
          StreamsApart(streams, j, k))
    && (forall k, i {:trigger Clear(streams, places, k, i)} ::
          0 <= k < |streams| && (i == 0 || from <= i < |places|) ==> Clear(streams, places, k, i))
    && places[0].start in cells && cells[places[0].start] == END_OF_BLOCK
  }

  /** A stream goes on in its blocks, or in one more block at the start of a place. */
  ghost predicate Continues(s: Stream, t: Stream, place: Block) {
    || t.blocks == s.blocks
    || (|t.blocks| == |s.blocks| + 1 && t.blocks[..|s.blocks|] == s.blocks &&
        t.blocks[|s.blocks|].start == place.start && t.blocks[|s.blocks|].size <= place.size)
  }

  lemma ContinuesApart(s: Stream, t: Stream, place: Block, b: Block)
    requires Continues(s, t, place) && BlockApart(s, b) && Disjoint(place, b)
    ensures BlockApart(t, b)
  {
    forall j | 0 <= j < |t.blocks|
      ensures Disjoint(t.blocks[j], b)
    {
      if j < |s.blocks| { assert t.blocks[j] == s.blocks[j]; }
    }
  }

  lemma ContinuesApartFrom(s: Stream, t: Stream, place: Block, u: Stream)
    requires Continues(s, t, place) && Apart(s, u) && BlockApart(u, place)
    ensures Apart(t, u) && Apart(u, t)
  {
    forall i, j | 0 <= i < |t.blocks| && 0 <= j < |u.blocks|
      ensures Disjoint(t.blocks[i], u.blocks[j])
    {
      assert Disjoint(u.blocks[j], place);
      if i < |s.blocks| { assert t.blocks[i] == s.blocks[i] && Disjoint(s.blocks[i], u.blocks[j]); }
    }
  }

  lemma ApartFromBlock(s: Stream, t: Stream, j: int)
    requires Apart(s, t) && 0 <= j < |t.blocks|
    ensures BlockApart(s, t.blocks[j])
  {
  }

  /** One allocator writes, in its last block and at the start of its place; everything else stays as it was. */
  lemma WriteKeepsWorld(streams: seq<Stream>, cells: Cells, places: seq<Block>, from: int, k: nat, t: Stream,
                        cells': Cells)
    requires World(streams, cells, places, from) && from < |places| && k < |streams|
    requires |t.blocks| >= 1 && StreamOk(t, cells', |t.blocks| - 1) && Continues(streams[k], t, places[from])
    requires |streams[k].blocks| >= 1
    requires SameOutside(cells, cells', streams[k].blocks[|streams[k].blocks| - 1], places[from])
    ensures World(streams[k := t], cells', places, from + 1)
  {
    var s, after := streams[k], streams[k := t];
    var last := s.blocks[|s.blocks| - 1];
    forall j | 0 <= j < |after|
      ensures Intact(after, cells', j)
    {
      if j != k {
        assert Intact(streams, cells, j) && StreamsApart(streams, j, k) && Clear(streams, places, j, from);
        ApartFromBlock(streams[j], s, |s.blocks| - 1);
        StreamIntact(streams[j], cells, |streams[j].blocks| - 1, cells', last, places[from]);
      }
    }
    forall j, l | 0 <= j < |after| && 0 <= l < |after| && j != l
      ensures StreamsApart(after, j, l)
    {
      assert StreamsApart(streams, j, l) && StreamsApart(streams, l, j);
      assert Clear(streams, places, j, from) && Clear(streams, places, l, from);
      if j == k { ContinuesApartFrom(s, t, places[from], streams[l]); }
      if l == k { ContinuesApartFrom(s, t, places[from], streams[j]); }
    }
    forall j, i | 0 <= j < |after| && (i == 0 || from + 1 <= i < |places|)
      ensures Clear(after, places, j, i)
    {
      assert Clear(streams, places, j, i);
      if j == k { ContinuesApart(s, t, places[from], places[i]); }
    }
    assert Clear(streams, places, k, 0);
    assert Disjoint(last, places[0]) && Disjoint(places[0], places[from]);
  }

  /** The application overwrites bytes of a command's data; no stream is disturbed. */
  lemma FillKeepsWorld(streams: seq<Stream>, cells: Cells, places: seq<Block>, from: int, k: nat, j: nat, cells': Cells)
    requires World(streams, cells, places, from) && k < |streams| && j < |streams[k].entries|
    requires var e := streams[k].entries[j];
             SameOutside(cells, cells', Block(e.command, e.record.size), Block(e.command, e.record.size))
    ensures World(streams, cells', places, from)
  {
    var s := streams[k];
    var e := s.entries[j];
    assert Intact(streams, cells, k);
    IdInBlock(s, cells, |s.blocks| - 1, j);
    assert BlockOk(s, e.block);
    RecordExtent(e.id, e.record);
    var b := s.blocks[e.block];
    assert SameOutside(cells, cells', b, b);
    forall i | 0 <= i < |streams|
      ensures Intact(streams, cells', i)
    {
      assert Intact(streams, cells, i);
      if i == k {
        FillKeepsStream(s, cells, |s.blocks| - 1, j, cells');
      } else {
        assert StreamsApart(streams, i, k);
        ApartFromBlock(streams[i], s, e.block);
        StreamIntact(streams[i], cells, |streams[i].blocks| - 1, cells', b, b);
      }
    }
    assert Clear(streams, places, k, 0);
    assert Disjoint(b, places[0]);
  }

  // ----- The allocators -----

  /** The allocators represent streams in an intact world. */
  ghost predicate Ready(allocators: seq<CommandAllocator>, heap: Memory, places: seq<Block>, from: int)
    reads allocators, heap
  {
    && (forall k :: 0 <= k < |allocators| ==> allocators[k].heap == heap && allocators[k].Linked())
    && World(Streams(allocators), heap.cells, places, from)
  }

  ghost predicate Distinct(allocators: seq<CommandAllocator>) {
    forall j, k :: 0 <= j < k < |allocators| ==> allocators[j] != allocators[k]
  }

  /** Each allocator holds what the actions wrote to it. */
  ghost predicate Holds(allocators: seq<CommandAllocator>, actions: seq<Action>, results: seq<nat>)
    reads allocators
  {
    |results| <= |actions| &&
    forall k :: 0 <= k < |allocators| ==> Items(allocators[k].stream.entries) == Expected(actions, results, k)
  }

  lemma AllocatorValid(allocators: seq<CommandAllocator>, heap: Memory, places: seq<Block>, from: int, k: int)
    requires Ready(allocators, heap, places, from) && 0 <= k < |allocators|
    ensures allocators[k].Valid()
  {
    assert Intact(Streams(allocators), heap.cells, k);
  }

  /** The word that is about to be written lies in the last block. */
  lemma CursorInLastBlock(s: Stream, cells: Cells, p: int)
    requires |s.blocks| >= 1 && StreamOk(s, cells, |s.blocks| - 1) && p == s.cursor[|s.blocks| - 1]
    ensures var b := s.blocks[|s.blocks| - 1]; b.start <= p < b.start + b.size
  {
    assert BlockOk(s, |s.blocks| - 1);
  }

  /** malloc gives the start of a place if the place is large enough. */
  function Malloc(place: Block, size: nat): nat {
    if size <= place.size then place.start else 0
  }

  method DoWrite(allocators: seq<CommandAllocator>, heap: Memory, places: seq<Block>, from: nat, k: nat,
                 record: Record) returns (r: nat)
    requires Ready(allocators, heap, places, from) && Distinct(allocators) && from < |places|
    requires k < |allocators| && RecordOk(record) && record.size < SIZE_MAX_PLUS_ONE
    modifies heap, allocators[k]
    ensures Ready(allocators, heap, places, from + 1)
    ensures allocators[k].Contents() == old(allocators[k].Contents()) + if r == 0 then [] else [Item(record, r)]
    ensures forall i :: 0 <= i < |allocators| && i != k ==> allocators[i].stream == old(allocators[i].stream)
    ensures r == 0 ==>
              || record.size + WORST_CASE_ADDITIONAL_SIZE >= SIZE_MAX_PLUS_ONE
              || places[from].size < record.size + WORST_CASE_ADDITIONAL_SIZE || places[from].size < MAX_DOUBLED_SIZE
  {
    var a, place := allocators[k], places[from];
    var malloc := Malloc(place, a.NextAllocationSize(record.size + WORST_CASE_ADDITIONAL_SIZE));
    ghost var streams, cells, s, p := Streams(allocators), heap.cells, a.stream, a.mCurrentPtr;
    AllocatorValid(allocators, heap, places, from, k);
    CursorInLastBlock(s, cells, p);
    assert Clear(streams, places, k, from) && place.start > 0;
    r := a.Allocate(record.id, record.size, record.alignment, malloc);
    assert Continues(s, a.stream, place);
    assert SameOutside(cells, heap.cells, s.blocks[|s.blocks| - 1], place);
    WriteKeepsWorld(streams, cells, places, from, k, a.stream, heap.cells);
    assert Streams(allocators) == streams[k := a.stream];
  }

  /** One of the overwritten bytes belongs to the word at a. */
  predicate Hit(a: int, address: nat, bytes: set<int>) {
    a - address in bytes || a + 1 - address in bytes || a + 2 - address in bytes || a + 3 - address in bytes
  }

  /** The bytes get any values, so words that have one of them are no longer known. */
  function Overwritten(cells: Cells, address: nat, bytes: set<int>): Cells {
    map a | a in cells && !Hit(a, address, bytes) :: cells[a]
  }

  method DoFill(allocators: seq<CommandAllocator>, heap: Memory, places: seq<Block>, from: nat, ghost k: nat,
                ghost j: nat, address: nat, bytes: set<int>)
    requires Ready(allocators, heap, places, from) && k < |allocators| && j < |allocators[k].stream.entries|
    requires address == allocators[k].stream.entries[j].command
    requires forall offset :: offset in bytes ==> 0 <= offset < allocators[k].stream.entries[j].record.size
    requires from < |places|
    modifies heap
    ensures Ready(allocators, heap, places, from + 1)
  {
    ghost var streams, cells := Streams(allocators), heap.cells;
    heap.cells := Overwritten(heap.cells, address, bytes);
    FillKeepsWorld(streams, cells, places, from, k, j, heap.cells);
    WorldShrinks(streams, heap.cells, places, from);
  }

  lemma WorldShrinks(streams: seq<Stream>, cells: Cells, places: seq<Block>, from: int)
    requires World(streams, cells, places, from) && from < |places|
    ensures World(streams, cells, places, from + 1)
  {
  }

  // ----- Writing everything, then reading it back -----

  /** One more action. */
  method Perform(allocators: seq<CommandAllocator>, heap: Memory, places: seq<Block>, actions: seq<Action>,
                 results: seq<nat>) returns (r: nat)
    requires Distinct(allocators) && |results| < |actions| && |places| == 1 + |allocators| + |actions|
    requires Ready(allocators, heap, places, 1 + |allocators| + |results|) && Holds(allocators, actions, results)
    requires ActionOk(actions, |allocators|, |results|)
    modifies heap, allocators
    ensures Ready(allocators, heap, places, 2 + |allocators| + |results|)
    ensures Holds(allocators, actions, results + [r])
    ensures WriteSucceeds(actions, places, |allocators|, |results|) ==> r != 0
  {
    match actions[|results|] {
      case Write(k, record) =>
        r := PerformWrite(allocators, heap, places, actions, results, k, record);
      case Fill(w, bytes) =>
        PerformFill(allocators, heap, places, actions, results, w, bytes);
        r := 0;
    }
  }

  method PerformWrite(allocators: seq<CommandAllocator>, heap: Memory, places: seq<Block>, actions: seq<Action>,
                      results: seq<nat>, k: nat, record: Record) returns (r: nat)
    requires Distinct(allocators) && |results| < |actions| && |places| == 1 + |allocators| + |actions|
    requires Ready(allocators, heap, places, 1 + |allocators| + |results|) && Holds(allocators, actions, results)
    requires actions[|results|] == Write(k, record) && k < |allocators|
    requires RecordOk(record) && record.size < SIZE_MAX_PLUS_ONE
    modifies heap, allocators
    ensures Ready(allocators, heap, places, 2 + |allocators| + |results|)
    ensures Holds(allocators, actions, results + [r])
    ensures WriteSucceeds(actions, places, |allocators|, |results|) ==> r != 0
  {
    ghost var was := Streams(allocators);
    r := DoWrite(allocators, heap, places, 1 + |allocators| + |results|, k, record);
    HoldsSnoc(actions, results, r, was, Streams(allocators));
  }

  method PerformFill(allocators: seq<CommandAllocator>, heap: Memory, places: seq<Block>, actions: seq<Action>,
                     results: seq<nat>, w: nat, bytes: set<int>)
    requires |results| < |actions| && |places| == 1 + |allocators| + |actions|
    requires Ready(allocators, heap, places, 1 + |allocators| + |results|) && Holds(allocators, actions, results)
    requires w < |results| && actions[w].Write? && actions[w].allocator < |allocators|
    requires forall offset :: offset in bytes ==> 0 <= offset < actions[w].record.size
    requires actions[|results|].Fill?
    modifies heap
    ensures Ready(allocators, heap, places, 2 + |allocators| + |results|)
    ensures Holds(allocators, actions, results + [0])
  {
    HoldsSnoc(actions, results, 0, Streams(allocators), Streams(allocators));
    if results[w] != 0 {
      ghost var j := ExpectedHas(actions, results, w);
      FillTarget(allocators, actions, results, w, j);
      DoFill(allocators, heap, places, 1 + |allocators| + |results|, actions[w].allocator, j, results[w], bytes);
    } else {
      WorldShrinks(Streams(allocators), heap.cells, places, 1 + |allocators| + |results|);
    }
  }

  /** A write whose size does not overflow and whose place is large enough for any block. */
  predicate WriteSucceeds(actions: seq<Action>, places: seq<Block>, count: nat, i: nat)
    requires i < |actions| && |places| == 1 + count + |actions|
  {
    actions[i].Write? &&
    var size := actions[i].record.size + WORST_CASE_ADDITIONAL_SIZE;
    size < SIZE_MAX_PLUS_ONE && size <= places[1 + count + i].size && MAX_DOUBLED_SIZE <= places[1 + count + i].size
  }

  /** Such writes do succeed. */
  ghost predicate Answered(actions: seq<Action>, places: seq<Block>, count: nat, results: seq<nat>) {
    |results| <= |actions| && |places| == 1 + count + |actions| &&
    forall i :: 0 <= i < |results| ==> WriteSucceeds(actions, places, count, i) ==> results[i] != 0
  }

  lemma AnsweredSnoc(actions: seq<Action>, places: seq<Block>, count: nat, results: seq<nat>, r: nat)
    requires Answered(actions, places, count, results) && |results| < |actions|
    requires WriteSucceeds(actions, places, count, |results|) ==> r != 0
    ensures Answered(actions, places, count, results + [r])
  {
  }

  /** A write that succeeded is an entry of its allocator. */
  lemma FillTarget(allocators: seq<CommandAllocator>, actions: seq<Action>, results: seq<nat>, w: nat, j: nat)
    requires Holds(allocators, actions, results) && w < |results| && actions[w].Write?
    requires actions[w].allocator < |allocators|
    requires j < |Expected(actions, results, actions[w].allocator)|
    requires Expected(actions, results, actions[w].allocator)[j] == Item(actions[w].record, results[w])
    ensures var entries := allocators[actions[w].allocator].stream.entries;
            j < |entries| && entries[j].command == results[w] && entries[j].record == actions[w].record
  {
    var entries := allocators[actions[w].allocator].stream.entries;
    assert Items(entries)[j] == Item(entries[j].record, entries[j].command);
  }

  lemma HoldsSnoc(actions: seq<Action>, results: seq<nat>, r: nat, was: seq<Stream>, streams: seq<Stream>)
    requires |was| == |streams| && |results| < |actions|
    requires forall k :: 0 <= k < |was| ==> Items(was[k].entries) == Expected(actions, results, k)
    requires forall k :: 0 <= k < |was| ==>
               Items(streams[k].entries) ==
               Items(was[k].entries) +
               if actions[|results|].Write? && actions[|results|].allocator == k && r != 0
               then [Item(actions[|results|].record, r)] else []
    ensures forall k :: 0 <= k < |streams| ==> Items(streams[k].entries) == Expected(actions, results + [r], k)
  {
    forall k | 0 <= k < |streams|
      ensures Items(streams[k].entries) == Expected(actions, results + [r], k)
    {
      ExpectedSnoc(actions, results, r, k);
    }
  }

  ghost predicate HoldsExpected(streams: seq<Stream>, actions: seq<Action>, results: seq<nat>, k: nat)
    requires k < |streams| && |results| <= |actions|
  {
    Items(streams[k].entries) == Expected(actions, results, k)
  }

  lemma {:induction false} AllItemsExpected(streams: seq<Stream>, actions: seq<Action>, results: seq<nat>, n: nat)
    requires n <= |streams| && |results| <= |actions|
    requires forall k: nat :: k < |streams| ==> HoldsExpected(streams, actions, results, k)
    ensures AllItems(streams[..n]) == AllExpected(actions, results, n)
  {
    if n > 0 {
      AllItemsExpected(streams, actions, results, n - 1);
      AllItemsSnoc(streams, n - 1);
      assert HoldsExpected(streams, actions, results, n - 1);
    }
  }

  lemma WorldIsApart(streams: seq<Stream>, cells: Cells, places: seq<Block>, from: int)
    requires World(streams, cells, places, from)
    ensures AllApart(streams, places[0].start)
  {
    forall i, j | 0 <= i < j < |streams|
      ensures Apart(streams[i], streams[j])
    {
      assert StreamsApart(streams, i, j);
    }
    forall i | 0 <= i < |streams|
      ensures EndApart(streams[i], places[0].start)
    {
      assert Clear(streams, places, i, 0);
    }
  }

  /** A new allocator starts in its stand-in word. */
  lemma NewStreamKeepsWorld(streams: seq<Stream>, cells: Cells, places: seq<Block>, from: int, t: Stream)
    requires World(streams, cells, places, from) && from < |places|
    requires t.blocks == [places[from]] && StreamOk(t, cells, 0)
    ensures World(streams + [t], cells, places, from + 1)
  {
    var after := streams + [t];
    forall k | 0 <= k < |after|
      ensures Intact(after, cells, k)
    {
      if k < |streams| { assert Intact(streams, cells, k); }
    }
    forall j, k | 0 <= j < |after| && 0 <= k < |after| && j != k
      ensures StreamsApart(after, j, k)
    {
      if j < |streams| && k < |streams| { assert StreamsApart(streams, j, k); }
      if j < |streams| { assert Clear(streams, places, j, from); }
      if k < |streams| { assert Clear(streams, places, k, from); }
    }
    forall k, i | 0 <= k < |after| && (i == 0 || from + 1 <= i < |places|)
      ensures Clear(after, places, k, i)
    {
      if k < |streams| { assert Clear(streams, places, k, i); }
    }
  }

  method AddAllocator(allocators: seq<CommandAllocator>, heap: Memory, places: seq<Block>, from: nat)
      returns (a: CommandAllocator)
    requires Ready(allocators, heap, places, from) && from < |places| && places[from].size == ID_SIZE
    ensures fresh(a) && Ready(allocators + [a], heap, places, from + 1) && Items(a.stream.entries) == []
  {
    ghost var streams := Streams(allocators);
    a := new CommandAllocator(heap, places[from].start);
    NewStreamKeepsWorld(streams, heap.cells, places, from, a.stream);
    assert Streams(allocators + [a]) == streams + [a.stream];
    assert a.Contents() == [];
  }

  method MakeAllocators(heap: Memory, places: seq<Block>, count: nat) returns (allocators: seq<CommandAllocator>)
    requires World([], heap.cells, places, 1) && 1 + count <= |places|
    requires forall k :: 1 <= k <= count ==> places[k].size == ID_SIZE
    ensures |allocators| == count && Distinct(allocators) && fresh(allocators)
    ensures Ready(allocators, heap, places, 1 + count)
    ensures forall k :: 0 <= k < count ==> Items(allocators[k].stream.entries) == []
  {
    allocators := [];
    for k := 0 to count
      invariant |allocators| == k && Distinct(allocators) && fresh(allocators)
      invariant Ready(allocators, heap, places, 1 + k)
      invariant forall i :: 0 <= i < k ==> Items(allocators[i].stream.entries) == []
    {
      var a := AddAllocator(allocators, heap, places, 1 + k);
      allocators := allocators + [a];
    }
  }

  /**
   Whatever the order in which allocators write and commands are filled in, reading yields exactly
   the ids of the successful writes, allocator by allocator in the order of writing, each at the
   address that was returned for it. `places` is the memory in use: the reader's tag, one stand-in
   word per allocator, and what malloc can give to each action.
   */
  method WriteThenRead(places: seq<Block>, count: nat, actions: seq<Action>)
      returns (results: seq<nat>, ids: seq<int>, addresses: seq<nat>)
    requires PlacesOk(places) && |places| == 1 + count + |actions|
    requires forall k :: 1 <= k <= count ==> places[k].size == ID_SIZE
    requires forall i :: 0 <= i < |actions| ==> ActionOk(actions, count, i)
    ensures |results| == |actions|
    ensures Answered(actions, places, count, results)
    ensures var items := AllExpected(actions, results, count);
            && |ids| == |addresses| == |items|
            && forall i :: 0 <= i < |items| ==> ids[i] == items[i].record.id && addresses[i] == items[i].address
  {
    EmptyWorld(places);
    var heap, commands := MakeReader(places[0].start);
    var allocators := MakeAllocators(heap, places, count);
    assert Holds(allocators, actions, []);
    results := WriteAll(allocators, heap, places, actions);
    ids, addresses := ReadBack(commands, allocators, heap, places, actions, results);
  }

  method MakeReader(endOfBlock: nat) returns (heap: Memory, commands: CommandIterator)
    requires endOfBlock > 0 && endOfBlock % 4 == 0
    ensures fresh(heap) && fresh(commands) && heap.cells == map[endOfBlock := END_OF_BLOCK]
    ensures commands.heap == heap && commands.mEndOfBlock == endOfBlock && commands.IsEmpty()
  {
    heap := new Memory();
    heap.cells := map[endOfBlock := END_OF_BLOCK];
    commands := new CommandIterator(heap, endOfBlock);
  }

  lemma EmptyWorld(places: seq<Block>)
    requires PlacesOk(places)
    ensures places[0].start > 0 && places[0].start % 4 == 0
    ensures World([], map[places[0].start := END_OF_BLOCK], places, 1)
  {
  }

  method WriteAll(allocators: seq<CommandAllocator>, heap: Memory, places: seq<Block>, actions: seq<Action>)
      returns (results: seq<nat>)
    requires Distinct(allocators) && |places| == 1 + |allocators| + |actions|
    requires Ready(allocators, heap, places, 1 + |allocators|) && Holds(allocators, actions, [])
    requires forall i :: 0 <= i < |actions| ==> ActionOk(actions, |allocators|, i)
    modifies heap, allocators
    ensures |results| == |actions| && Ready(allocators, heap, places, |places|)
    ensures Holds(allocators, actions, results)
    ensures Answered(actions, places, |allocators|, results)
  {
    results := [];
    for n := 0 to |actions|
      invariant |results| == n && Ready(allocators, heap, places, 1 + |allocators| + n)
      invariant Holds(allocators, actions, results)
      invariant Answered(actions, places, |allocators|, results)
    {
      var r := Perform(allocators, heap, places, actions, results);
      AnsweredSnoc(actions, places, |allocators|, results, r);
      results := results + [r];
    }
  }

  method ReadBack(commands: CommandIterator, allocators: seq<CommandAllocator>, heap: Memory, places: seq<Block>,
                  actions: seq<Action>, results: seq<nat>) returns (ids: seq<int>, addresses: seq<nat>)
    requires Distinct(allocators) && Ready(allocators, heap, places, |places|)
    requires Holds(allocators, actions, results)
    requires commands.heap == heap && commands.mEndOfBlock == places[0].start && commands.IsEmpty()
    modifies commands, heap, allocators
    ensures var items := AllExpected(actions, results, |allocators|);
            && |ids| == |addresses| == |items|
            && forall i :: 0 <= i < |items| ==> ids[i] == items[i].record.id && addresses[i] == items[i].address
  {
    ghost var streams := Streams(allocators);
    ContentsExpected(streams, actions, results);
    TakeOver(commands, allocators, heap, places);
    var items := AllExpected(actions, results, |allocators|);
    var shapes := Shapes(items);
    ids, addresses := ReadAll(commands, shapes);
  }

  lemma ContentsExpected(streams: seq<Stream>, actions: seq<Action>, results: seq<nat>)
    requires |results| <= |actions|
    requires forall k :: 0 <= k < |streams| ==> Items(streams[k].entries) == Expected(actions, results, k)
    ensures AllItems(streams) == AllExpected(actions, results, |streams|)
  {
    AllItemsExpected(streams, actions, results, |streams|);
    assert streams[..|streams|] == streams;
  }

  /** What a reader has to know of the commands: their sizes and alignments. */
  function Shapes(items: seq<Item>): (shapes: seq<(nat, nat)>)
    ensures |shapes| == |items|
    ensures forall i :: 0 <= i < |items| ==> shapes[i] == (items[i].record.size, items[i].record.alignment)
  {
    seq(|items|, i requires 0 <= i < |items| => (items[i].record.size, items[i].record.alignment))
  }

  lemma AllValid(allocators: seq<CommandAllocator>, heap: Memory, places: seq<Block>)
    requires Ready(allocators, heap, places, |places|)
    ensures forall k :: 0 <= k < |allocators| ==> allocators[k].heap == heap && allocators[k].Valid()
  {
    forall k | 0 <= k < |allocators|
      ensures allocators[k].Valid()
    {
      AllocatorValid(allocators, heap, places, |places|, k);
    }
  }

  lemma ReadyToRead(allocators: seq<CommandAllocator>, heap: Memory, places: seq<Block>)
    requires Ready(allocators, heap, places, |places|)
    ensures forall k :: 0 <= k < |allocators| ==> allocators[k].heap == heap && allocators[k].Valid()
    ensures AllApart(Streams(allocators), places[0].start)
  {
    AllValid(allocators, heap, places);
    WorldIsApart(Streams(allocators), heap.cells, places, |places|);
  }

  method TakeOver(commands: CommandIterator, allocators: seq<CommandAllocator>, heap: Memory, places: seq<Block>)
    requires Distinct(allocators) && Ready(allocators, heap, places, |places|)
    requires commands.heap == heap && commands.mEndOfBlock == places[0].start && commands.IsEmpty()
    modifies commands, heap, allocators
    ensures commands.Valid() && !commands.midRecord && commands.position == 0
    ensures commands.Contents() == AllItems(old(Streams(allocators)))
  {
    ReadyToRead(allocators, heap, places);
    commands.AcquireCommandBlocks(allocators);
  }
}
