/**
 How commands are laid out in memory (src/dawn_native/CommandAllocator.{h,cpp}): each block holds
 records (id, padding, command data, padding) and ends with a tag.
 */
module CommandStream {
  import opened DawnMath

  const END_OF_BLOCK := 0xFFFF_FFFF
  const ADDITIONAL_DATA := 0xFFFF_FFFE
  const ID_SIZE := 4
  const MAX_ALIGNMENT := 8
  /** An id, padding for the command, padding for the next id, and that id. */
  const WORST_CASE_ADDITIONAL_SIZE := ID_SIZE + MAX_ALIGNMENT + ID_SIZE + ID_SIZE

  /** One allocation: a command or additional data. */
  datatype Record = Record(id: int, size: nat, alignment: nat)

  predicate AlignmentOk(alignment: nat) {
    alignment == 1 || alignment == 2 || alignment == 4 || alignment == 8
  }

  predicate RecordOk(r: Record) {
    0 <= r.id < END_OF_BLOCK && AlignmentOk(r.alignment)
  }

  /** Alignments are the powers of two up to the maximum. */
  lemma AlignmentOkIff(alignment: nat)
    ensures AlignmentOk(alignment) <==>
            alignment != 0 && IsPowerOfTwo(alignment) && alignment <= MAX_ALIGNMENT
  {
    if 1 <= alignment <= MAX_ALIGNMENT { SmallPowers(alignment); }
  }

  lemma SmallPowers(n: nat)
    requires 1 <= n <= 8
    ensures IsPowerOfTwo(n) <==> n == 1 || n == 2 || n == 4 || n == 8
  {
    assert BitAnd(1, 0) == 0 && BitAnd(2, 1) == 0 && BitAnd(4, 3) == 0 && BitAnd(8, 7) == 0;
    assert BitAnd(3, 2) == 2 && BitAnd(5, 4) == 4 && BitAnd(6, 5) == 4 && BitAnd(7, 6) == 6;
  }

  /** Where the command behind an id at p lies. */
  function CommandAt(p: nat, r: Record): nat
    requires r.alignment >= 1
  {
    Align(p + ID_SIZE, r.alignment)
  }

  /** Where the id after it goes. */
  function NextIdAt(p: nat, r: Record): nat
    requires r.alignment >= 1
  {
    Align(CommandAt(p, r) + r.size, ID_SIZE)
  }

  lemma AlignOfMultiple(x: nat, a: nat)
    requires a >= 1 && x % a == 0
    ensures Align(x, a) == x
  {
    AlignIsLeast(x, a);
  }

  lemma NearMultipleOf8(x: int, m: int)
    requires x % 4 == 0 && m % 8 == 0 && x <= m < x + 8
    ensures m % 4 == 0 && m <= x + 4
  {
  }

  lemma WordIsMultiple(x: nat, a: nat)
    requires x % 4 == 0 && (a == 1 || a == 2 || a == 4)
    ensures x % a == 0
  {
    if a == 1 { assert x == 1 * x + 0; } else { assert x == 4 * (x / 4); }
  }

  /** From a word boundary, aligning to at most 8 skips at most one word. */
  lemma AlignSmall(x: nat, a: nat)
    requires x % 4 == 0 && AlignmentOk(a)
    ensures Align(x, a) % 4 == 0 && x <= Align(x, a) <= x + 4
  {
    if a == 8 {
      AlignIsLeast(x, 8);
      NearMultipleOf8(x, Align(x, 8));
    } else {
      WordIsMultiple(x, a);
      AlignOfMultiple(x, a);
    }
  }

  /** A record occupies its id, its data, and less than the allowance for padding. */
  lemma RecordExtent(p: nat, r: Record)
    requires p % 4 == 0 && RecordOk(r)
    ensures p + ID_SIZE <= CommandAt(p, r) <= p + ID_SIZE + 4 && CommandAt(p, r) % 4 == 0
    ensures CommandAt(p, r) % r.alignment == 0
    ensures CommandAt(p, r) + r.size <= NextIdAt(p, r) < CommandAt(p, r) + r.size + 4
    ensures NextIdAt(p, r) % 4 == 0
    ensures NextIdAt(p, r) + ID_SIZE <= p + r.size + WORST_CASE_ADDITIONAL_SIZE
  {
    AlignSmall(p + ID_SIZE, r.alignment);
    AlignIsLeast(p + ID_SIZE, r.alignment);
    AlignIsLeast(CommandAt(p, r) + r.size, ID_SIZE);
  }

  // ----- Blocks in memory -----

  /** `cells` gives the 32-bit word at an address. */
  type Cells = map<int, int>

  datatype Block = Block(start: nat, size: nat)

  predicate Disjoint(b: Block, c: Block) {
    b.start + b.size <= c.start || c.start + c.size <= b.start
  }

  /** A record in memory: the number of its block, the address of its id, the address of its data. */
  datatype Entry = Entry(record: Record, block: int, id: nat, command: nat)

  /**
   The contents of a list of blocks. The entries of block i are those numbered from first[i] up to
   first[i + 1]; cursor[i] is the address behind them, where the next id or the end tag goes.
   */
  datatype Stream = Stream(blocks: seq<Block>, cursor: seq<int>, first: seq<int>, entries: seq<Entry>)

  ghost predicate Sized(s: Stream) {
    |s.cursor| == |s.blocks| && |s.first| == |s.blocks| + 1
  }

  /** Where block i continues at entry k: the id of entry k, or the cursor behind the last entry. */
  ghost function IdOf(s: Stream, i: int, k: int): int
    requires Sized(s) && 0 <= i < |s.blocks| && 0 <= k && s.first[i + 1] <= |s.entries|
  {
    if k < s.first[i + 1] then s.entries[k].id else s.cursor[i]
  }

  ghost predicate BlockOk(s: Stream, i: int)
    requires Sized(s) && 0 <= i < |s.blocks|
  {
    && 0 <= s.first[i] <= s.first[i + 1] <= |s.entries|
    && s.blocks[i].start > 0 && s.blocks[i].start % 4 == 0
    && s.blocks[i].start <= s.cursor[i] && s.cursor[i] % 4 == 0
    && s.cursor[i] + ID_SIZE <= s.blocks[i].start + s.blocks[i].size
    && IdOf(s, i, s.first[i]) == s.blocks[i].start
    && (forall k :: s.first[i] <= k < s.first[i + 1] ==> s.entries[k].block == i)
  }

  ghost predicate EntryOk(s: Stream, cells: Cells, k: int)
    requires Sized(s) && 0 <= k < |s.entries|
  {
    var e := s.entries[k];
    && RecordOk(e.record) && 0 <= e.block < |s.blocks|
    && s.first[e.block] <= k < s.first[e.block + 1] <= |s.entries|
    && s.blocks[e.block].start <= e.id && e.id % 4 == 0
    && e.command == CommandAt(e.id, e.record)
    && NextIdAt(e.id, e.record) == IdOf(s, e.block, k + 1) <= s.cursor[e.block]
    && e.id + e.record.size + WORST_CASE_ADDITIONAL_SIZE <= s.blocks[e.block].start + s.blocks[e.block].size
    && e.id in cells && cells[e.id] == e.record.id
  }

  ghost predicate Ordered(s: Stream, j: int, k: int)
    requires 0 <= j < k < |s.entries|
  {
    s.entries[j].block == s.entries[k].block && s.entries[j].record.alignment >= 1 ==>
      NextIdAt(s.entries[j].id, s.entries[j].record) <= s.entries[k].id
  }

  ghost predicate Tagged(s: Stream, cells: Cells, i: int)
    requires Sized(s) && 0 <= i < |s.blocks|
  {
    s.cursor[i] in cells && cells[s.cursor[i]] == END_OF_BLOCK
  }

  /** Blocks, entries and order fit together; the first `closed` blocks carry an end tag. */
  ghost predicate StreamOk(s: Stream, cells: Cells, closed: int) {
    && Sized(s) && 0 <= closed <= |s.blocks|
    && s.first[0] == 0 && s.first[|s.blocks|] == |s.entries|
    && (forall i {:trigger BlockOk(s, i)} :: 0 <= i < |s.blocks| ==> BlockOk(s, i))
    && (forall k {:trigger EntryOk(s, cells, k)} :: 0 <= k < |s.entries| ==> EntryOk(s, cells, k))
    && (forall j, k {:trigger Ordered(s, j, k)} :: 0 <= j < k < |s.entries| ==> Ordered(s, j, k))
    && (forall i {:trigger Tagged(s, cells, i)} :: 0 <= i < closed ==> Tagged(s, cells, i))
    && (forall i, j :: 0 <= i < j < |s.blocks| ==> Disjoint(s.blocks[i], s.blocks[j]))
  }

  /** Ids and end tags lie inside their blocks. */
  lemma IdInBlock(s: Stream, cells: Cells, closed: int, k: int)
    requires StreamOk(s, cells, closed) && 0 <= k < |s.entries|
    ensures var e := s.entries[k];
            && EntryOk(s, cells, k)
            && s.blocks[e.block].start <= e.id
            && e.id + ID_SIZE + e.record.size <= s.cursor[e.block]
            && e.command + e.record.size + ID_SIZE <= s.blocks[e.block].start + s.blocks[e.block].size
  {
    assert EntryOk(s, cells, k);
    var e := s.entries[k];
    assert BlockOk(s, e.block);
    RecordExtent(e.id, e.record);
  }

  /** Reading a block starts at its first entry, or at its end tag. */
  lemma BlockStart(s: Stream, cells: Cells, closed: int, i: int)
    requires StreamOk(s, cells, closed) && 0 <= i < |s.blocks|
    ensures 0 <= s.first[i] <= s.first[i + 1] <= |s.entries|
    ensures Align(s.blocks[i].start, ID_SIZE) == s.blocks[i].start == IdOf(s, i, s.first[i])
  {
    assert BlockOk(s, i);
    AlignOfMultiple(s.blocks[i].start, ID_SIZE);
  }

  /** A word outside every id and every end tag may change freely. */
  lemma StreamKept(s: Stream, cells: Cells, closed: int, cells': Cells)
    requires StreamOk(s, cells, closed)
    requires forall k :: 0 <= k < |s.entries| ==>
               && s.entries[k].id in cells'
               && (s.entries[k].id in cells ==> cells'[s.entries[k].id] == cells[s.entries[k].id])
    requires forall i :: 0 <= i < closed ==>
               s.cursor[i] in cells' && (s.cursor[i] in cells ==> cells'[s.cursor[i]] == cells[s.cursor[i]])
    ensures StreamOk(s, cells', closed)
  {
    forall k | 0 <= k < |s.entries|
      ensures EntryOk(s, cells', k)
    {
      assert EntryOk(s, cells, k);
    }
    forall i | 0 <= i < closed
      ensures Tagged(s, cells', i)
    {
      assert Tagged(s, cells, i);
    }
  }

  /** The last cursor is no id and no other block's cursor. */
  lemma LastCursorIsFree(s: Stream, cells: Cells, closed: int)
    requires StreamOk(s, cells, closed) && |s.blocks| >= 1
    ensures forall k :: 0 <= k < |s.entries| ==> s.entries[k].id != s.cursor[|s.blocks| - 1]
    ensures forall i :: 0 <= i < |s.blocks| - 1 ==> s.cursor[i] != s.cursor[|s.blocks| - 1]
  {
    var n := |s.blocks| - 1;
    assert BlockOk(s, n);
    forall k | 0 <= k < |s.entries|
      ensures s.entries[k].id != s.cursor[n]
    {
      IdInBlock(s, cells, closed, k);
      assert BlockOk(s, s.entries[k].block);
      if s.entries[k].block < n { assert Disjoint(s.blocks[s.entries[k].block], s.blocks[n]); }
    }
    forall i | 0 <= i < n
      ensures s.cursor[i] != s.cursor[n]
    {
      assert BlockOk(s, i) && Disjoint(s.blocks[i], s.blocks[n]);
    }
  }

  /** The stream after writing a record at the last cursor. */
  ghost function Append(s: Stream, r: Record): Stream
    requires Sized(s) && |s.blocks| >= 1 && r.alignment >= 1 && s.cursor[|s.blocks| - 1] >= 0
  {
    var n := |s.blocks| - 1;
    var p := s.cursor[n];
    s.(cursor := s.cursor[n := NextIdAt(p, r)],
       first := s.first[n + 1 := |s.entries| + 1],
       entries := s.entries + [Entry(r, n, p, CommandAt(p, r))])
  }

  lemma AppendBlocksOk(s: Stream, cells: Cells, closed: int, r: Record)
    requires StreamOk(s, cells, closed) && |s.blocks| >= 1 && RecordOk(r)
    requires var n := |s.blocks| - 1;
             s.cursor[n] + r.size + WORST_CASE_ADDITIONAL_SIZE <= s.blocks[n].start + s.blocks[n].size
    ensures s.cursor[|s.blocks| - 1] >= 0
    ensures forall i {:trigger BlockOk(Append(s, r), i)} :: 0 <= i < |s.blocks| ==> BlockOk(Append(s, r), i)
  {
    var n := |s.blocks| - 1;
    assert BlockOk(s, n);
    RecordExtent(s.cursor[n], r);
    var t := Append(s, r);
    forall i | 0 <= i < |s.blocks|
      ensures BlockOk(t, i)
    {
      assert BlockOk(s, i);
    }
  }

  lemma AppendEntryOk(s: Stream, cells: Cells, closed: int, r: Record, k: int)
    requires StreamOk(s, cells, closed) && |s.blocks| >= 1 && RecordOk(r) && 0 <= k <= |s.entries|
    requires var n := |s.blocks| - 1;
             s.cursor[n] + r.size + WORST_CASE_ADDITIONAL_SIZE <= s.blocks[n].start + s.blocks[n].size
    ensures s.cursor[|s.blocks| - 1] >= 0
    ensures EntryOk(Append(s, r), cells[s.cursor[|s.blocks| - 1] := r.id], k)
  {
    var n := |s.blocks| - 1;
    var p := s.cursor[n];
    assert BlockOk(s, n);
    var t := Append(s, r);
    RecordExtent(p, r);
    LastCursorIsFree(s, cells, closed);
    if k < |s.entries| { assert EntryOk(s, cells, k); }
  }

  lemma AppendOrdered(s: Stream, cells: Cells, closed: int, r: Record, j: int, k: int)
    requires StreamOk(s, cells, closed) && |s.blocks| >= 1 && RecordOk(r) && 0 <= j < k <= |s.entries|
    ensures s.cursor[|s.blocks| - 1] >= 0 && Ordered(Append(s, r), j, k)
  {
    assert BlockOk(s, |s.blocks| - 1);
    assert EntryOk(s, cells, j);
    if k < |s.entries| { assert Ordered(s, j, k); }
  }

  /** Writing an id at the last cursor appends a record; all earlier blocks stay tagged. */
  lemma AppendOk(s: Stream, cells: Cells, r: Record)
    requires |s.blocks| >= 1 && StreamOk(s, cells, |s.blocks| - 1) && RecordOk(r)
    requires var n := |s.blocks| - 1;
             s.cursor[n] + r.size + WORST_CASE_ADDITIONAL_SIZE <= s.blocks[n].start + s.blocks[n].size
    ensures s.cursor[|s.blocks| - 1] >= 0
    ensures StreamOk(Append(s, r), cells[s.cursor[|s.blocks| - 1] := r.id], |s.blocks| - 1)
  {
    var n := |s.blocks| - 1;
    AppendBlocksOk(s, cells, n, r);
    LastCursorIsFree(s, cells, n);
    var t, cells' := Append(s, r), cells[s.cursor[n] := r.id];
    forall k | 0 <= k < |t.entries|
      ensures EntryOk(t, cells', k)
    {
      AppendEntryOk(s, cells, n, r, k);
    }
    forall j, k | 0 <= j < k < |t.entries|
      ensures Ordered(t, j, k)
    {
      AppendOrdered(s, cells, n, r, j, k);
    }
    forall i | 0 <= i < n
      ensures Tagged(t, cells', i)
    {
      assert Tagged(s, cells, i);
    }
  }

  /** Writing the tag at the last cursor closes the last block. */
  lemma TagOk(s: Stream, cells: Cells)
    requires |s.blocks| >= 1 && StreamOk(s, cells, |s.blocks| - 1)
    ensures StreamOk(s, cells[s.cursor[|s.blocks| - 1] := END_OF_BLOCK], |s.blocks|)
  {
    var n := |s.blocks| - 1;
    var cells' := cells[s.cursor[n] := END_OF_BLOCK];
    LastCursorIsFree(s, cells, n);
    forall k | 0 <= k < |s.entries|
      ensures s.entries[k].id in cells'
    {
      assert EntryOk(s, cells, k);
    }
    forall i | 0 <= i < n
      ensures s.cursor[i] in cells'
    {
      assert Tagged(s, cells, i);
    }
    StreamKept(s, cells, n, cells');
    assert Tagged(s, cells', n);
  }

  ghost function AddBlock(s: Stream, b: Block): Stream
    requires Sized(s)
  {
    Stream(s.blocks + [b], s.cursor + [b.start], s.first + [|s.entries|], s.entries)
  }

  lemma AddBlockBlockOk(s: Stream, cells: Cells, b: Block, i: int)
    requires StreamOk(s, cells, |s.blocks|) && b.start > 0 && b.start % 4 == 0 && b.size >= ID_SIZE
    requires 0 <= i <= |s.blocks|
    ensures BlockOk(AddBlock(s, b), i)
  {
    if i < |s.blocks| { assert BlockOk(s, i); }
  }

  lemma AddBlockEntryOk(s: Stream, cells: Cells, b: Block, k: int)
    requires StreamOk(s, cells, |s.blocks|) && 0 <= k < |s.entries|
    ensures EntryOk(AddBlock(s, b), cells, k)
  {
    assert EntryOk(s, cells, k);
  }

  /** A new, empty block at the end. */
  lemma AddBlockOk(s: Stream, cells: Cells, b: Block)
    requires StreamOk(s, cells, |s.blocks|) && b.start > 0 && b.start % 4 == 0 && b.size >= ID_SIZE
    requires forall i :: 0 <= i < |s.blocks| ==> Disjoint(s.blocks[i], b)
    ensures StreamOk(AddBlock(s, b), cells, |s.blocks|)
  {
    var t := AddBlock(s, b);
    forall i | 0 <= i < |t.blocks|
      ensures BlockOk(t, i)
    {
      AddBlockBlockOk(s, cells, b, i);
    }
    forall k | 0 <= k < |t.entries|
      ensures EntryOk(t, cells, k)
    {
      AddBlockEntryOk(s, cells, b, k);
    }
    forall j, k | 0 <= j < k < |t.entries|
      ensures Ordered(t, j, k)
    {
      assert Ordered(s, j, k);
    }
    forall i | 0 <= i < |s.blocks|
      ensures Tagged(t, cells, i)
    {
      assert Tagged(s, cells, i);
    }
  }

  /** Filling in a command's own bytes never disturbs the stream. */
  lemma FillKeepsStream(s: Stream, cells: Cells, closed: int, k: int, cells': Cells)
    requires StreamOk(s, cells, closed) && 0 <= k < |s.entries|
    requires EntryOk(s, cells, k)
    requires var e := s.entries[k];
             forall a :: a in cells && a > 0 && !(e.command < a + ID_SIZE && a < NextIdAt(e.id, e.record)) ==>
               a in cells' && cells'[a] == cells[a]
    ensures StreamOk(s, cells', closed)
  {
    var e := s.entries[k];
    IdInBlock(s, cells, closed, k);
    RecordExtent(e.id, e.record);
    assert BlockOk(s, e.block);
    forall j | 0 <= j < |s.entries|
      ensures s.entries[j].id in cells && s.entries[j].id > 0
      ensures !(e.command < s.entries[j].id + ID_SIZE && s.entries[j].id < NextIdAt(e.id, e.record))
    {
      IdInBlock(s, cells, closed, j);
      assert BlockOk(s, s.entries[j].block);
      if j < k { assert Ordered(s, j, k); RecordExtent(s.entries[j].id, s.entries[j].record); }
      if k < j { assert Ordered(s, k, j); }
      if s.entries[j].block < e.block { assert Disjoint(s.blocks[s.entries[j].block], s.blocks[e.block]); }
      if e.block < s.entries[j].block { assert Disjoint(s.blocks[e.block], s.blocks[s.entries[j].block]); }
    }
    forall i | 0 <= i < closed
      ensures s.cursor[i] in cells && s.cursor[i] > 0
      ensures !(e.command < s.cursor[i] + ID_SIZE && s.cursor[i] < NextIdAt(e.id, e.record))
    {
      assert Tagged(s, cells, i) && BlockOk(s, i);
      if i < e.block { assert Disjoint(s.blocks[i], s.blocks[e.block]); }
      if e.block < i { assert Disjoint(s.blocks[e.block], s.blocks[i]); }
    }
    StreamKept(s, cells, closed, cells');
  }

  // ----- Putting several streams behind each other -----

  /** What a reader sees of an entry. */
  datatype Item = Item(record: Record, address: nat)

  ghost function Items(entries: seq<Entry>): (items: seq<Item>)
    ensures |items| == |entries|
    ensures forall k :: 0 <= k < |items| ==> items[k] == Item(entries[k].record, entries[k].command)
  {
    seq(|entries|, k requires 0 <= k < |entries| => Item(entries[k].record, entries[k].command))
  }

  ghost function Moved(e: Entry, d: int): Entry {
    e.(block := e.block + d)
  }

  /** s followed by all of t but its first block, which must hold no entry. */
  ghost function Concat(s: Stream, t: Stream): Stream
    requires Sized(s) && Sized(t) && |t.blocks| >= 1
  {
    Stream(s.blocks + t.blocks[1..], s.cursor + t.cursor[1..],
           s.first + seq(|t.blocks| - 1, i requires 0 <= i < |t.blocks| - 1 => |s.entries| + t.first[i + 2]),
           s.entries + seq(|t.entries|, k requires 0 <= k < |t.entries| => Moved(t.entries[k], |s.blocks| - 1)))
  }

  ghost predicate Joinable(s: Stream, t: Stream, cells: Cells) {
    && StreamOk(s, cells, |s.blocks|) && StreamOk(t, cells, |t.blocks|)
    && |t.blocks| >= 1 && t.first[1] == 0
    && forall i, j :: 0 <= i < |s.blocks| && 0 <= j < |t.blocks| ==> Disjoint(s.blocks[i], t.blocks[j])
  }

  lemma ConcatFirst(s: Stream, t: Stream, i: int)
    requires Sized(s) && Sized(t) && |t.blocks| >= 1 && t.first[1] == 0
    requires s.first[|s.blocks|] == |s.entries|
    requires 0 <= i < |t.blocks|
    ensures Concat(s, t).first[|s.blocks| + i] == |s.entries| + t.first[i + 1]
  {
  }

  lemma ConcatBlockOk(s: Stream, t: Stream, cells: Cells, i: int)
    requires Joinable(s, t, cells) && 0 <= i < |s.blocks| + |t.blocks| - 1
    ensures BlockOk(Concat(s, t), i)
  {
    var u := Concat(s, t);
    if i < |s.blocks| {
      assert BlockOk(s, i);
    } else {
      var j := i - |s.blocks| + 1;
      assert BlockOk(t, j);
      ConcatFirst(s, t, j - 1);
      ConcatFirst(s, t, j);
      forall k | u.first[i] <= k < u.first[i + 1]
        ensures u.entries[k].block == i
      {
        assert t.entries[k - |s.entries|].block == j;
      }
    }
  }

  lemma ConcatEntryOk(s: Stream, t: Stream, cells: Cells, k: int)
    requires Joinable(s, t, cells) && 0 <= k < |s.entries| + |t.entries|
    ensures EntryOk(Concat(s, t), cells, k)
  {
    if k < |s.entries| {
      assert EntryOk(s, cells, k);
    } else {
      var l := k - |s.entries|;
      assert EntryOk(t, cells, l);
      var j := t.entries[l].block;
      assert j >= 1;
      assert BlockOk(t, j);
      ConcatFirst(s, t, j - 1);
      ConcatFirst(s, t, j);
    }
  }

  lemma ConcatOrdered(s: Stream, t: Stream, cells: Cells, j: int, k: int)
    requires Joinable(s, t, cells) && 0 <= j < k < |s.entries| + |t.entries|
    ensures Ordered(Concat(s, t), j, k)
  {
    if k < |s.entries| {
      assert Ordered(s, j, k);
    } else if j >= |s.entries| {
      assert Ordered(t, j - |s.entries|, k - |s.entries|);
    } else {
      assert EntryOk(s, cells, j) && EntryOk(t, cells, k - |s.entries|);
    }
  }

  /** Streams apart from each other can be read as one. */
  lemma ConcatOk(s: Stream, t: Stream, cells: Cells)
    requires Joinable(s, t, cells)
    ensures StreamOk(Concat(s, t), cells, |Concat(s, t).blocks|)
    ensures Items(Concat(s, t).entries) == Items(s.entries) + Items(t.entries)
  {
    var u := Concat(s, t);
    ConcatFirst(s, t, |t.blocks| - 1);
    ConcatFirst(s, t, 0);
    forall i | 0 <= i < |u.blocks|
      ensures BlockOk(u, i) && Tagged(u, cells, i)
    {
      ConcatBlockOk(s, t, cells, i);
      if i < |s.blocks| { assert Tagged(s, cells, i); } else { assert Tagged(t, cells, i - |s.blocks| + 1); }
    }
    forall k | 0 <= k < |u.entries|
      ensures EntryOk(u, cells, k)
    {
      ConcatEntryOk(s, t, cells, k);
    }
    forall j, k | 0 <= j < k < |u.entries|
      ensures Ordered(u, j, k)
    {
      ConcatOrdered(s, t, cells, j, k);
    }
  }
}
