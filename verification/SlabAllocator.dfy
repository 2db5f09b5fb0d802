/**
 The slab allocator as the program keeps it: slab headers on three doubly linked lists with
 sentinels, and in each slab a free list linked by block indices (src/common/SlabAllocator.{h,cpp}).
 Each method is proved against the corresponding function of SlabModel.
 */
module SlabHeap {
  import opened DawnMath
  import opened SlabLayout
  import opened SlabModel
  import opened Collections

  class Slab {
    /** Where the header lives, and the allocation it lives in. */
    const address: int
    const allocation: nat
    /** Address of the first free node; 0 is the null pointer. */
    var freeList: int
    var prev: Slab?
    var next: Slab?
    var blocksInUse: int
    /** The nextIndex of the node behind each block. */
    var nextIndex: seq<int>

    /** The free blocks in list order, and the number of the list the slab is on. */
    ghost var free: seq<int>
    ghost var home: int

    constructor (allocation: nat, address: int, head: int, nextIndex: seq<int>, ghost free: seq<int>, ghost home: int)
      ensures this.allocation == allocation && this.address == address && freeList == head
      ensures prev == null && next == null && blocksInUse == 0
      ensures this.nextIndex == nextIndex && this.free == free && this.home == home
    {
      this.allocation, this.address, freeList := allocation, address, head;
      prev, next, blocksInUse := null, null, 0;
      this.nextIndex, this.free, this.home := nextIndex, free, home;
    }
  }

  // ----- Doubly linked lists; the sentinel comes first -----

  ghost predicate AllDistinct(r: seq<Slab>) {
    forall i, j :: 0 <= i < j < |r| ==> r[i] != r[j]
  }

  ghost predicate LinkOk(r: seq<Slab>, i: int)
    requires 0 <= i < |r|
    reads r`next, r`prev
  {
    && r[i].next == (if i + 1 < |r| then r[i + 1] else null)
    && (i > 0 ==> r[i].prev == r[i - 1])
  }

  ghost predicate Chain(r: seq<Slab>)
    reads r`next, r`prev
  {
    forall i {:trigger LinkOk(r, i)} :: 0 <= i < |r| ==> LinkOk(r, i)
  }

  lemma DistinctAfterRemove(s: Slab, q: seq<Slab>, k: nat)
    requires AllDistinct([s] + q) && k < |q|
    ensures var p := q[..k] + q[k + 1..];
            && AllDistinct([s] + p)
            && (forall b :: b in p ==> b in q && b != q[k])
  {
    var p := q[..k] + q[k + 1..];
    var r, t := [s] + q, [s] + p;
    forall i, j | 0 <= i < j < |t|
      ensures t[i] != t[j]
    {
      var i', j' := if i <= k then i else i + 1, if j <= k then j else j + 1;
      assert t[i] == r[i'] && t[j] == r[j'];
    }
    forall b | b in p
      ensures b in q && b != q[k]
    {
      var i :| 0 <= i < |p| && p[i] == b;
      var i' := if i < k then i else i + 1;
      assert b == q[i'] == r[i' + 1] && q[k] == r[k + 1];
    }
  }

  lemma DistinctAfterPrepend(s: Slab, b: Slab, q: seq<Slab>)
    requires AllDistinct([s] + q) && b != s && b !in q
    ensures AllDistinct([s, b] + q)
  {
    var r, t := [s] + q, [s, b] + q;
    forall i, j | 0 <= i < j < |t|
      ensures t[i] != t[j]
    {
      if i != 1 {
        assert t[i] == r[if i == 0 then 0 else i - 1];
        if j != 1 { assert t[j] == r[j - 1]; }
      } else {
        assert t[j] == q[j - 2];
      }
    }
  }

  method Prepend(sentinel: Slab, slab: Slab, ghost q: seq<Slab>)
    requires Chain([sentinel] + q) && AllDistinct([sentinel] + q) && slab !in q && slab != sentinel
    modifies slab`prev, slab`next, sentinel`next, q`prev
    ensures Chain([sentinel, slab] + q)
  {
    ghost var r := [sentinel] + q;
    assert LinkOk(r, 0);
    if sentinel.next != null {
      assert sentinel.next == q[0];
      sentinel.next.prev := slab;
    }
    slab.prev := sentinel;
    slab.next := sentinel.next;
    sentinel.next := slab;
    ghost var t := [sentinel, slab] + q;
    forall i | 0 <= i < |t|
      ensures LinkOk(t, i)
    {
      if i > 1 {
        assert old(LinkOk(r, i - 1));
        assert t[i] == r[i - 1] && t[i - 1] == if i == 2 then slab else r[i - 2];
        assert r[i - 1] != sentinel;
      }
    }
  }

  method Splice(slab: Slab, ghost r: seq<Slab>, ghost k: nat)
    requires Chain(r) && AllDistinct(r) && 0 < k < |r| && r[k] == slab
    modifies r`prev, r`next
    ensures Chain(r[..k] + r[k + 1..])
  {
    assert LinkOk(r, k);
    var originalPrev := slab.prev;
    var originalNext := slab.next;
    slab.prev := null;
    slab.next := null;
    if originalNext != null {
      assert originalNext == r[k + 1];
      originalNext.prev := originalPrev;
    }
    originalPrev.next := originalNext;
    ghost var t := r[..k] + r[k + 1..];
    forall i | 0 <= i < |t|
      ensures LinkOk(t, i)
    {
      assert old(LinkOk(r, if i < k then i else i + 1));
    }
  }

  // ----- The free list inside a slab -----

  datatype NodeRef = NodeRef(slab: Slab, index: int)

  ghost predicate FreeLink(b: Slab, j: int)
    requires 0 <= j < |b.free|
    reads b`free, b`nextIndex
  {
    && 0 <= b.free[j] < |b.nextIndex|
    && b.nextIndex[b.free[j]] == if j + 1 < |b.free| then b.free[j + 1] else INVALID_INDEX
  }

  ghost predicate FreeOk(l: Layout, b: Slab)
    reads b`free, b`nextIndex, b`freeList, b`blocksInUse
  {
    && b.address > 0
    && |b.nextIndex| == l.blocksPerSlab
    && b.blocksInUse == l.blocksPerSlab - |b.free|
    && b.freeList == (if b.free == [] then 0 else NodeAddress(l, b.address, b.free[0]))
    && NoDup(b.free)
    && forall j {:trigger FreeLink(b, j)} :: 0 <= j < |b.free| ==> FreeLink(b, j)
  }

  ghost predicate LayoutOk(l: Layout) {
    && l.indexLinkNodeOffset < l.blockStride && 1 <= l.blocksPerSlab <= 0x8000
    && l.allocationAlignment >= 1
    && l.totalAllocationSize == Extent(l) + l.allocationAlignment
  }

  /** The slabs that the allocator can handle: indices fit 16 signed bits, and the stored size does not wrap. */
  predicate Supported(z: Sizes, n: nat)
    requires SizesOk(z)
  {
    1 <= n <= 0x8000 && n * MakeLayout(z, n).blockStride < UINT32_RANGE
  }

  /** The layouts of exactly these slabs are in order. */
  lemma MadeLayoutOk(z: Sizes, n: nat)
    requires SizesOk(z)
    ensures LayoutOk(MakeLayout(z, n)) <==> Supported(z, n)
  {
    LayoutFacts(z, n);
    StoredSizeExactIff(z, n);
  }

  lemma NodePositive(l: Layout, slab: int, i: int)
    requires slab > 0 && i >= 0
    ensures NodeAddress(l, slab, i) > 0
  {
    if i > 0 && l.blockStride > 0 { ProductGap(l.blockStride, i); }
  }

  method PopFront(l: Layout, slab: Slab, nodes: map<int, NodeRef>) returns (head: int)
    requires LayoutOk(l) && FreeOk(l, slab) && slab.free != []
    requires forall i :: 0 <= i < l.blocksPerSlab ==>
               NodeAddress(l, slab.address, i) in nodes && nodes[NodeAddress(l, slab.address, i)] == NodeRef(slab, i)
    modifies slab`freeList, slab`blocksInUse, slab`free
    ensures FreeOk(l, slab) && slab.free == old(slab.free)[1..]
    ensures head == NodeAddress(l, slab.address, old(slab.free)[0])
  {
    assert FreeLink(slab, 0);
    head := slab.freeList;
    var node := nodes[head];
    var next := node.slab.nextIndex[node.index];
    if |slab.free| > 1 { assert FreeLink(slab, 1); }
    if next == INVALID_INDEX {
      slab.freeList := 0;
    } else {
      NodeToNode(l, slab.address, slab.free[0], slab.free[1]);
      slab.freeList := OffsetFrom(l, head, next - node.index);
    }
    slab.blocksInUse := slab.blocksInUse + 1;
    slab.free := slab.free[1..];
    forall j | 0 <= j < |slab.free|
      ensures FreeLink(slab, j)
    {
      assert old(FreeLink(slab, j + 1));
    }
  }

  method PushFront(l: Layout, slab: Slab, node: int, nodes: map<int, NodeRef>, ghost index: int)
    requires LayoutOk(l) && FreeOk(l, slab) && 0 <= index < l.blocksPerSlab && index !in slab.free
    requires node == NodeAddress(l, slab.address, index)
    requires forall i :: 0 <= i < l.blocksPerSlab ==>
               NodeAddress(l, slab.address, i) in nodes && nodes[NodeAddress(l, slab.address, i)] == NodeRef(slab, i)
    modifies slab`freeList, slab`blocksInUse, slab`nextIndex, slab`free
    ensures FreeOk(l, slab) && slab.free == [index] + old(slab.free)
  {
    var head := slab.freeList;
    var at := nodes[node].index;
    if slab.free != [] {
      assert FreeLink(slab, 0);
      NodePositive(l, slab.address, slab.free[0]);
    }
    if head == 0 {
      slab.nextIndex := slab.nextIndex[at := INVALID_INDEX];
    } else {
      slab.nextIndex := slab.nextIndex[at := nodes[head].index];
    }
    slab.freeList := node;
    slab.blocksInUse := slab.blocksInUse - 1;
    slab.free := [index] + slab.free;
    forall j | 0 <= j < |slab.free|
      ensures FreeLink(slab, j)
    {
      if j > 0 {
        assert old(FreeLink(slab, j - 1));
        assert slab.free[j] == old(slab.free)[j - 1] && slab.free[j] in old(slab.free);
      }
    }
  }

  ghost function Addresses(q: seq<Slab>): (p: seq<int>)
    ensures |p| == |q| && forall i :: 0 <= i < |q| ==> p[i] == q[i].address
  {
    seq(|q|, i requires 0 <= i < |q| => q[i].address)
  }

  lemma AddressesWithout(q: seq<Slab>, k: nat)
    requires k < |q| && NoDup(Addresses(q))
    ensures Addresses(q[..k] + q[k + 1..]) == Without(Addresses(q), q[k].address)
  {
    WithoutAt(Addresses(q), k);
    assert Addresses(q[..k] + q[k + 1..]) == Addresses(q)[..k] + Addresses(q)[k + 1..];
  }

  predicate RangesApart(x: int, size: nat, y: int, other: nat) {
    x + size <= y || y + other <= x
  }

  /** How far a slab's blocks reach. */
  predicate Separate(l: Layout, a: int, b: int) {
    a + Extent(l) <= b || b + Extent(l) <= a
  }

  /** The lists, by number. A slab on its way from one list to another is on none. */
  const AVAILABLE := 0
  const FULL := 1
  const RECYCLED := 2
  const LOOSE := 3

  ghost function StateOf(blocksPerSlab: int, free: map<int, seq<int>>, lists: seq<seq<Slab>>): State
    requires |lists| == 3
  {
    State(blocksPerSlab, free, Addresses(lists[AVAILABLE]), Addresses(lists[FULL]), Addresses(lists[RECYCLED]))
  }

  /** What the heap side of taking a block does to the model. */
  lemma TakenState(n: int, free: map<int, seq<int>>, lists: seq<seq<Slab>>, slab: Slab, lists': seq<seq<Slab>>)
    requires |lists| == 3 && lists[AVAILABLE] != [] && lists[AVAILABLE][0] == slab
    requires slab.address in free && free[slab.address] != []
    requires if free[slab.address][1..] != [] then lists' == lists
             else lists' == lists[AVAILABLE := lists[AVAILABLE][..0] + lists[AVAILABLE][1..]]
                                 [FULL := [slab] + lists[FULL]]
    ensures StateOf(n, free[slab.address := free[slab.address][1..]], lists') == TakeFirst(StateOf(n, free, lists))
  {
    AddressesMoved(lists[AVAILABLE], lists[FULL], 0);
  }

  /** What the heap side of giving back a block does to the model. */
  lemma FreedState(n: int, free: map<int, seq<int>>, lists: seq<seq<Slab>>, slab: Slab, index: int, k: nat,
                   lists': seq<seq<Slab>>)
    requires |lists| == 3 && slab.address in free
    requires free[slab.address] == [] ==>
               k < |lists[FULL]| && lists[FULL][k] == slab && NoDup(Addresses(lists[FULL]))
    requires if free[slab.address] != [] then lists' == lists
             else lists' == lists[FULL := lists[FULL][..k] + lists[FULL][k + 1..]][RECYCLED := [slab] + lists[RECYCLED]]
    ensures StateOf(n, free[slab.address := [index] + free[slab.address]], lists') ==
            SlabModel.Deallocate(StateOf(n, free, lists), slab.address, index)
  {
    if free[slab.address] == [] { AddressesMoved(lists[FULL], lists[RECYCLED], k); }
  }

  /** A node lies inside its slab's extent. */
  lemma NodeInExtent(l: Layout, slab: int, i: int)
    requires LayoutOk(l) && 0 <= i < l.blocksPerSlab
    ensures slab <= NodeAddress(l, slab, i) < slab + Extent(l)
  {
    MulAtLeast(l.blockStride, i, l.blocksPerSlab);
    MulAtLeast(l.blockStride, 0, i + 1);
    MulSubtract(l.blockStride, i + 1, 1);
  }

  /** Nodes of separate slabs, or at different indices of one slab, have different addresses. */
  lemma NodesDiffer(l: Layout, a: int, i: int, b: int, j: int)
    requires LayoutOk(l) && 0 <= i < l.blocksPerSlab && 0 <= j < l.blocksPerSlab
    requires Separate(l, a, b) || (a == b && i != j)
    ensures NodeAddress(l, a, i) != NodeAddress(l, b, j)
  {
    NodeInExtent(l, a, i);
    NodeInExtent(l, b, j);
    MulSubtract(l.blockStride, i, j);
    ProductGap(l.blockStride, i - j);
  }

  /** The nextIndex values of a new slab. */
  function NewLinks(n: nat): (q: seq<int>)
    ensures |q| == n
    ensures forall i :: 0 <= i < n ==> q[i] == if i + 1 < n then i + 1 else INVALID_INDEX
  {
    seq(n, i requires 0 <= i < n => if i + 1 < n then i + 1 else INVALID_INDEX)
  }

  /** A new slab has all its blocks free, in increasing order. */
  lemma NewSlabFree(l: Layout, b: Slab)
    requires LayoutOk(l) && b.address > 0 && b.blocksInUse == 0
    requires b.nextIndex == NewLinks(l.blocksPerSlab) && b.free == Upto(l.blocksPerSlab)
    requires b.freeList == NodeAddress(l, b.address, 0)
    ensures FreeOk(l, b)
  {
    forall j | 0 <= j < |b.free|
      ensures FreeLink(b, j)
    {
    }
  }

  class SlabAllocator {
    const l: Layout
    ghost const sizes: Sizes
    const mAvailableSlabs: Slab
    const mFullSlabs: Slab
    const mRecycledSlabs: Slab
    /** What lives at an address: slab headers, and the nodes behind the blocks. */
    var memory: map<int, Slab>
    var nodes: map<int, NodeRef>

    ghost var lists: seq<seq<Slab>>
    ghost var repr: set<Slab>
    /** The free blocks of the slab at each address. */
    ghost var freeOf: map<int, seq<int>>

    function Sentinel(h: int): Slab {
      if h == AVAILABLE then mAvailableSlabs else if h == FULL then mFullSlabs else mRecycledSlabs
    }

    ghost function Sentinels(): set<Slab> {
      {mAvailableSlabs, mFullSlabs, mRecycledSlabs}
    }

    function AlignedTo(allocation: nat): int {
      if l.allocationAlignment >= 1 then Align(allocation, l.allocationAlignment) else 0
    }

    // ----- How the objects represent the model -----

    /** A list: the sentinel, then the slabs, all of which carry the list's number. */
    ghost predicate ListOk(h: int)
      requires 0 <= h < |lists| == 3 && forall b :: b in lists[h] ==> b in repr
      reads this`lists, this`repr
      reads repr`home, repr`next, repr`prev, Sentinels()`home, Sentinels()`next, Sentinels()`prev
    {
      && Sentinel(h).home == h && Sentinel(h) !in repr
      && (forall b :: b in lists[h] ==> b.home == h)
      && AllDistinct([Sentinel(h)] + lists[h]) && Chain([Sentinel(h)] + lists[h])
    }

    ghost predicate ListsOk()
      reads this`lists, this`repr
      reads repr`home, repr`next, repr`prev, Sentinels()`home, Sentinels()`next, Sentinels()`prev
    {
      && |lists| == 3
      && (forall h, b :: 0 <= h < 3 && b in lists[h] ==> b in repr)
      && (forall h {:trigger ListOk(h)} :: 0 <= h < 3 ==> ListOk(h))
    }

    ghost predicate SlabOk(a: int)
      requires a in memory && memory[a] in repr
      reads this`memory, this`repr, this`freeOf
      reads repr`free, repr`nextIndex, repr`freeList, repr`blocksInUse
    {
      && memory[a].address == a == AlignedTo(memory[a].allocation)
      && FreeOk(l, memory[a])
      && a in freeOf && freeOf[a] == memory[a].free
    }

    ghost predicate SlabsOk()
      reads this`memory, this`repr, this`freeOf
      reads repr`free, repr`nextIndex, repr`freeList, repr`blocksInUse
    {
      && memory.Keys == freeOf.Keys
      && (forall a :: a in memory ==> memory[a] in repr)
      && (forall b :: b in repr ==> b.address in memory && memory[b.address] == b)
      && (forall a {:trigger SlabOk(a)} :: a in memory ==> SlabOk(a))
    }

    ghost predicate NodesOf(a: int, b: Slab)
      reads this`nodes
    {
      forall i :: 0 <= i < l.blocksPerSlab ==>
        NodeAddress(l, a, i) in nodes && nodes[NodeAddress(l, a, i)] == NodeRef(b, i)
    }

    /** The allocations of two slabs do not overlap. */
    ghost predicate AllocationsApart(a: int, b: int)
      requires a in memory && b in memory
      reads this`memory
    {
      || memory[a].allocation + l.totalAllocationSize <= memory[b].allocation
      || memory[b].allocation + l.totalAllocationSize <= memory[a].allocation
    }

    ghost predicate NodesOk()
      reads this`memory, this`nodes
    {
      && (forall a {:trigger NodesOf(a, memory[a])} :: a in memory ==> NodesOf(a, memory[a]))
      && (forall a, b {:trigger AllocationsApart(a, b)} :: a in memory && b in memory && a != b ==>
            AllocationsApart(a, b))
    }

    ghost function Model(): State
      requires |lists| == 3
      reads this`freeOf, this`lists
    {
      StateOf(l.blocksPerSlab, freeOf, lists)
    }

    ghost predicate Valid()
      reads this, repr, Sentinels()
    {
      && SizesOk(sizes) && l == MakeLayout(sizes, l.blocksPerSlab)
      && LayoutOk(l) && ListsOk() && SlabsOk() && NodesOk() && Inv(Model())
    }

    constructor (z: Sizes, blocksPerSlab: nat)
      requires SizesOk(z)
      ensures Valid() <==> Supported(z, blocksPerSlab)
      ensures sizes == z && l == MakeLayout(z, blocksPerSlab) && |lists| == 3 && Model() == Initially(blocksPerSlab)
      ensures fresh(Sentinels())
    {
      MadeLayoutOk(z, blocksPerSlab);
      l, sizes := MakeLayout(z, blocksPerSlab), z;
      mAvailableSlabs := new Slab(0, 0, 0, [], [], AVAILABLE);
      mFullSlabs := new Slab(0, 0, 0, [], [], FULL);
      mRecycledSlabs := new Slab(0, 0, 0, [], [], RECYCLED);
      memory, nodes, lists, repr, freeOf := map[], map[], [[], [], []], {}, map[];
      new;
      if blocksPerSlab >= 1 { InitiallyInv(blocksPerSlab); }
      forall h | 0 <= h < 3
        ensures ListOk(h)
      {
        assert lists[h] == [];
        assert LinkOk([Sentinel(h)] + lists[h], 0);
      }
    }

    // ----- Moving slabs between lists -----

    /** Lists stay linked as long as they and their slabs' links do not change. */
    twostate lemma ListsFrame(skip: int)
      requires old(ListsOk()) && |lists| == 3 && old(repr) <= repr
      requires forall h :: 0 <= h < 3 ==> Sentinel(h) !in repr
      requires forall h :: 0 <= h < 3 && h != skip ==> lists[h] == old(lists)[h]
      requires forall h :: 0 <= h < 3 && h != skip ==>
                 Sentinel(h).home == h && Sentinel(h).next == old(Sentinel(h).next)
      requires forall h, b :: 0 <= h < 3 && h != skip && b in old(lists)[h] ==>
                 b.home == old(b.home) && b.next == old(b.next) && b.prev == old(b.prev)
      ensures forall h, b :: 0 <= h < 3 && h != skip && b in lists[h] ==> b in repr
      ensures forall h {:trigger ListOk(h)} :: 0 <= h < 3 && h != skip ==> ListOk(h)
    {
      forall h | 0 <= h < 3 && h != skip
        ensures ListOk(h)
      {
        assert old(ListOk(h));
        var r := [Sentinel(h)] + lists[h];
        forall i | 0 <= i < |r|
          ensures LinkOk(r, i)
        {
          assert old(LinkOk(r, i));
          if i > 0 { assert r[i] == lists[h][i - 1] && r[i] in old(lists)[h]; }
        }
      }
    }

    /** A slab and a sentinel know which list they are on. */
    lemma ListFacts()
      requires ListsOk()
      ensures forall g :: 0 <= g < 3 ==> Sentinel(g).home == g && Sentinel(g) !in repr
      ensures forall g, b :: 0 <= g < 3 && b in lists[g] ==> b.home == g && b in repr
    {
      assert ListOk(AVAILABLE) && ListOk(FULL) && ListOk(RECYCLED);
    }

    method TakeOff(h: int, slab: Slab, ghost k: nat)
      requires ListsOk() && 0 <= h < 3 && k < |lists[h]| && lists[h][k] == slab
      modifies this`lists, lists[h]`prev, lists[h]`next, slab`home, Sentinel(h)`next, Sentinel(h)`prev
      ensures ListsOk() && slab.home == LOOSE
      ensures lists == old(lists)[h := old(lists)[h][..k] + old(lists)[h][k + 1..]]
    {
      ListFacts();
      assert ListOk(h) && slab in lists[h];
      ghost var q := lists[h];
      ghost var r := [Sentinel(h)] + q;
      assert r[k + 1] == slab;
      DistinctAfterRemove(Sentinel(h), q, k);
      Splice(slab, r, k + 1);
      slab.home := LOOSE;
      lists := lists[h := q[..k] + q[k + 1..]];
      assert r[..k + 1] + r[k + 2..] == [Sentinel(h)] + lists[h];
      forall g, b | 0 <= g < 3 && g != h && b in old(lists)[g]
        ensures b.home == old(b.home) && b.next == old(b.next) && b.prev == old(b.prev)
      {
        assert old(b.home) == g;
      }
      ListsFrame(h);
      assert ListOk(h);
    }

    method PutOn(h: int, slab: Slab)
      requires ListsOk() && 0 <= h < 3 && slab in repr && slab.home == LOOSE
      modifies this`lists, lists[h]`prev, slab`prev, slab`next, slab`home, Sentinel(h)`next
      ensures ListsOk()
      ensures lists == old(lists)[h := [slab] + old(lists)[h]]
    {
      ListFacts();
      assert ListOk(h);
      ghost var q := lists[h];
      DistinctAfterPrepend(Sentinel(h), slab, q);
      Prepend(Sentinel(h), slab, q);
      slab.home := h;
      lists := lists[h := [slab] + q];
      assert [Sentinel(h), slab] + q == [Sentinel(h)] + lists[h];
      forall g, b | 0 <= g < 3 && g != h && b in old(lists)[g]
        ensures b.home == old(b.home) && b.next == old(b.next) && b.prev == old(b.prev)
      {
        assert old(b.home) == g;
      }
      ListsFrame(h);
      assert ListOk(h);
    }

    /** The available list is empty: let it have the recycled slabs. */
    method SwapRecycled()
      requires ListsOk() && lists[AVAILABLE] == [] && lists[RECYCLED] != []
      modifies this`lists, lists[RECYCLED]`prev, lists[RECYCLED]`home, mAvailableSlabs`next, mRecycledSlabs`next
      ensures ListsOk() && lists == [old(lists)[RECYCLED], old(lists)[FULL], []]
    {
      assert ListOk(AVAILABLE) && ListOk(RECYCLED) && ListOk(FULL);
      ghost var q := lists[RECYCLED];
      ghost var r := [mRecycledSlabs] + q;
      assert LinkOk(r, 0) && LinkOk([mAvailableSlabs] + lists[AVAILABLE], 0);
      mAvailableSlabs.next, mRecycledSlabs.next := mRecycledSlabs.next, mAvailableSlabs.next;
      mAvailableSlabs.next.prev := mAvailableSlabs;
      forall b | b in lists[RECYCLED] { b.home := AVAILABLE; }
      lists := [q, lists[FULL], []];
      ghost var t := [mAvailableSlabs] + q;
      assert LinkOk([mRecycledSlabs] + lists[RECYCLED], 0);
      forall i | 0 <= i < |t|
        ensures LinkOk(t, i)
      {
        assert old(LinkOk(r, i));
        if i > 0 { assert t[i] == q[i - 1] && t[i] in q && r[i] != r[0]; }
        if i > 1 { assert r[i] != r[1]; }
      }
      assert AllDistinct(t) by {
        assert forall i :: 0 < i < |t| ==> t[i] == r[i] && t[i] in q;
      }
      assert ListOk(AVAILABLE);
      assert ListOk(RECYCLED);
      ghost var f := [mFullSlabs] + lists[FULL];
      forall i | 0 <= i < |f|
        ensures LinkOk(f, i)
      {
        assert old(LinkOk(f, i));
        if i > 0 { assert f[i] == lists[FULL][i - 1] && f[i] in lists[FULL]; }
      }
      assert ListOk(FULL);
    }

    /** What `new char[mTotalAllocationSize]` may return: memory apart from every slab's allocation. */
    ghost predicate FreshAllocation(allocation: nat)
      reads this`memory
    {
      && allocation > 0
      && forall a :: a in memory ==>
           || allocation + l.totalAllocationSize <= memory[a].allocation
           || memory[a].allocation + l.totalAllocationSize <= allocation
    }

    lemma FreshIsSeparate(allocation: nat)
      requires LayoutOk(l) && SlabsOk() && FreshAllocation(allocation)
      ensures AlignedTo(allocation) > 0 && AlignedTo(allocation) !in memory
      ensures forall a :: a in memory ==> Separate(l, a, AlignedTo(allocation))
    {
      AlignIsLeast(allocation, l.allocationAlignment);
      NodeInExtent(l, 0, 0);
      forall a | a in memory
        ensures Separate(l, a, AlignedTo(allocation))
      {
        assert SlabOk(a);
        AlignIsLeast(memory[a].allocation, l.allocationAlignment);
      }
    }

    /** Lay out the nodes of a new slab. */
    method InitialiseNodes(slab: Slab)
      requires LayoutOk(l) && NodesOk() && slab.address !in memory
      requires forall a :: a in memory ==> Separate(l, a, slab.address)
      modifies this`nodes, slab`nextIndex
      ensures NodesOk() && NodesOf(slab.address, slab)
      ensures slab.nextIndex == NewLinks(l.blocksPerSlab)
    {
      var node := NodeFromObject(l, slab.address + l.slabBlocksOffset);
      assert node == NodeAddress(l, slab.address, 0);
      var links: seq<int> := [];
      forall a, j | a in memory && 0 <= j < l.blocksPerSlab
        ensures NodeAddress(l, a, j) in nodes && nodes[NodeAddress(l, a, j)] == NodeRef(memory[a], j)
      {
        assert NodesOf(a, memory[a]);
      }
      var i := 0;
      while i < l.blocksPerSlab
        invariant 0 <= i <= l.blocksPerSlab && |links| == i
        invariant forall j :: 0 <= j < i ==> links[j] == j + 1
        invariant forall j :: 0 <= j < i ==>
                    NodeAddress(l, slab.address, j) in nodes &&
                    nodes[NodeAddress(l, slab.address, j)] == NodeRef(slab, j)
        invariant forall a, j :: a in memory && 0 <= j < l.blocksPerSlab ==>
                    NodeAddress(l, a, j) in nodes && nodes[NodeAddress(l, a, j)] == NodeRef(memory[a], j)
      {
        NodeToNode(l, slab.address, 0, i);
        ghost var at := NodeAddress(l, slab.address, i);
        forall a, j | a in memory && 0 <= j < l.blocksPerSlab
          ensures NodeAddress(l, a, j) != at
        {
          NodesDiffer(l, a, j, slab.address, i);
        }
        forall j | 0 <= j < i
          ensures NodeAddress(l, slab.address, j) != at
        {
          NodesDiffer(l, slab.address, j, slab.address, i);
        }
        nodes := nodes[OffsetFrom(l, node, i) := NodeRef(slab, i)];
        links := links + [i + 1];
        i := i + 1;
      }
      slab.nextIndex := links[l.blocksPerSlab - 1 := INVALID_INDEX];
    }

    /** Enter a new slab, not yet on a list, into memory. */
    method Enter(slab: Slab)
      requires LayoutOk(l) && ListsOk() && SlabsOk() && NodesOk()
      requires slab.address !in memory && slab !in repr && slab !in Sentinels()
      requires slab.address == AlignedTo(slab.allocation) && FreeOk(l, slab)
      requires NodesOf(slab.address, slab) && FreshAllocation(slab.allocation)
      modifies this`memory, this`repr, this`freeOf
      ensures ListsOk() && SlabsOk() && NodesOk()
      ensures repr == old(repr) + {slab}
      ensures freeOf == old(freeOf)[slab.address := slab.free]
    {
      memory := memory[slab.address := slab];
      repr := repr + {slab};
      freeOf := freeOf[slab.address := slab.free];
      forall h | 0 <= h < 3
        ensures Sentinel(h) !in repr && Sentinel(h).home == h
      {
        assert old(ListOk(h));
      }
      ListsFrame(-1);
      EnteredSlabs(slab);
      EnteredNodes(slab);
    }

    twostate lemma EnteredSlabs(slab: Slab)
      requires old(SlabsOk()) && slab.address !in old(memory) && slab !in old(repr)
      requires slab.address == AlignedTo(slab.allocation) && FreeOk(l, slab)
      requires memory == old(memory)[slab.address := slab] && repr == old(repr) + {slab}
      requires freeOf == old(freeOf)[slab.address := slab.free]
      requires forall b :: b in old(repr) ==>
                 && b.free == old(b.free) && b.nextIndex == old(b.nextIndex)
                 && b.freeList == old(b.freeList) && b.blocksInUse == old(b.blocksInUse)
      ensures SlabsOk()
    {
      forall a | a in memory
        ensures SlabOk(a)
      {
        if a != slab.address {
          assert old(SlabOk(a));
          forall j | 0 <= j < |memory[a].free|
            ensures FreeLink(memory[a], j)
          {
            assert old(FreeLink(memory[a], j));
          }
        }
      }
    }

    twostate lemma EnteredNodes(slab: Slab)
      requires old(NodesOk()) && slab.address !in old(memory) && old(FreshAllocation(slab.allocation))
      requires memory == old(memory)[slab.address := slab] && nodes == old(nodes) && NodesOf(slab.address, slab)
      ensures NodesOk()
    {
      forall a | a in memory
        ensures NodesOf(a, memory[a])
      {
        if a != slab.address { assert old(NodesOf(a, memory[a])); }
      }
      forall a, b | a in memory && b in memory && a != b
        ensures AllocationsApart(a, b)
      {
        if a != slab.address && b != slab.address { assert old(AllocationsApart(a, b)); }
      }
    }

    /** The header and nodes of a new slab. */
    method MakeSlab(allocation: nat) returns (slab: Slab)
      requires LayoutOk(l) && NodesOk() && AlignedTo(allocation) > 0 && AlignedTo(allocation) !in memory
      requires forall a :: a in memory ==> Separate(l, a, AlignedTo(allocation))
      modifies this`nodes
      ensures fresh(slab) && slab.allocation == allocation && slab.address == AlignedTo(allocation)
      ensures slab.free == Upto(l.blocksPerSlab) && slab.home == LOOSE
      ensures NodesOk() && NodesOf(slab.address, slab) && FreeOk(l, slab)
    {
      var alignedPtr := AlignedTo(allocation);
      var node := NodeFromObject(l, alignedPtr + l.slabBlocksOffset);
      slab := new Slab(allocation, alignedPtr, node, [], Upto(l.blocksPerSlab), LOOSE);
      InitialiseNodes(slab);
      NewSlabFree(l, slab);
    }

    /** The heap side of creating a slab. */
    method AddSlab(allocation: nat) returns (slab: Slab)
      requires LayoutOk(l) && ListsOk() && SlabsOk() && NodesOk() && FreshAllocation(allocation)
      modifies this`memory, this`nodes, this`repr, this`freeOf, this`lists, repr, Sentinels()
      ensures ListsOk() && SlabsOk() && NodesOk()
      ensures AlignedTo(allocation) !in old(freeOf) && slab.address == AlignedTo(allocation)
      ensures freeOf == old(freeOf)[slab.address := Upto(l.blocksPerSlab)]
      ensures lists == old(lists)[AVAILABLE := [slab] + old(lists)[AVAILABLE]]
      ensures forall b :: b in repr && b !in old(repr) ==> fresh(b)
    {
      FreshIsSeparate(allocation);
      slab := MakeSlab(allocation);
      Enter(slab);
      PutOn(AVAILABLE, slab);
    }

    /** A slab in a new allocation, put on the available list. */
    method CreateSlab(allocation: nat)
      requires Valid() && NeedsSlab(Model()) && FreshAllocation(allocation)
      modifies this, repr, Sentinels()
      ensures Valid() && Model() == Replenish(old(Model()), AlignedTo(allocation))
      ensures AlignedTo(allocation) !in old(freeOf)
      ensures forall b :: b in repr && b !in old(repr) ==> fresh(b)
    {
      var slab := AddSlab(allocation);
      NewSlabOk(old(Model()), slab.address);
      assert lists[AVAILABLE] == [slab];
      assert Addresses(lists[AVAILABLE]) == [slab.address];
    }

    /** The recycled slabs become the available ones. */
    method Recycle()
      requires Valid() && Model().available == [] && Model().recycled != []
      modifies this, repr, Sentinels()
      ensures Valid() && Model() == old(Model().(available := Model().recycled, recycled := []))
      ensures repr == old(repr)
    {
      RecycleOk(Model());
      SwapRecycled();
      assert Addresses(lists[RECYCLED]) == [];
    }

    method GetNewSlab(allocation: nat)
      requires Valid() && Model().available == [] && (NeedsSlab(Model()) ==> FreshAllocation(allocation))
      modifies this, repr, Sentinels()
      ensures Valid() && Model() == Replenish(old(Model()), AlignedTo(allocation))
      ensures NeedsSlab(old(Model())) ==> AlignedTo(allocation) !in old(freeOf)
      ensures forall b :: b in repr && b !in old(repr) ==> fresh(b)
    {
      assert ListOk(RECYCLED) && LinkOk([mRecycledSlabs] + lists[RECYCLED], 0);
      if mRecycledSlabs.next != null {
        Recycle();
        return;
      }
      CreateSlab(allocation);
    }

    // ----- Blocks -----

    twostate lemma SlabsFrame(a: int)
      requires old(SlabsOk()) && memory == old(memory) && repr == old(repr)
      requires a in memory && freeOf == old(freeOf)[a := memory[a].free] && FreeOk(l, memory[a])
      requires forall b :: b in repr && b != memory[a] ==>
                 && b.free == old(b.free) && b.nextIndex == old(b.nextIndex)
                 && b.freeList == old(b.freeList) && b.blocksInUse == old(b.blocksInUse)
      ensures SlabsOk()
    {
      forall c | c in memory
        ensures SlabOk(c)
      {
        assert old(SlabOk(c)) && old(SlabOk(a));
        if c != a {
          assert memory[c] != memory[a];
          forall j | 0 <= j < |memory[c].free|
            ensures FreeLink(memory[c], j)
          {
            assert old(FreeLink(memory[c], j));
          }
        }
      }
    }

    method Pop(slab: Slab) returns (node: int)
      requires LayoutOk(l) && SlabsOk() && NodesOk() && slab in repr && slab.free != []
      modifies this`freeOf, slab`freeList, slab`blocksInUse, slab`free
      ensures SlabsOk()
      ensures slab.address in old(freeOf) && old(freeOf)[slab.address] == old(slab.free)
      ensures freeOf == old(freeOf)[slab.address := old(slab.free)[1..]]
      ensures node == NodeAddress(l, slab.address, old(slab.free)[0])
      ensures slab.blocksInUse == l.blocksPerSlab <==> old(slab.free)[1..] == []
    {
      assert SlabOk(slab.address) && NodesOf(slab.address, memory[slab.address]);
      node := PopFront(l, slab, nodes);
      freeOf := freeOf[slab.address := slab.free];
      SlabsFrame(slab.address);
    }

    method Push(slab: Slab, node: int, ghost index: int)
      requires LayoutOk(l) && SlabsOk() && NodesOk() && slab in repr
      requires 0 <= index < l.blocksPerSlab && index !in slab.free && node == NodeAddress(l, slab.address, index)
      modifies this`freeOf, slab`freeList, slab`blocksInUse, slab`nextIndex, slab`free
      ensures SlabsOk()
      ensures slab.address in old(freeOf) && old(freeOf)[slab.address] == old(slab.free)
      ensures freeOf == old(freeOf)[slab.address := [index] + old(slab.free)]
    {
      assert SlabOk(slab.address) && NodesOf(slab.address, memory[slab.address]);
      PushFront(l, slab, node, nodes, index);
      freeOf := freeOf[slab.address := slab.free];
      SlabsFrame(slab.address);
    }

    /** The first available slab has a free block. */
    lemma FirstAvailable() returns (slab: Slab)
      requires Valid() && Model().available != []
      ensures lists[AVAILABLE] != [] && slab == lists[AVAILABLE][0] && slab in repr
      ensures mAvailableSlabs.next == slab && slab.address == Model().available[0]
      ensures slab.address in freeOf && freeOf[slab.address] == slab.free != []
    {
      slab := lists[AVAILABLE][0];
      assert ListOk(AVAILABLE) && LinkOk([mAvailableSlabs] + lists[AVAILABLE], 0);
      assert slab in lists[AVAILABLE];
      assert OnOneList(Model(), slab.address) && Model().available[0] in Model().available;
      assert SlabOk(slab.address);
    }

    /** Move the k-th slab of one list to the front of another. */
    method Move(g: int, h: int, slab: Slab, ghost k: nat)
      requires ListsOk() && 0 <= g < 3 && 0 <= h < 3 && g != h && k < |lists[g]| && lists[g][k] == slab
      modifies this`lists, repr`prev, repr`next, repr`home, Sentinels()`prev, Sentinels()`next
      ensures ListsOk()
      ensures lists == old(lists)[g := old(lists)[g][..k] + old(lists)[g][k + 1..]][h := [slab] + old(lists)[h]]
    {
      assert slab in lists[g];
      TakeOff(g, slab, k);
      PutOn(h, slab);
    }

    /** The heap side of taking a block. */
    method TakeHeap(slab: Slab) returns (node: int)
      requires LayoutOk(l) && ListsOk() && SlabsOk() && NodesOk() && slab in repr && slab.free != []
      requires lists[AVAILABLE] != [] && lists[AVAILABLE][0] == slab
      modifies this`freeOf, this`lists, repr, Sentinels()
      ensures ListsOk() && SlabsOk() && NodesOk()
      ensures freeOf == old(freeOf)[slab.address := old(slab.free)[1..]]
      ensures node == NodeAddress(l, slab.address, old(slab.free)[0])
      ensures if old(slab.free)[1..] != [] then lists == old(lists)
              else lists == old(lists)[AVAILABLE := old(lists)[AVAILABLE][..0] + old(lists)[AVAILABLE][1..]]
                                      [FULL := [slab] + old(lists)[FULL]]
    {
      node := Pop(slab);
      if slab.blocksInUse == l.blocksPerSlab {
        Move(AVAILABLE, FULL, slab, 0);
      }
    }

    /** Take a block from the first available slab; move the slab if that was its last one. */
    method TakeBlock() returns (node: int)
      requires Valid() && Model().available != []
      modifies this, repr, Sentinels()
      ensures Valid() && old(Model().available[0] in freeOf && freeOf[Model().available[0]] != [])
      ensures Model() == TakeFirst(old(Model()))
      ensures node == old(NodeAddress(l, Model().available[0], freeOf[Model().available[0]][0]))
      ensures repr == old(repr)
    {
      ghost var first := FirstAvailable();
      TakeFirstInv(Model());
      ghost var free, were, slab := freeOf, lists, mAvailableSlabs.next;
      node := TakeHeap(mAvailableSlabs.next);
      TakenState(l.blocksPerSlab, free, were, slab, lists);
    }

    method EnsureAvailable(allocation: nat)
      requires Valid() && (NeedsSlab(Model()) ==> FreshAllocation(allocation))
      modifies this, repr, Sentinels()
      ensures Valid() && Model() == Ready(old(Model()), AlignedTo(allocation)) && Model().available != []
      ensures NeedsSlab(old(Model())) ==> AlignedTo(allocation) !in old(freeOf)
      ensures forall b :: b in repr && b !in old(repr) ==> fresh(b)
    {
      assert ListOk(AVAILABLE) && LinkOk([mAvailableSlabs] + lists[AVAILABLE], 0);
      if mAvailableSlabs.next == null {
        assert Model().available == [];
        GetNewSlab(allocation);
      }
    }

    /** Take a block, from a new or recycled slab if need be. */
    method AllocateNode(allocation: nat, ghost ready: State) returns (node: int)
      requires Valid() && (NeedsSlab(Model()) ==> FreshAllocation(allocation))
      requires ready == Ready(Model(), AlignedTo(allocation))
      modifies this, repr, Sentinels()
      ensures Valid() && ready.available != []
      ensures NeedsSlab(old(Model())) ==> AlignedTo(allocation) !in old(freeOf)
      ensures ready.available[0] in ready.free && ready.free[ready.available[0]] != []
      ensures Model() == TakeFirst(ready)
      ensures node == NodeAddress(l, ready.available[0], ready.free[ready.available[0]][0])
      ensures forall b :: b in repr && b !in old(repr) ==> fresh(b)
    {
      EnsureAvailable(allocation);
      assert Model() == ready;
      node := TakeBlock();
    }

    /** `allocation` is what operator new returns, should a new slab be needed. */
    method Allocate(allocation: nat) returns (ptr: int)
      requires Valid() && (NeedsSlab(Model()) ==> FreshAllocation(allocation))
      modifies this, repr, Sentinels()
      ensures Valid() && old(Inv(Model()))
      ensures NeedsSlab(old(Model())) ==> AlignedTo(allocation) !in old(freeOf)
      ensures var (t, r) := SlabModel.Allocate(old(Model()), AlignedTo(allocation));
              Model() == t && ptr == ObjectAddress(l, r.0, r.1)
      ensures forall b :: b in repr && b !in old(repr) ==> fresh(b)
    {
      ghost var s := Model();
      ghost var ready := Ready(s, AlignedTo(allocation));
      var node := AllocateNode(allocation, ready);
      AllocateIs(s, AlignedTo(allocation));
      ptr := ObjectFromNode(l, node);
    }

    /** The memory of block i of the slab at b: its object and its node. */
    ghost predicate ApartFromBlock(x: int, b: int, j: int) {
      && RangesApart(x, sizes.objectSize, ObjectAddress(l, b, j), sizes.objectSize)
      && RangesApart(x, sizes.objectSize, NodeAddress(l, b, j), NODE_SIZE)
    }

    /** Where an object lies: aligned, in its slab's allocation, behind the header and before its node. */
    ghost predicate Placed(a: int, i: int)
      requires a in memory
      reads this`memory
    {
      var x := ObjectAddress(l, a, i);
      && sizes.objectAlignment >= 1 && x % sizes.objectAlignment == 0
      && memory[a].allocation <= a && a + sizes.slabSize <= x
      && x + sizes.objectSize <= NodeAddress(l, a, i)
      && NodeAddress(l, a, i) + NODE_SIZE <= memory[a].allocation + l.totalAllocationSize
    }

    lemma BlockPlaced(a: int, i: int)
      requires Valid() && a in memory && 0 <= i < l.blocksPerSlab
      ensures Placed(a, i)
    {
      assert SlabOk(a);
      LayoutFacts(sizes, l.blocksPerSlab);
      AlignIsLeast(memory[a].allocation, l.allocationAlignment);
      BlocksApartAndInside(sizes, l.blocksPerSlab, memory[a].allocation, i, i);
      BlocksAligned(sizes, l.blocksPerSlab, a, i);
    }

    /** In every state, every block is apart from the header, the object and the node of every other block. */
    lemma BlocksPlaced(a: int, i: int, b: int, j: int)
      requires Valid() && a in memory && 0 <= i < l.blocksPerSlab
      requires b in memory && 0 <= j < l.blocksPerSlab && (a != b || i != j)
      ensures Placed(a, i) && ApartFromBlock(ObjectAddress(l, a, i), b, j)
      ensures RangesApart(ObjectAddress(l, a, i), sizes.objectSize, b, sizes.slabSize)
    {
      BlockPlaced(a, i);
      BlockPlaced(b, j);
      if a != b {
        assert AllocationsApart(a, b);
      } else {
        assert SlabOk(a);
        BlocksApartAndInside(sizes, l.blocksPerSlab, memory[a].allocation, i, j);
      }
    }

    ghost predicate ClearAt(ptr: int, a: int, index: int, b: int, j: int) {
      && RangesApart(ptr, sizes.objectSize, b, sizes.slabSize)
      && (b != a || j != index ==> ApartFromBlock(ptr, b, j))
    }

    /** An address is clear of all slab headers and of all other blocks. */
    ghost predicate ClearOfOthers(ptr: int, a: int, index: int)
      reads this`memory
    {
      forall b, j {:trigger ClearAt(ptr, a, index, b, j)} ::
        b in memory && 0 <= j < l.blocksPerSlab ==> ClearAt(ptr, a, index, b, j)
    }

    lemma ObjectPlaced(a: int, index: int)
      requires Valid() && IsLive(Model(), a, index)
      ensures a in memory && Placed(a, index) && ClearOfOthers(ObjectAddress(l, a, index), a, index)
    {
      BlockPlaced(a, index);
      forall b, j | b in memory && 0 <= j < l.blocksPerSlab
        ensures ClearAt(ObjectAddress(l, a, index), a, index, b, j)
      {
        if b != a || j != index { BlocksPlaced(a, index, b, j); }
      }
    }

    /**
     A new object: aligned, inside its own allocation, apart from all slab headers and nodes and from
     every object that is live.
     */
    method AllocateObject(allocation: nat) returns (ptr: int, ghost a: int, ghost index: int)
      requires Valid() && (NeedsSlab(Model()) ==> FreshAllocation(allocation))
      modifies this, repr, Sentinels()
      ensures Valid() && IsLive(Model(), a, index) && !IsLive(old(Model()), a, index)
      ensures ptr == ObjectAddress(l, a, index) && a in memory && Placed(a, index) && ClearOfOthers(ptr, a, index)
      ensures forall b :: b in repr && b !in old(repr) ==> fresh(b)
    {
      ghost var s := Model();
      ptr := Allocate(allocation);
      a, index := NewlyLive(s, AlignedTo(allocation));
      ObjectPlaced(a, index);
    }

    lemma LiveSlab(a: int, index: int) returns (slab: Slab)
      requires Valid() && IsLive(Model(), a, index)
      ensures a in memory && slab == memory[a] && slab in repr && slab.address == a
      ensures freeOf[a] == slab.free && 0 <= index < l.blocksPerSlab && index !in slab.free
      ensures slab.blocksInUse == l.blocksPerSlab <==> slab.free == []
      ensures NodeAddress(l, a, index) in nodes && nodes[NodeAddress(l, a, index)] == NodeRef(slab, index)
    {
      assert SlabOk(a) && NodesOf(a, memory[a]);
      slab := memory[a];
    }

    /** The address arithmetic of Deallocate finds the node and the slab of a live object. */
    method Locate(ptr: int, ghost a: int, ghost index: int) returns (node: int, slab: Slab)
      requires Valid() && IsLive(Model(), a, index) && ptr == ObjectAddress(l, a, index)
      ensures node == NodeAddress(l, a, index)
      ensures slab in repr && slab.address == a && freeOf[a] == slab.free && index !in slab.free
      ensures slab.blocksInUse == l.blocksPerSlab <==> slab.free == []
    {
      ghost var owner := LiveSlab(a, index);
      node := NodeFromObject(l, ptr);
      assert node == NodeAddress(l, a, index);
      var at := nodes[node].index;
      ObjectLeadsToSlab(l, a, index);
      slab := memory[SlabFromObject(l, ptr, at)];
    }

    lemma FullIndex(slab: Slab) returns (k: nat)
      requires Valid() && slab in repr && slab.address in freeOf && freeOf[slab.address] == []
      ensures k < |lists[FULL]| && lists[FULL][k] == slab && NoDup(Addresses(lists[FULL]))
    {
      assert OnOneList(Model(), slab.address);
      k :| 0 <= k < |lists[FULL]| && Addresses(lists[FULL])[k] == slab.address;
      assert lists[FULL][k] in lists[FULL];
    }

    /** The heap side of Deallocate, once node and slab are known. */
    method FreeBlock(slab: Slab, node: int, ghost index: int, ghost k: nat)
      requires LayoutOk(l) && ListsOk() && SlabsOk() && NodesOk() && slab in repr
      requires 0 <= index < l.blocksPerSlab && index !in slab.free && node == NodeAddress(l, slab.address, index)
      requires slab.blocksInUse == l.blocksPerSlab <==> slab.free == []
      requires slab.free == [] ==> k < |lists[FULL]| && lists[FULL][k] == slab
      modifies this`freeOf, this`lists, repr, Sentinels()
      ensures ListsOk() && SlabsOk() && NodesOk()
      ensures freeOf == old(freeOf)[slab.address := [index] + old(slab.free)]
      ensures if old(slab.free) != [] then lists == old(lists)
              else lists == old(lists)[FULL := old(lists)[FULL][..k] + old(lists)[FULL][k + 1..]]
                                      [RECYCLED := [slab] + old(lists)[RECYCLED]]
    {
      var slabWasFull := slab.blocksInUse == l.blocksPerSlab;
      Push(slab, node, index);
      if slabWasFull {
        Move(FULL, RECYCLED, slab, k);
      }
    }

    /** Free the block at ptr, which is the live block `index` of the slab at `a`. */
    method Deallocate(ptr: int, ghost a: int, ghost index: int)
      requires Valid() && IsLive(Model(), a, index) && ptr == ObjectAddress(l, a, index)
      modifies this, repr, Sentinels()
      ensures Valid() && old(a in freeOf) && Model() == SlabModel.Deallocate(old(Model()), a, index)
      ensures repr == old(repr)
    {
      DeallocateInv(Model(), a, index);
      var node, slab := Locate(ptr, a, index);
      ghost var k: nat := 0;
      if slab.free == [] {
        k := FullIndex(slab);
      }
      ghost var free, were := freeOf, lists;
      FreeBlock(slab, node, index, k);
      FreedState(l.blocksPerSlab, free, were, slab, index, k, lists);
    }
  }

  lemma AddressesMoved(q: seq<Slab>, p: seq<Slab>, k: nat)
    requires k < |q|
    ensures NoDup(Addresses(q)) ==>
              Addresses(q[..k] + q[k + 1..]) == Without(Addresses(q), q[k].address)
    ensures k == 0 ==> Addresses(q[..k] + q[k + 1..]) == Addresses(q)[1..]
    ensures Addresses([q[k]] + p) == [q[k].address] + Addresses(p)
  {
    if NoDup(Addresses(q)) { AddressesWithout(q, k); }
    if k == 0 { assert Addresses(q[..k] + q[k + 1..]) == Addresses(q)[1..]; }
    assert Addresses([q[k]] + p) == [q[k].address] + Addresses(p);
  }

  lemma NewlyLive(s: State, address: int) returns (a: int, index: int)
    requires Inv(s) && (NeedsSlab(s) ==> address !in s.free)
    ensures var (t, r) := SlabModel.Allocate(s, address);
            (a, index) == r && IsLive(t, a, index) && !IsLive(s, a, index)
  {
    AllocateInv(s, address);
    var (t, r) := SlabModel.Allocate(s, address);
    a, index := r.0, r.1;
    assert IsLive(t, a, index);
  }
}
