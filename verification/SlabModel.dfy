/**
 The value a slab allocator denotes (src/common/SlabAllocator.{h,cpp}): three lists of slabs, and
 per slab the list of its free blocks. Slabs are named by their address.
 */
module SlabModel {
  import opened Collections

  datatype State = State(
    blocksPerSlab: int,
    free: map<int, seq<int>>,
    available: seq<int>,
    full: seq<int>,
    recycled: seq<int>)

  // ----- Operations -----

  function Initially(blocksPerSlab: int): State {
    State(blocksPerSlab, map[], [], [], [])
  }

  /** 0, 1, ..., n - 1: the free list of a new slab. */
  function Upto(n: nat): (q: seq<int>)
    ensures |q| == n && forall i :: 0 <= i < n ==> q[i] == i
  {
    if n == 0 then [] else Upto(n - 1) + [n - 1]
  }

  /** Make slabs available: the recycled ones if there are any, else a new slab at `address`. */
  function Replenish(s: State, address: int): State
    requires s.blocksPerSlab >= 1
  {
    if s.recycled != [] then s.(available := s.recycled, recycled := [])
    else s.(free := s.free[address := Upto(s.blocksPerSlab)], available := [address])
  }

  /** Take the first free block of the first available slab. */
  function TakeFirst(s: State): State
    requires s.available != [] && s.available[0] in s.free && s.free[s.available[0]] != []
  {
    var slab := s.available[0];
    var rest := s.free[slab][1..];
    var t := s.(free := s.free[slab := rest]);
    if rest == [] then t.(available := t.available[1..], full := [slab] + t.full) else t
  }

  function Ready(s: State, address: int): State
    requires s.blocksPerSlab >= 1
  {
    if s.available == [] then Replenish(s, address) else s
  }

  /** Allocate: the answer is the slab and the index of the block in it. */
  function Allocate(s: State, address: int): (State, (int, int))
    requires Inv(s) && (NeedsSlab(s) ==> address !in s.free)
  {
    ReadyInv(s, address);
    var r := Ready(s, address);
    assert r.available[0] in r.available;
    (TakeFirst(r), (r.available[0], r.free[r.available[0]][0]))
  }

  lemma AllocateIs(s: State, address: int)
    requires Inv(s) && (NeedsSlab(s) ==> address !in s.free)
    ensures var r := Ready(s, address);
            && r.available != [] && r.available[0] in r.free && r.free[r.available[0]] != []
            && Allocate(s, address) == (TakeFirst(r), (r.available[0], r.free[r.available[0]][0]))
  {
    ReadyInv(s, address);
    var slab := Ready(s, address).available[0];
    assert slab in Ready(s, address).available;
  }

  function Deallocate(s: State, slab: int, index: int): State
    requires slab in s.free
  {
    var t := s.(free := s.free[slab := [index] + s.free[slab]]);
    if s.free[slab] == [] then t.(full := Without(t.full, slab), recycled := [slab] + t.recycled) else t
  }

  predicate NeedsSlab(s: State) {
    s.available == [] && s.recycled == []
  }

  // ----- Invariant -----

  ghost predicate FreeListOk(s: State, slab: int)
    requires slab in s.free
  {
    && NoDup(s.free[slab])
    && |s.free[slab]| <= s.blocksPerSlab
    && forall i :: i in s.free[slab] ==> 0 <= i < s.blocksPerSlab
  }

  /** Each slab is on exactly one list; the full list holds exactly the slabs without a free block. */
  ghost predicate OnOneList(s: State, slab: int) {
    && (slab in s.free <==> slab in s.available || slab in s.full || slab in s.recycled)
    && !(slab in s.available && slab in s.full)
    && !(slab in s.available && slab in s.recycled)
    && !(slab in s.full && slab in s.recycled)
    && (slab in s.free ==> (slab in s.full <==> s.free[slab] == []))
  }

  ghost predicate Inv(s: State) {
    && s.blocksPerSlab >= 1
    && NoDup(s.available) && NoDup(s.full) && NoDup(s.recycled)
    && (forall slab {:trigger OnOneList(s, slab)} :: OnOneList(s, slab))
    && (forall slab {:trigger FreeListOk(s, slab)} :: slab in s.free ==> FreeListOk(s, slab))
  }

  /** The blocks in use: those of a slab that its free list does not hold. */
  ghost predicate IsLive(s: State, slab: int, index: int) {
    slab in s.free && 0 <= index < s.blocksPerSlab && index !in s.free[slab]
  }

  lemma InitiallyInv(blocksPerSlab: int)
    requires blocksPerSlab >= 1
    ensures Inv(Initially(blocksPerSlab))
  {
  }

  lemma NewSlabOk(s: State, address: int)
    requires Inv(s) && address !in s.free && s.available == [] && s.recycled == []
    ensures Inv(Replenish(s, address))
  {
    var t := Replenish(s, address);
    assert OnOneList(s, address);
    forall slab ensures OnOneList(t, slab) { assert OnOneList(s, slab); }
    forall slab | slab in t.free ensures FreeListOk(t, slab) {
      if slab != address { assert FreeListOk(s, slab); }
    }
  }

  lemma RecycleOk(s: State)
    requires Inv(s) && s.available == []
    ensures Inv(s.(available := s.recycled, recycled := []))
  {
    var t := s.(available := s.recycled, recycled := []);
    forall slab ensures OnOneList(t, slab) { assert OnOneList(s, slab); }
    forall slab | slab in t.free ensures FreeListOk(t, slab) { assert FreeListOk(s, slab); }
  }

  lemma ReadyInv(s: State, address: int)
    requires Inv(s) && (NeedsSlab(s) ==> address !in s.free)
    ensures var r := Ready(s, address);
            && Inv(r) && r.available != []
            && forall slab :: slab in r.available ==> slab in r.free && r.free[slab] != []
  {
    if s.available == [] {
      if s.recycled == [] { NewSlabOk(s, address); } else { RecycleOk(s); }
    }
    var r := Ready(s, address);
    forall slab | slab in r.available
      ensures slab in r.free && r.free[slab] != []
    {
      assert OnOneList(r, slab);
    }
  }

  lemma TakeFirstInv(s: State)
    requires Inv(s) && s.available != [] && s.available[0] in s.free && s.free[s.available[0]] != []
    ensures Inv(TakeFirst(s))
  {
    var t := TakeFirst(s);
    var slab0 := s.available[0];
    assert s.available == [slab0] + s.available[1..];
    assert OnOneList(s, slab0) && FreeListOk(s, slab0);
    var q := s.free[slab0];
    assert forall i :: i in q[1..] ==> i in q;
    forall slab ensures OnOneList(t, slab) { assert OnOneList(s, slab); }
    forall slab | slab in t.free ensures FreeListOk(t, slab) { assert FreeListOk(s, slab); }
  }

  /** Allocate keeps the invariant and turns exactly one free block live. */
  lemma AllocateInv(s: State, address: int)
    requires Inv(s) && (NeedsSlab(s) ==> address !in s.free)
    ensures var (t, r) := Allocate(s, address);
            && Inv(t) && t.blocksPerSlab == s.blocksPerSlab
            && !IsLive(s, r.0, r.1)
            && (forall slab, i {:trigger IsLive(t, slab, i)} ::
                  IsLive(t, slab, i) <==> IsLive(s, slab, i) || (slab, i) == r)
  {
    var (t, r) := Allocate(s, address);
    ReadyInv(s, address);
    var m := Ready(s, address);
    assert m.available[0] in m.available;
    TakeFirstInv(m);
    var q := m.free[r.0];
    assert FreeListOk(m, r.0) && q == [q[0]] + q[1..];
    assert q[0] in q;
    forall slab, i
      ensures IsLive(t, slab, i) <==> IsLive(s, slab, i) || (slab, i) == r
    {
      assert slab != r.0 && slab in s.free ==> t.free[slab] == s.free[slab];
      if NeedsSlab(s) && slab == address && 0 <= i < s.blocksPerSlab {
        assert Upto(s.blocksPerSlab)[i] == i;
      }
    }
  }

  /** Deallocate keeps the invariant and frees exactly that block. */
  lemma DeallocateInv(s: State, slab: int, index: int)
    requires Inv(s) && IsLive(s, slab, index)
    ensures Inv(Deallocate(s, slab, index))
    ensures forall b, i {:trigger IsLive(s, b, i)} ::
              IsLive(Deallocate(s, slab, index), b, i) <==> IsLive(s, b, i) && (b, i) != (slab, index)
  {
    var t := Deallocate(s, slab, index);
    assert OnOneList(s, slab) && FreeListOk(s, slab);
    WithoutFacts(s.full, slab);
    Pigeonhole([index] + s.free[slab], s.blocksPerSlab);
    forall b ensures OnOneList(t, b) { assert OnOneList(s, b); }
    forall b | b in t.free ensures FreeListOk(t, b) { assert FreeListOk(s, b); }
  }

  /** A duplicate-free list of numbers below n has at most n entries. */
  lemma {:induction false} Pigeonhole(q: seq<int>, n: nat)
    requires NoDup(q) && forall i :: i in q ==> 0 <= i < n
    ensures |q| <= n
    decreases n
  {
    if n == 0 {
      if q != [] { FirstIsIn(q); }
    } else {
      WithoutFacts(q, n - 1);
      Pigeonhole(Without(q, n - 1), n - 1);
    }
  }

  lemma FirstIsIn(q: seq<int>)
    requires q != []
    ensures q[0] in q
  {
  }
}
