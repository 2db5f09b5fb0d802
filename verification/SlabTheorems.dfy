/** How many slabs a run of the slab allocator creates. */
module SlabTheorems {
  import opened DawnMath
  import opened SlabModel
  import opened Collections

  /** The number of blocks in use in the slabs of a list. */
  function InUse(s: State, q: seq<int>): int
    requires forall slab :: slab in q ==> slab in s.free
  {
    if q == [] then 0
    else
      var slab := q[0];
      assert slab in q;
      s.blocksPerSlab - |s.free[slab]| + InUse(s, q[1..])
  }

  lemma ListsKnown(s: State)
    requires Inv(s)
    ensures forall slab :: slab in s.available ==> slab in s.free
    ensures forall slab :: slab in s.full ==> slab in s.free
    ensures forall slab :: slab in s.recycled ==> slab in s.free
  {
    forall slab
      ensures slab in s.available || slab in s.full || slab in s.recycled ==> slab in s.free
    {
      assert OnOneList(s, slab);
    }
  }

  ghost function LiveCount(s: State): int
    requires Inv(s)
  {
    ListsKnown(s);
    InUse(s, s.available) + InUse(s, s.full) + InUse(s, s.recycled)
  }

  function SlabCount(s: State): nat {
    |s.available| + |s.full| + |s.recycled|
  }

  lemma {:induction false} InUseFrame(s: State, t: State, q: seq<int>)
    requires s.blocksPerSlab == t.blocksPerSlab
    requires forall slab :: slab in q ==> slab in s.free && slab in t.free && t.free[slab] == s.free[slab]
    ensures InUse(t, q) == InUse(s, q)
  {
    if q != [] {
      var slab := q[0];
      assert slab in q;
      InUseFrame(s, t, q[1..]);
    }
  }

  lemma {:induction false} InUseWithout(s: State, q: seq<int>, x: int)
    requires NoDup(q) && x in q && forall slab :: slab in q ==> slab in s.free
    ensures forall slab :: slab in Without(q, x) ==> slab in s.free
    ensures InUse(s, q) == InUse(s, Without(q, x)) + (s.blocksPerSlab - |s.free[x]|)
  {
    WithoutFacts(q, x);
    if q[0] != x {
      assert x in q[1..];
      InUseWithout(s, q[1..], x);
      assert Without(q, x)[1..] == Without(q[1..], x);
    }
  }

  lemma {:induction false} InUseBounds(s: State, q: seq<int>)
    requires Inv(s) && forall slab :: slab in q ==> slab in s.free
    ensures 0 <= InUse(s, q) <= s.blocksPerSlab * |q|
    ensures (forall slab :: slab in q ==> s.free[slab] == []) ==> InUse(s, q) == s.blocksPerSlab * |q|
  {
    if q != [] {
      assert q[0] in q;
      InUseBounds(s, q[1..]);
      assert FreeListOk(s, q[0]);
      assert s.blocksPerSlab * |q| == s.blocksPerSlab * |q[1..]| + s.blocksPerSlab;
    }
  }

  lemma TakeFirstCounts(s: State)
    requires Inv(s) && s.available != [] && s.available[0] in s.free && s.free[s.available[0]] != []
    ensures Inv(TakeFirst(s)) && LiveCount(TakeFirst(s)) == LiveCount(s) + 1
    ensures SlabCount(TakeFirst(s)) == SlabCount(s)
  {
    TakeFirstInv(s);
    ListsKnown(s);
    var t := TakeFirst(s);
    ListsKnown(t);
    var slab := s.available[0];
    assert OnOneList(s, slab);
    assert slab !in s.available[1..];
    InUseFrame(s, t, s.available[1..]);
    InUseFrame(s, t, s.full);
    InUseFrame(s, t, s.recycled);
    if t.free[slab] == [] {
      assert t.full[1..] == s.full;
    }
  }

  /** With no available and no recycled slab every slab is full. */
  lemma AllFull(s: State)
    requires Inv(s) && NeedsSlab(s)
    ensures LiveCount(s) == s.blocksPerSlab * SlabCount(s)
  {
    ListsKnown(s);
    forall slab | slab in s.full ensures s.free[slab] == [] { assert OnOneList(s, slab); }
    InUseBounds(s, s.full);
  }

  lemma LiveCountBounds(s: State)
    requires Inv(s)
    ensures 0 <= LiveCount(s) <= s.blocksPerSlab * SlabCount(s)
  {
    ListsKnown(s);
    InUseBounds(s, s.available);
    InUseBounds(s, s.full);
    InUseBounds(s, s.recycled);
    Distribute(s.blocksPerSlab, |s.available|, |s.full|, |s.recycled|);
  }

  lemma Distribute(n: int, a: int, b: int, c: int)
    ensures n * (a + b + c) == n * a + n * b + n * c
  {
  }

  lemma ReadyCounts(s: State, address: int)
    requires Inv(s) && (NeedsSlab(s) ==> address !in s.free)
    ensures Inv(Ready(s, address)) && LiveCount(Ready(s, address)) == LiveCount(s)
    ensures SlabCount(Ready(s, address)) == SlabCount(s) + if NeedsSlab(s) then 1 else 0
  {
    ReadyInv(s, address);
    var r := Ready(s, address);
    ListsKnown(s);
    ListsKnown(r);
    if NeedsSlab(s) {
      assert OnOneList(s, address);
      InUseFrame(s, r, s.full);
      assert InUse(r, [address]) == 0;
    } else if s.available == [] {
      InUseFrame(s, r, s.full);
      InUseFrame(s, r, s.recycled);
    }
  }

  /** Allocate adds one live block, and a slab exactly when all slabs were full. */
  lemma AllocateCounts(s: State, address: int)
    requires Inv(s) && (NeedsSlab(s) ==> address !in s.free)
    ensures var t := Allocate(s, address).0;
            && Inv(t) && LiveCount(t) == LiveCount(s) + 1
            && SlabCount(t) == SlabCount(s) + if NeedsSlab(s) then 1 else 0
  {
    ReadyCounts(s, address);
    ReadyInv(s, address);
    var r := Ready(s, address);
    var slab := r.available[0];
    assert slab in r.available;
    assert slab in r.free && r.free[slab] != [];
    TakeFirstCounts(r);
  }

  lemma DeallocateCounts(s: State, slab: int, index: int)
    requires Inv(s) && IsLive(s, slab, index)
    ensures var t := Deallocate(s, slab, index);
            Inv(t) && LiveCount(t) == LiveCount(s) - 1 && SlabCount(t) == SlabCount(s)
  {
    DeallocateInv(s, slab, index);
    var t := Deallocate(s, slab, index);
    ListsKnown(s);
    ListsKnown(t);
    assert OnOneList(s, slab);
    WithoutFacts(s.full, slab);
    if s.free[slab] == [] {
      InUseFrame(s, t, s.available);
      InUseFrame(s, t, s.recycled);
      InUseWithout(s, s.full, slab);
      InUseFrame(s, t, t.full);
      assert t.recycled[1..] == s.recycled;
    } else {
      InUseFrame(s, t, s.full);
      if slab in s.available {
        InUseFrame(s, t, s.recycled);
        InUsePushed(s, t, s.available, slab);
      } else {
        InUseFrame(s, t, s.available);
        InUsePushed(s, t, s.recycled, slab);
      }
    }
  }

  lemma InUsePushed(s: State, t: State, q: seq<int>, slab: int)
    requires s.blocksPerSlab == t.blocksPerSlab && NoDup(q) && slab in q
    requires forall b :: b in q ==> b in s.free && b in t.free
    requires forall b :: b in q && b != slab ==> t.free[b] == s.free[b]
    requires |t.free[slab]| == |s.free[slab]| + 1
    ensures InUse(t, q) == InUse(s, q) - 1
  {
    InUseWithout(s, q, slab);
    InUseWithout(t, q, slab);
    WithoutFacts(q, slab);
    InUseFrame(s, t, Without(q, slab));
  }

  // ----- Runs -----

  datatype Op = Alloc(address: int) | Dealloc(slab: int, index: int)

  /** A reached state, with the largest number of live blocks seen so far. */
  datatype Outcome = Illegal | Reached(state: State, peak: int)

  ghost predicate PeakOk(s: State, peak: int)
    requires Inv(s)
  {
    && LiveCount(s) <= peak <= s.blocksPerSlab * SlabCount(s)
    && (SlabCount(s) > 0 ==> s.blocksPerSlab * (SlabCount(s) - 1) < peak)
  }

  lemma AllocatePeak(s: State, peak: int, address: int)
    requires Inv(s) && (NeedsSlab(s) ==> address !in s.free) && PeakOk(s, peak)
    ensures var t := Allocate(s, address).0;
            Inv(t) && PeakOk(t, if LiveCount(t) > peak then LiveCount(t) else peak)
  {
    AllocateCounts(s, address);
    var t := Allocate(s, address).0;
    LiveCountBounds(t);
    if NeedsSlab(s) {
      AllFull(s);
      assert s.blocksPerSlab * (SlabCount(s) + 1) == s.blocksPerSlab * SlabCount(s) + s.blocksPerSlab;
    }
  }

  ghost function Run(blocksPerSlab: int, ops: seq<Op>): (r: Outcome)
    requires blocksPerSlab >= 1
    ensures r.Reached? ==> Inv(r.state) && r.state.blocksPerSlab == blocksPerSlab && PeakOk(r.state, r.peak)
  {
    if ops == [] then InitiallyInv(blocksPerSlab); Reached(Initially(blocksPerSlab), 0)
    else
      match Run(blocksPerSlab, ops[..|ops| - 1])
      case Illegal => Illegal
      case Reached(s, peak) =>
        match ops[|ops| - 1]
        case Alloc(address) =>
          if NeedsSlab(s) && address in s.free then Illegal
          else
            AllocatePeak(s, peak, address);
            AllocateInv(s, address);
            var t := Allocate(s, address).0;
            Reached(t, if LiveCount(t) > peak then LiveCount(t) else peak)
        case Dealloc(slab, index) =>
          if !IsLive(s, slab, index) then Illegal
          else
            DeallocateCounts(s, slab, index);
            Reached(Deallocate(s, slab, index), peak)
  }

  /** The number of slabs is the peak number of live blocks divided by the slab size, rounded up. */
  lemma SlabsMatchPeak(blocksPerSlab: int, ops: seq<Op>)
    requires blocksPerSlab >= 1 && Run(blocksPerSlab, ops).Reached?
    ensures var r := Run(blocksPerSlab, ops);
            SlabCount(r.state) == (r.peak + blocksPerSlab - 1) / blocksPerSlab
  {
    var r := Run(blocksPerSlab, ops);
    LiveCountBounds(r.state);
    RoundUpUnique(r.peak, blocksPerSlab, SlabCount(r.state));
  }

  lemma RoundUpUnique(x: int, n: int, c: int)
    requires n >= 1 && c >= 0 && 0 <= x <= n * c && (c > 0 ==> n * (c - 1) < x)
    ensures c == (x + n - 1) / n
  {
    assert n * (c - 1) == n * c - n;
    DivUnique(x + n - 1, n, c, x + n - 1 - n * c);
  }

  // ----- Which block is taken -----

  /** Allocation goes on in the slab it is in until that is full. */
  lemma ActiveSlabStays(s: State, address: int, next: int)
    requires Inv(s) && (NeedsSlab(s) ==> address !in s.free)
    ensures var (t, r) := Allocate(s, address);
            && Inv(t) && r.0 in t.free
            && (t.free[r.0] != [] ==> !NeedsSlab(t) && Allocate(t, next).1.0 == r.0)
            && (t.free[r.0] == [] ==> r.0 in t.full)
  {
    AllocateInv(s, address);
    AllocateIs(s, address);
    var (t, r) := Allocate(s, address);
    if t.free[r.0] != [] { AllocateIs(t, next); } else { assert OnOneList(t, r.0); }
  }

  /** A block given back to that slab is the next one taken, and everything is as before. */
  lemma FreedBlockComesFirst(s: State, slab: int, index: int, address: int)
    requires Inv(s) && IsLive(s, slab, index) && s.available != [] && s.available[0] == slab
    ensures var t := Deallocate(s, slab, index);
            Inv(t) && !NeedsSlab(t) && Allocate(t, address) == (s, (slab, index))
  {
    DeallocateInv(s, slab, index);
    assert slab in s.available;
    assert OnOneList(s, slab);
    var t := Deallocate(s, slab, index);
    AllocateIs(t, address);
    assert t.free[slab][1..] == s.free[slab];
    assert t.free[slab := s.free[slab]] == s.free;
  }

  /** Giving back blocks of other slabs does not change where allocation goes on. */
  lemma NoThrashing(s: State, slab: int, index: int, address: int, next: int)
    requires Inv(s) && IsLive(s, slab, index) && s.available != [] && s.available[0] != slab
    ensures var t := Deallocate(s, slab, index);
            Inv(t) && !NeedsSlab(t) && Allocate(t, next).1 == Allocate(s, address).1
  {
    DeallocateInv(s, slab, index);
    AllocateIs(Deallocate(s, slab, index), next);
    AllocateIs(s, address);
  }

  /** Without an available slab all recycled ones become available at once, the last recycled one first. */
  lemma RecycledAreSwappedIn(s: State, address: int)
    requires Inv(s) && s.available == []
    ensures s.recycled != [] ==>
              var (t, r) := Allocate(s, address);
              && r.0 == s.recycled[0] && t.recycled == [] && t.free.Keys == s.free.Keys
              && (forall slab :: slab in s.recycled && slab != r.0 ==> slab in t.available)
    ensures s.recycled == [] && address !in s.free ==> Allocate(s, address).1 == (address, 0)
  {
    if s.recycled != [] || address !in s.free { AllocateIs(s, address); }
  }
}
