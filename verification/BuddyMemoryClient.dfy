/**
 What callers of the memory allocator see (src/dawn_native/BuddyMemoryAllocator.{h,cpp}): the ranges
 they hold inside heaps, and the heaps that are destroyed. Everything here is taken from answers.
 */
module BuddyMemoryClient {
  import opened DawnMath
  import opened BuddyModel
  import opened BuddyInvariant
  import BuddyTheorems
  import opened BuddyMemory
  import opened Collections

  // ----- One answer -----

  /** The block offset is the start of the answer's heap in the whole system plus the offset inside it. */
  lemma AnswerLocates(m: Memory, size: nat, alignment: nat, created: Option<nat>)
    requires MemoryInv(m) && alignment >= 1
    ensures var r := BuddyMemory.Allocate(m, size, alignment, created).1;
            r.SubAllocated? ==>
              && MemoryIndex(m, r.blockOffset) * Pow2(m.blockOrder) + r.memoryOffset == r.blockOffset
              && r.memoryOffset + size <= Pow2(m.blockOrder)
  {
    if BuddyMemory.Allocate(m, size, alignment, created).1.SubAllocated? {
      var n := GrantedAs(m, size, alignment, created);
      BlockInsideOneHeap(m, n);
    }
  }

  /** The answer's heap is the one in use for its slot, or else the one just created. */
  lemma AnswerHeap(m: Memory, size: nat, alignment: nat, created: Option<nat>)
    requires MemoryInv(m) && alignment >= 1
    ensures var r := BuddyMemory.Allocate(m, size, alignment, created).1;
            r.SubAllocated? ==>
              var i := MemoryIndex(m, r.blockOffset);
              && i < |m.tracked|
              && Some(r.heap) == if UsersOf(m, i) == {} then created else m.tracked[i].heap
  {
    if BuddyMemory.Allocate(m, size, alignment, created).1.SubAllocated? {
      var n := GrantedAs(m, size, alignment, created);
    }
  }

  /** What a successful call did: block n of the buddy system was handed out. */
  lemma GrantedAs(m: Memory, size: nat, alignment: nat, created: Option<nat>) returns (n: int)
    requires MemoryInv(m) && alignment >= 1 && BuddyMemory.Allocate(m, size, alignment, created).1.SubAllocated?
    ensures var (t, r) := BuddyMemory.Allocate(m, size, alignment, created);
            && Grants(m, t.buddy, n) && r.blockOffset == Offset(m.buddy.order, n)
            && size <= Size(m.buddy.order, n)
            && var i := MemoryIndex(m, r.blockOffset);
               && i < |m.tracked| && t == Used(m, t.buddy, n, i, r.heap)
               && i * Pow2(m.blockOrder) + r.memoryOffset == r.blockOffset
               && r.memoryOffset == r.blockOffset % Pow2(m.blockOrder)
               && Some(r.heap) == if UsersOf(m, i) == {} then created else m.tracked[i].heap
  {
    var (t, r) := BuddyMemory.Allocate(m, size, alignment, created);
    RoundedSizeFits(m, size);
    GrantFacts(m, size, alignment);
    GrantIsTracked(m, size, alignment);
    GrantedIsSmall(m, size, alignment);
    n := BuddyModel.Allocate(m.buddy, NextPowerOfTwo(size), alignment).1.block;
    var i := MemoryIndex(m, r.blockOffset);
    assert SlotOk(m, i);
    Quotient(r.blockOffset, Pow2(m.blockOrder));
  }

  lemma Quotient(x: nat, d: nat)
    requires d >= 1
    ensures x / d * d + x % d == x
  {
    assert x == d * (x / d) + x % d;
  }

  /** A heap is destroyed exactly when its last sub-allocation is given back, and it is that heap. */
  lemma DestroysIff(m: Memory, n: int)
    requires MemoryInv(m) && n in m.returned
    ensures Level(n) <= m.buddy.order
    ensures var i := MemoryIndex(m, Offset(m.buddy.order, n));
            && i < |m.tracked|
            && BuddyMemory.Deallocate(m, n).1 == (if UsersOf(m, i) == {n} then m.tracked[i].heap else None)
            && (UsersOf(m, i) == {n} ==> m.tracked[i].heap.Some?)
  {
    ReturnedIsTracked(m, n);
    var i := MemoryIndex(m, Offset(m.buddy.order, n));
    OneUser(UsersOf(m, i), n);
  }

  lemma OneUser(s: set<int>, n: int)
    requires n in s
    ensures |s| == 1 <==> s == {n}
  {
    assert s == (s - {n}) + {n};
    assert |s| == |s - {n}| + 1;
  }

  // ----- Over runs -----

  /** What a caller holds: a range inside a heap. */
  datatype Range = Range(memoryOffset: nat, size: nat, heap: nat)

  /** The ranges held, by block offset; the heaps of all answers; and the heaps destroyed, in order. */
  datatype Client = Client(held: map<int, Range>, used: set<int>, destroyed: seq<int>)

  ghost function Observed(m: Memory, c: Client, call: Call): Client
    requires MemoryInv(m) && Step(m, call).At?
  {
    match call
    case Request(size, alignment, created) =>
      (match BuddyMemory.Allocate(m, size, alignment, created).1
       case SubAllocated(blockOffset, memoryOffset, heap) =>
         c.(held := c.held[blockOffset := Range(memoryOffset, size, heap)], used := c.used + {heap})
       case _ => c)
    case GiveBack(n) =>
      ReturnedIsTracked(m, n);
      c.(held := c.held - {Offset(m.buddy.order, n)},
         destroyed := c.destroyed + match BuddyMemory.Deallocate(m, n).1 case Some(heap) => [heap] case None => [])
  }

  /** What callers have seen after a run. */
  ghost function Observe(order: nat, blockOrder: nat, calls: seq<Call>): Client
    requires blockOrder <= order && Run(order, blockOrder, calls).At?
  {
    if calls == [] then Client(map[], {}, [])
    else
      var earlier := calls[..|calls| - 1];
      Observed(Run(order, blockOrder, earlier).memory, Observe(order, blockOrder, earlier), calls[|calls| - 1])
  }

  /** The heap allocator never offers a heap that has been in an answer before. */
  ghost predicate NewHeaps(order: nat, blockOrder: nat, calls: seq<Call>)
    requires blockOrder <= order && Run(order, blockOrder, calls).At?
  {
    calls == [] ||
    (var earlier, call := calls[..|calls| - 1], calls[|calls| - 1];
     && NewHeaps(order, blockOrder, earlier)
     && (call.Request? && call.created.Some? ==> call.created.value !in Observe(order, blockOrder, earlier).used))
  }

  // ----- What the client's view has to do with the allocator -----

  ghost predicate Holds(m: Memory, c: Client, n: int) {
    && 1 <= n && Level(n) <= m.buddy.order
    && var o := Offset(m.buddy.order, n);
       var i := MemoryIndex(m, o);
       && o in c.held && i < |m.tracked|
       && i * Pow2(m.blockOrder) + c.held[o].memoryOffset == o
       && c.held[o].size <= Size(m.buddy.order, n)
       && m.tracked[i].heap == Some(c.held[o].heap)
  }

  ghost predicate HasBlock(m: Memory, o: int) {
    exists n :: n in m.returned && Level(n) <= m.buddy.order && Offset(m.buddy.order, n) == o
  }

  /** The heap of slot i, if any, is in use and in no other slot. */
  ghost predicate HeapOk(m: Memory, c: Client, i: int)
    requires 0 <= i < |m.tracked|
  {
    m.tracked[i].heap.Some? ==>
      && m.tracked[i].heap.value in c.used && m.tracked[i].heap.value !in c.destroyed
      && forall j :: 0 <= j < |m.tracked| && m.tracked[j].heap == m.tracked[i].heap ==> j == i
  }

  ghost predicate Backed(m: Memory, heap: int) {
    exists i :: 0 <= i < |m.tracked| && m.tracked[i].heap.Some? && m.tracked[i].heap.value == heap
  }

  ghost predicate HeapsOk(m: Memory, c: Client) {
    && (forall i {:trigger HeapOk(m, c, i)} :: 0 <= i < |m.tracked| ==> HeapOk(m, c, i))
    && NoDup(c.destroyed)
    && (forall h :: h in c.destroyed ==> h in c.used)
    && (forall h {:trigger Backed(m, h)} :: h in c.used && h !in c.destroyed ==> Backed(m, h))
  }

  ghost predicate ClientInv(m: Memory, c: Client) {
    && MemoryInv(m)
    && (forall n {:trigger Holds(m, c, n)} :: n in m.returned ==> Holds(m, c, n))
    && (forall o {:trigger HasBlock(m, o)} :: o in c.held ==> HasBlock(m, o))
    && HeapsOk(m, c)
  }

  // ----- Requests -----

  /** Nothing that callers see changes with the buddy system alone. */
  lemma BuddyAlone(m: Memory, c: Client, t: Memory)
    requires ClientInv(m, c) && MemoryInv(t)
    requires t.buddy.order == m.buddy.order && t.blockOrder == m.blockOrder
    requires t.tracked == m.tracked && t.returned == m.returned
    ensures ClientInv(t, c)
  {
    forall n | n in t.returned
      ensures Holds(t, c, n)
    {
      assert Holds(m, c, n);
    }
    forall o | o in c.held
      ensures HasBlock(t, o)
    {
      assert HasBlock(m, o);
    }
    HeapsSame(m, c, t);
  }

  lemma HeapsSame(m: Memory, c: Client, t: Memory)
    requires HeapsOk(m, c) && t.tracked == m.tracked
    ensures HeapsOk(t, c)
  {
    forall i | 0 <= i < |t.tracked|
      ensures HeapOk(t, c, i)
    {
      assert HeapOk(m, c, i);
    }
    forall h | h in c.used && h !in c.destroyed
      ensures Backed(t, h)
    {
      assert Backed(m, h);
    }
  }

  /** Live blocks start at different offsets. */
  lemma OffsetsDiffer(s: State, a: int, b: int)
    requires Inv(s) && a in Live(s) && b in Live(s) && a != b
    ensures Level(a) <= s.order && Level(b) <= s.order && Offset(s.order, a) != Offset(s.order, b)
  {
    assert NodeOk(s, a) && NodeOk(s, b);
    BuddyTheorems.LeavesApart(s, a, b);
  }

  lemma HandOutHeaps(m: Memory, c: Client, t: Memory, d: Client, i: nat, heap: nat)
    requires HeapsOk(m, c) && i < |m.tracked| && |t.tracked| == |m.tracked|
    requires t.tracked == m.tracked[i := Tracked(m.tracked[i].refcount + 1, Some(heap))]
    requires m.tracked[i].heap == Some(heap) || (m.tracked[i].heap == None && heap !in c.used)
    requires d.used == c.used + {heap} && d.destroyed == c.destroyed
    ensures HeapsOk(t, d)
  {
    forall j | 0 <= j < |t.tracked|
      ensures HeapOk(t, d, j)
    {
      assert HeapOk(m, c, j) && HeapOk(m, c, i);
      forall k | 0 <= k < |t.tracked| && t.tracked[k].heap == t.tracked[j].heap && t.tracked[j].heap.Some?
        ensures k == j
      {
        assert HeapOk(m, c, k);
      }
    }
    forall h | h in d.used && h !in d.destroyed
      ensures Backed(t, h)
    {
      if h == heap {
        assert t.tracked[i].heap == Some(heap);
      } else {
        assert Backed(m, h);
        var j :| 0 <= j < |m.tracked| && m.tracked[j].heap.Some? && m.tracked[j].heap.value == h;
        assert j != i && t.tracked[j] == m.tracked[j];
      }
    }
  }

  lemma HandOutHolds(m: Memory, c: Client, t: Memory, d: Client, n: int, i: nat, r: Range, k: int)
    requires ClientInv(m, c) && Grants(m, t.buddy, n) && i < |m.tracked| && t == Used(m, t.buddy, n, i, r.heap)
    requires i == MemoryIndex(m, Offset(m.buddy.order, n)) && r.size <= Size(m.buddy.order, n)
    requires i * Pow2(m.blockOrder) + r.memoryOffset == Offset(m.buddy.order, n)
    requires m.tracked[i].heap == Some(r.heap) || m.tracked[i].heap == None
    requires d.held == c.held[Offset(m.buddy.order, n) := r] && k in t.returned
    ensures Holds(t, d, k)
  {
    if k != n {
      assert Holds(m, c, k);
      assert k in Live(m.buddy);
      OffsetsDiffer(t.buddy, k, n);
    }
  }

  lemma HandOutBlocks(m: Memory, c: Client, t: Memory, d: Client, n: int, r: Range)
    requires ClientInv(m, c) && Level(n) <= m.buddy.order && t.buddy.order == m.buddy.order
    requires t.returned == m.returned + {n} && d.held == c.held[Offset(m.buddy.order, n) := r]
    ensures forall o {:trigger HasBlock(t, o)} :: o in d.held ==> HasBlock(t, o)
  {
    forall o | o in d.held
      ensures HasBlock(t, o)
    {
      if o == Offset(m.buddy.order, n) {
        assert n in t.returned;
      } else {
        assert HasBlock(m, o);
      }
    }
  }

  lemma HandOutInv(m: Memory, c: Client, t: Memory, d: Client, n: int, i: nat, r: Range)
    requires ClientInv(m, c) && MemoryInv(t) && Grants(m, t.buddy, n)
    requires i < |m.tracked| && t == Used(m, t.buddy, n, i, r.heap)
    requires i == MemoryIndex(m, Offset(m.buddy.order, n)) && r.size <= Size(m.buddy.order, n)
    requires i * Pow2(m.blockOrder) + r.memoryOffset == Offset(m.buddy.order, n)
    requires m.tracked[i].heap == Some(r.heap) || (m.tracked[i].heap == None && r.heap !in c.used)
    requires d == Client(c.held[Offset(m.buddy.order, n) := r], c.used + {r.heap}, c.destroyed)
    ensures ClientInv(t, d)
  {
    HandOutHeaps(m, c, t, d, i, r.heap);
    forall k | k in t.returned
      ensures Holds(t, d, k)
    {
      HandOutHolds(m, c, t, d, n, i, r, k);
    }
    HandOutBlocks(m, c, t, d, n, r);
  }

  lemma HandOut(m: Memory, c: Client, size: nat, alignment: nat, created: Option<nat>)
    requires ClientInv(m, c) && alignment >= 1 && (created.Some? ==> created.value !in c.used)
    requires BuddyMemory.Allocate(m, size, alignment, created).1.SubAllocated?
    ensures ClientInv(BuddyMemory.Allocate(m, size, alignment, created).0,
                      Observed(m, c, Request(size, alignment, created)))
  {
    var (t, r) := BuddyMemory.Allocate(m, size, alignment, created);
    AllocateKeepsInv(m, size, alignment, created);
    var n := GrantedAs(m, size, alignment, created);
    var i := MemoryIndex(m, r.blockOffset);
    SlotInUse(m, i);
    HandOutInv(m, c, t, Observed(m, c, Request(size, alignment, created)), n, i,
               Range(r.memoryOffset, size, r.heap));
  }

  lemma SlotInUse(m: Memory, i: nat)
    requires MemoryInv(m) && i < |m.tracked|
    ensures m.tracked[i].heap.Some? <==> UsersOf(m, i) != {}
  {
    assert SlotOk(m, i);
  }

  // ----- Giving back -----

  lemma TakeBackHeaps(m: Memory, c: Client, t: Memory, d: Client, i: nat, last: bool)
    requires HeapsOk(m, c) && i < |m.tracked| && m.tracked[i].heap.Some? && m.tracked[i].refcount >= 1
    requires t.tracked == m.tracked[i := Tracked(m.tracked[i].refcount - 1, if last then None else m.tracked[i].heap)]
    requires d.used == c.used
    requires d.destroyed == c.destroyed + if last then [m.tracked[i].heap.value] else []
    ensures HeapsOk(t, d)
  {
    assert HeapOk(m, c, i);
    forall j | 0 <= j < |t.tracked|
      ensures HeapOk(t, d, j)
    {
      assert HeapOk(m, c, j);
      forall k | 0 <= k < |t.tracked| && t.tracked[k].heap == t.tracked[j].heap && t.tracked[j].heap.Some?
        ensures k == j
      {
        assert m.tracked[k].heap == m.tracked[j].heap;
      }
    }
    forall h | h in d.used && h !in d.destroyed
      ensures Backed(t, h)
    {
      assert h !in c.destroyed && Backed(m, h);
      var j :| 0 <= j < |m.tracked| && m.tracked[j].heap.Some? && m.tracked[j].heap.value == h;
      assert t.tracked[j].heap == m.tracked[j].heap;
    }
  }

  /** The other users of a slot keep it from being cleared. */
  lemma OthersHold(m: Memory, c: Client, t: Memory, d: Client, n: int, k: int)
    requires ClientInv(m, c) && n in m.returned && k in m.returned && k != n
    requires t == BuddyMemory.Deallocate(m, n).0 && t.buddy.order == m.buddy.order
    requires Level(n) <= m.buddy.order && d.held == c.held - {Offset(m.buddy.order, n)}
    ensures Holds(t, d, k)
  {
    assert Holds(m, c, k) && Holds(m, c, n);
    ReturnedIsTracked(m, k);
    ReturnedIsTracked(m, n);
    OffsetsDiffer(m.buddy, k, n);
    DestroysIff(m, n);
    var i := MemoryIndex(m, Offset(m.buddy.order, n));
    if i == MemoryIndex(m, Offset(m.buddy.order, k)) {
      assert k in UsersOf(m, i);
      OneUser(UsersOf(m, i), n);
    }
  }

  lemma TakeBack(m: Memory, c: Client, n: int)
    requires ClientInv(m, c) && n in m.returned
    ensures ClientInv(BuddyMemory.Deallocate(m, n).0, Observed(m, c, GiveBack(n)))
  {
    var t, d := BuddyMemory.Deallocate(m, n).0, Observed(m, c, GiveBack(n));
    DeallocateKeepsInv(m, n);
    DeallocateKeepsOrder(m, n);
    ReturnedIsTracked(m, n);
    DestroysIff(m, n);
    var i := MemoryIndex(m, Offset(m.buddy.order, n));
    OneUser(UsersOf(m, i), n);
    TakeBackHeaps(m, c, t, d, i, UsersOf(m, i) == {n});
    forall k | k in t.returned
      ensures Holds(t, d, k)
    {
      OthersHold(m, c, t, d, n, k);
    }
    forall o | o in d.held
      ensures HasBlock(t, o)
    {
      assert HasBlock(m, o);
    }
  }

  // ----- All runs -----

  lemma ObservedInv(m: Memory, c: Client, call: Call)
    requires ClientInv(m, c) && Step(m, call).At?
    requires call.Request? && call.created.Some? ==> call.created.value !in c.used
    ensures ClientInv(Step(m, call).memory, Observed(m, c, call))
  {
    match call
    case Request(size, alignment, created) =>
      var (t, r) := BuddyMemory.Allocate(m, size, alignment, created);
      if r.SubAllocated? {
        HandOut(m, c, size, alignment, created);
      } else if r == HeapCreationFailed {
        var n := FailedCall(m, size, alignment, created);
        AllocateKeepsInv(m, size, alignment, created);
        BuddyAlone(m, c, t);
      }
    case GiveBack(n) => TakeBack(m, c, n);
  }

  lemma {:induction false} ObserveInv(order: nat, blockOrder: nat, calls: seq<Call>)
    requires blockOrder <= order && Run(order, blockOrder, calls).At? && NewHeaps(order, blockOrder, calls)
    ensures ClientInv(Run(order, blockOrder, calls).memory, Observe(order, blockOrder, calls))
  {
    if calls == [] {
      InitiallyInv(order, blockOrder);
    } else {
      var earlier := calls[..|calls| - 1];
      ObserveInv(order, blockOrder, earlier);
      ObservedInv(Run(order, blockOrder, earlier).memory, Observe(order, blockOrder, earlier), calls[|calls| - 1]);
    }
  }

  /** Over every run: two ranges held in the same heap do not overlap, and every range lies inside its heap. */
  lemma {:induction false} RangesApart(order: nat, blockOrder: nat, calls: seq<Call>, a: int, b: int)
    requires blockOrder <= order && Run(order, blockOrder, calls).At? && NewHeaps(order, blockOrder, calls)
    requires var held := Observe(order, blockOrder, calls).held;
             a in held && b in held && a != b && held[a].heap == held[b].heap
    ensures var held := Observe(order, blockOrder, calls).held;
            || held[a].memoryOffset + held[a].size <= held[b].memoryOffset
            || held[b].memoryOffset + held[b].size <= held[a].memoryOffset
    ensures var held := Observe(order, blockOrder, calls).held;
            held[a].memoryOffset + held[a].size <= Pow2(blockOrder)
  {
    ObserveInv(order, blockOrder, calls);
    HeldApart(Run(order, blockOrder, calls).memory, Observe(order, blockOrder, calls), a, b);
  }

  lemma BlockOf(m: Memory, c: Client, o: int) returns (n: int)
    requires ClientInv(m, c) && o in c.held
    ensures n in m.returned && Holds(m, c, n) && Offset(m.buddy.order, n) == o
    ensures c.held[o].memoryOffset == o % Pow2(m.blockOrder)
    ensures c.held[o].memoryOffset + c.held[o].size <= Pow2(m.blockOrder)
  {
    assert HasBlock(m, o);
    n :| n in m.returned && Level(n) <= m.buddy.order && Offset(m.buddy.order, n) == o;
    assert Holds(m, c, n);
    Quotient(o, Pow2(m.blockOrder));
    ReturnedIsTracked(m, n);
    BlockInsideOneHeap(m, n);
  }

  lemma HeldApart(m: Memory, c: Client, a: int, b: int)
    requires ClientInv(m, c) && a in c.held && b in c.held && a != b && c.held[a].heap == c.held[b].heap
    ensures || c.held[a].memoryOffset + c.held[a].size <= c.held[b].memoryOffset
            || c.held[b].memoryOffset + c.held[b].size <= c.held[a].memoryOffset
    ensures c.held[a].memoryOffset + c.held[a].size <= Pow2(m.blockOrder)
  {
    var x := BlockOf(m, c, a);
    var y := BlockOf(m, c, b);
    var i, j := MemoryIndex(m, a), MemoryIndex(m, b);
    assert HeapOk(m, c, i);
    assert j == i;
    ReturnedIsTracked(m, x);
    ReturnedIsTracked(m, y);
    UsersApart(m, i, x, y);
  }

  /**
   Over every run: no heap is destroyed twice, and the heaps destroyed are exactly those of answers
   whose ranges have all been given back.
   */
  lemma {:induction false} HeapsDestroyedIff(order: nat, blockOrder: nat, calls: seq<Call>, heap: int)
    requires blockOrder <= order && Run(order, blockOrder, calls).At? && NewHeaps(order, blockOrder, calls)
    ensures var c := Observe(order, blockOrder, calls);
            && NoDup(c.destroyed)
            && (heap in c.destroyed <==>
                  heap in c.used && forall o :: o in c.held ==> c.held[o].heap != heap)
  {
    ObserveInv(order, blockOrder, calls);
    DestroyedWhenUnused(Run(order, blockOrder, calls).memory, Observe(order, blockOrder, calls), heap);
  }

  lemma DestroyedWhenUnused(m: Memory, c: Client, heap: int)
    requires ClientInv(m, c)
    ensures heap in c.destroyed <==> heap in c.used && forall o :: o in c.held ==> c.held[o].heap != heap
  {
    if heap in c.destroyed {
      forall o | o in c.held
        ensures c.held[o].heap != heap
      {
        var n := BlockOf(m, c, o);
        assert HeapOk(m, c, MemoryIndex(m, o));
      }
    } else if heap in c.used {
      assert Backed(m, heap);
      var i :| 0 <= i < |m.tracked| && m.tracked[i].heap.Some? && m.tracked[i].heap.value == heap;
      SlotInUse(m, i);
      var n :| n in UsersOf(m, i);
      assert Holds(m, c, n);
    }
  }
}
