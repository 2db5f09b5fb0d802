/** What the buddy allocator promises, over every state its operations can reach. */
module BuddyTheorems {
  import opened DawnMath
  import opened BuddyModel
  import opened BuddyInvariant
  import opened Collections

  // ----- Tiling -----

  /** Two different leaves have disjoint byte ranges. */
  lemma LeavesApart(s: State, m: int, n: int)
    requires Shape(s) && m in s.blocks && n in s.blocks && m != n
    requires s.blocks[m] != Split && s.blocks[n] != Split
    ensures NodeOk(s, m) && NodeOk(s, n) && Apart(s.order, m, n)
  {
    assert NodeOk(s, m) && NodeOk(s, n);
    var a, b := if Level(m) <= Level(n) then m else n, if Level(m) <= Level(n) then n else m;
    NestedOrApart(s.order, a, b);
    if IsAncestor(a, b) { NothingBelowLeaf(s, a, b); }
  }

  /** The search of Deallocate finds the one leaf that holds a byte. */
  lemma DescendFindsLeaf(s: State, n: int, x: nat)
    requires Shape(s) && n in s.blocks && s.blocks[n] != Split
    ensures NodeOk(s, n) && (Contains(s.order, n, x) ==> Descend(s, 1, x) == n)
  {
    assert NodeOk(s, n);
    var r := Descend(s, 1, x);
    if Contains(s.order, n, x) {
      OffsetAligned(s.order, n);
      assert Contains(s.order, r, x);
      if r != n { LeavesApart(s, r, n); }
    }
  }

  /** The leaves tile [0, max): each byte lies in exactly one of them, and each leaf lies inside. */
  lemma LeavesTile(s: State, x: nat)
    requires Shape(s)
    ensures x < Pow2(s.order) <==>
            exists n | n in s.blocks && s.blocks[n] != Split :: NodeOk(s, n) && Contains(s.order, n, x)
    ensures forall m, n | m in s.blocks && n in s.blocks && s.blocks[m] != Split && s.blocks[n] != Split ::
              NodeOk(s, m) && NodeOk(s, n) && Contains(s.order, m, x) && Contains(s.order, n, x) ==> m == n
  {
    if x < Pow2(s.order) {
      assert Contains(s.order, 1, x);
      var r := Descend(s, 1, x);
      assert NodeOk(s, r) && Contains(s.order, r, x);
    }
    forall n | n in s.blocks && s.blocks[n] != Split && NodeOk(s, n) && Contains(s.order, n, x)
      ensures x < Pow2(s.order) && n == Descend(s, 1, x)
    {
      OffsetAligned(s.order, n);
      DescendFindsLeaf(s, n, x);
    }
  }

  // ----- Allocate -----

  /** A granted block is aligned, inside [0, max) and apart from every live block. */
  lemma GrantedBlock(s: State, size: nat, alignment: nat)
    requires Inv(s) && alignment >= 1
    ensures var (t, r) := Allocate(s, size, alignment);
            r.Granted? ==>
              && Level(r.block) <= s.order
              && Offset(s.order, r.block) % alignment == 0
              && Offset(s.order, r.block) + Size(s.order, r.block) <= Pow2(s.order)
              && (forall n | n in Live(s) :: NodeOk(s, n) && Apart(s.order, n, r.block))
  {
    var (t, r) := Allocate(s, size, alignment);
    if r.Granted? {
      AllocateInv(s, size, alignment);
      HeadsOk(s);
      var level := LevelFor(s.order, size);
      var from := NextFreeLevel(s, level, alignment);
      LeftmostFacts(s.order, s.free[from][0], level);
      OffsetAligned(s.order, r.block);
      assert r.block in Live(t);
      forall n | n in Live(s)
        ensures NodeOk(s, n) && Apart(s.order, n, r.block)
      {
        assert NodeOk(s, n);
        assert n in Live(t);
        LeavesApart(t, n, r.block);
      }
    }
  }

  /** The granted block holds the request exactly when the requested size is a power of two. */
  lemma GrantedSize(s: State, size: nat, alignment: nat)
    requires Inv(s) && alignment >= 1
    ensures var (t, r) := Allocate(s, size, alignment);
            r.Granted? ==>
              && size >= 1 && Level(r.block) <= s.order
              && Size(s.order, r.block) == Pow2(Log2(size))
              && (size <= Size(s.order, r.block) <==> IsPowerOfTwo(size))
  {
    var (t, r) := Allocate(s, size, alignment);
    if r.Granted? {
      HeadsOk(s);
      var level := LevelFor(s.order, size);
      var from := NextFreeLevel(s, level, alignment);
      LeftmostFacts(s.order, s.free[from][0], level);
      BitAndZeroPowerOfTwo(size);
    }
  }

  ghost predicate IsFreeAtLevel(s: State, n: int, level: nat) {
    n in s.blocks && s.blocks[n] == Free && Level(n) == level
  }

  /** A list is empty exactly when its level has no free block. */
  lemma ListNonEmpty(s: State, level: nat)
    requires Shape(s) && Listed(s, 0) && level <= s.order
    ensures s.free[level] != [] <==> exists n :: IsFreeAtLevel(s, n, level)
  {
    assert ListOk(s, 0, level);
    if s.free[level] != [] {
      assert s.free[level][0] in s.free[level];
      assert IsFreeAtLevel(s, s.free[level][0], level);
    }
    if n :| IsFreeAtLevel(s, n, level) {
      assert NodeOk(s, n);
      assert n in s.free[level];
    }
  }

  /** Blocks at least as large as a power-of-two alignment are aligned. */
  lemma LargeBlocksAligned(order: nat, n: int, alignment: nat)
    requires alignment >= 1 && IsPowerOfTwo(alignment) && Level(n) <= order
    requires alignment <= Size(order, n)
    ensures Offset(order, n) % alignment == 0
  {
    BitAndZeroPowerOfTwo(alignment);
    if Log2(alignment) > order - Level(n) { Pow2Monotone(order - Level(n), Log2(alignment)); }
    OffsetAligned(order, n);
    Pow2Divides(Log2(alignment), order - Level(n));
    ModTransitive(Offset(order, n), Size(order, n), alignment);
  }

  ghost predicate HeadAligned(s: State, level: nat, alignment: nat)
    requires level < |s.free| && alignment >= 1
  {
    && s.free[level] != []
    && Level(s.free[level][0]) <= s.order
    && Offset(s.order, s.free[level][0]) % alignment == 0
  }

  lemma GrantedIffHeadAligned(s: State, size: nat, alignment: nat)
    requires Inv(s) && alignment >= 1 && 1 <= size <= Pow2(s.order)
    ensures Allocate(s, size, alignment).1.Granted? <==>
            exists l: nat :: l <= LevelFor(s.order, size) && HeadAligned(s, l, alignment)
  {
    HeadsOk(s);
    var from := NextFreeLevel(s, LevelFor(s.order, size), alignment);
    if from >= 0 { assert HeadAligned(s, from, alignment); }
  }

  /** The list of level `from` serves a request: it starts aligned, and no deeper list does. */
  ghost predicate DeepestAligned(s: State, from: nat, level: nat, alignment: nat)
    requires level < |s.free| && alignment >= 1
  {
    && from <= level && HeadAligned(s, from, alignment)
    && forall l: nat :: from < l <= level ==> !HeadAligned(s, l, alignment)
  }

  /**
   The granted block has the requested level and lies at the start of the first block of the deepest
   list, at or above that level, that starts aligned.
   */
  lemma ServedByDeepest(s: State, size: nat, alignment: nat, from: nat)
    requires Inv(s) && alignment >= 1 && 1 <= size <= Pow2(s.order)
    requires DeepestAligned(s, from, LevelFor(s.order, size), alignment)
    ensures var r := Allocate(s, size, alignment).1;
            && r.Granted? && s.free[from][0] >= 1
            && Level(r.block) == LevelFor(s.order, size) && IsAncestor(s.free[from][0], r.block)
            && Offset(s.order, r.block) == Offset(s.order, s.free[from][0])
  {
    HeadsOk(s);
    var level := LevelFor(s.order, size);
    var found := NextFreeLevel(s, level, alignment);
    assert found >= from;
    assert HeadAligned(s, found, alignment);
    LeftmostFacts(s.order, s.free[from][0], level);
  }

  /** A level can serve a request: by any free block if blocks there are as large as the alignment. */
  ghost predicate Serves(s: State, level: nat, alignment: nat)
    requires level < |s.free| == s.order + 1 && alignment >= 1
  {
    if alignment <= Pow2(s.order - level) then exists n :: IsFreeAtLevel(s, n, level)
    else HeadAligned(s, level, alignment)
  }

  lemma ServesIffHeadAligned(s: State, level: nat, alignment: nat)
    requires Inv(s) && alignment >= 1 && IsPowerOfTwo(alignment) && level <= s.order
    ensures Serves(s, level, alignment) <==> HeadAligned(s, level, alignment)
  {
    HeadsOk(s);
    ListNonEmpty(s, level);
    if alignment <= Pow2(s.order - level) && s.free[level] != [] {
      LargeBlocksAligned(s.order, s.free[level][0], alignment);
    }
  }

  /**
   For any power-of-two alignment: a request is granted exactly when some free block is at least
   as large as both the size and the alignment, or some list of smaller blocks starts aligned.
   */
  lemma GrantedIff(s: State, size: nat, alignment: nat)
    requires Inv(s) && alignment >= 1 && IsPowerOfTwo(alignment) && 1 <= size <= Pow2(s.order)
    ensures Allocate(s, size, alignment).1.Granted? <==>
            exists l: nat :: l <= LevelFor(s.order, size) && Serves(s, l, alignment)
  {
    GrantedIffHeadAligned(s, size, alignment);
    forall l: nat | l <= LevelFor(s.order, size)
      ensures Serves(s, l, alignment) <==> HeadAligned(s, l, alignment)
    {
      ServesIffHeadAligned(s, l, alignment);
    }
  }

  lemma SmallAlignmentFits(order: nat, size: nat, alignment: nat, level: nat)
    requires alignment >= 1 && IsPowerOfTwo(alignment) && alignment <= size <= Pow2(order)
    requires level <= LevelFor(order, size)
    ensures alignment <= Pow2(order - level)
  {
    BitAndZeroPowerOfTwo(alignment);
    if Log2(alignment) > Log2(size) { Pow2Monotone(Log2(size) + 1, Log2(alignment)); }
    Pow2Monotone(Log2(alignment), order - level);
  }

  ghost predicate SomethingFits(s: State, level: nat) {
    exists n, l: nat :: IsFreeAtLevel(s, n, l) && l <= level
  }

  lemma ServesIffFits(s: State, size: nat, alignment: nat)
    requires Inv(s) && alignment >= 1 && IsPowerOfTwo(alignment)
    requires 1 <= size <= Pow2(s.order) && alignment <= size
    ensures (exists l: nat :: l <= LevelFor(s.order, size) && Serves(s, l, alignment))
            <==> SomethingFits(s, LevelFor(s.order, size))
  {
    var level := LevelFor(s.order, size);
    if l: nat :| l <= level && Serves(s, l, alignment) {
      SmallAlignmentFits(s.order, size, alignment, l);
    }
    if n, l: nat :| IsFreeAtLevel(s, n, l) && l <= level {
      SmallAlignmentFits(s.order, size, alignment, l);
      assert Serves(s, l, alignment);
    }
  }

  /** With alignment <= size a request is refused exactly when no free block is large enough. */
  lemma RefusedIffNothingFits(s: State, size: nat, alignment: nat)
    requires Inv(s) && alignment >= 1 && IsPowerOfTwo(alignment)
    requires 1 <= size <= Pow2(s.order) && alignment <= size
    ensures Allocate(s, size, alignment).1 == Refused <==> !SomethingFits(s, LevelFor(s.order, size))
  {
    GrantedIff(s, size, alignment);
    ServesIffFits(s, size, alignment);
  }

  // ----- Round trip -----

  /** Releasing what Carve allocated ends in merging the carved block itself. */
  lemma {:induction false} ReleaseUndoesCarve(s: State, n: int, level: nat)
    requires Shape(s) && Listed(s, 0) && n in s.blocks && s.blocks[n] == Free
    requires n >= 1 && Level(n) <= level <= s.order
    ensures Leftmost(n, level) >= 1 && Level(Leftmost(n, level)) == level
    ensures |Carve(s, n, level).free| == |s.free|
    ensures Release(Carve(s, n, level), Leftmost(n, level)) == Coalesce(Unlist(s, n), n)
    decreases level - Level(n)
  {
    if Level(n) == level {
      assert Mark(Carve(s, n, level), n, Free) == Unlist(s, n);
    } else {
      var t := SplitStep(s, n);
      SplitStepShape(s, n);
      SplitStepListed(s, n);
      ChildLevel(n);
      LeafHasNoChildren(s, n);
      ReleaseUndoesCarve(t, 2 * n, level);
      assert ListOk(s, 0, Level(n) + 1);
      var u := Unlist(t, 2 * n);
      var v := MergeStep(u, 2 * n);
      assert u.free[Level(n) + 1] == [2 * n + 1] + s.free[Level(n) + 1];
      assert v.free[Level(n) + 1] == s.free[Level(n) + 1];
      assert v.free == Unlist(s, n).free;
      assert v.blocks == s.blocks;
      assert v == Unlist(s, n);
    }
  }

  /** Allocate then Deallocate of the returned offset restores the tree and every list in order. */
  lemma RoundTrip(s: State, size: nat, alignment: nat)
    requires Inv(s) && alignment >= 1
    ensures var (t, r) := Allocate(s, size, alignment);
            r.Granted? ==>
              && Level(r.block) <= s.order && Shape(t)
              && Deallocate(t, Offset(s.order, r.block)) == s
  {
    var (t, r) := Allocate(s, size, alignment);
    if r.Granted? {
      AllocateInv(s, size, alignment);
      HeadsOk(s);
      var level := LevelFor(s.order, size);
      var from := NextFreeLevel(s, level, alignment);
      var n := s.free[from][0];
      assert ListOk(s, 0, from) && n in s.free[from];
      LeftmostFacts(s.order, n, level);
      assert r.block in Live(t);
      DescendFindsLeaf(t, r.block, Offset(s.order, r.block));
      ReleaseUndoesCarve(s, n, level);
      assert NotBothFree(s, n);
      var u := Unlist(s, n);
      assert s.free[from] == [n] + s.free[from][1..];
      assert List(u, n).free == s.free;
      assert Coalesce(u, n) == List(u, n) == s;
    }
  }

  // ----- The tree is determined by the live blocks -----

  /** Full coalescing: below every split block there is a live one. */
  lemma {:induction false} SplitHasLive(s: State, n: int) returns (m: int)
    requires Inv(s) && n in s.blocks && s.blocks[n] == Split
    ensures m in Live(s) && IsAncestor(n, m) && m != n
    decreases s.order - Level(n), NodeOk(s, n)
  {
    assert NodeOk(s, n);
    ChildLevel(n);
    assert NodeOk(s, 2 * n) && NodeOk(s, 2 * n + 1);
    assert NotBothFree(s, 2 * n);
    var c := if s.blocks[2 * n] == Free then 2 * n + 1 else 2 * n;
    if s.blocks[c] == Allocated {
      m := c;
    } else {
      m := SplitHasLive(s, c);
      AncestorTransitive(n, c, m);
      AncestorBound(c, m);
    }
  }

  lemma {:induction false} AncestorBound(m: int, n: int)
    requires IsAncestor(m, n)
    ensures m <= n
    decreases n
  {
    if m != n { AncestorBound(m, n / 2); }
  }

  lemma {:induction false} SameLiveSameBlock(s: State, t: State, n: int)
    requires Inv(s) && Inv(t) && s.order == t.order && Live(s) == Live(t) && n in s.blocks
    ensures n in t.blocks && t.blocks[n] == s.blocks[n]
    decreases n
  {
    assert NodeOk(s, n);
    if n != 1 {
      SameLiveSameBlock(s, t, n / 2);
      assert NodeOk(t, n / 2);
    }
    assert n in Live(s) <==> n in Live(t);
    if s.blocks[n] == Split {
      var m := SplitHasLive(s, n);
      assert m in Live(t);
      NothingBelowLeaf(t, n, m);
    } else if t.blocks[n] == Split {
      var m := SplitHasLive(t, n);
      assert m in Live(s);
      NothingBelowLeaf(s, n, m);
    }
  }

  /** Whatever the order of operations, equal live blocks mean equal trees and equally filled lists. */
  lemma LiveDeterminesTree(s: State, t: State)
    requires Inv(s) && Inv(t) && s.order == t.order && Live(s) == Live(t)
    ensures s.blocks == t.blocks
    ensures forall level, n | 0 <= level <= s.order :: n in s.free[level] <==> n in t.free[level]
  {
    forall n | n in s.blocks
      ensures n in t.blocks && t.blocks[n] == s.blocks[n]
    {
      SameLiveSameBlock(s, t, n);
    }
    forall n | n in t.blocks
      ensures n in s.blocks
    {
      SameLiveSameBlock(t, s, n);
    }
    forall level, n | 0 <= level <= s.order
      ensures n in s.free[level] <==> n in t.free[level]
    {
      assert ListOk(s, 0, level) && ListOk(t, 0, level);
    }
  }

  /** Two live blocks may be released in either order. */
  lemma ReleasesCommute(s: State, m: int, n: int)
    requires Inv(s) && m in Live(s) && n in Live(s) && m != n
    ensures NodeOk(s, m) && NodeOk(s, n)
    ensures |Release(s, m).free| == |Release(s, n).free| == |s.free|
    ensures Release(Release(s, m), n).blocks == Release(Release(s, n), m).blocks
    ensures var t, u := Release(Release(s, m), n), Release(Release(s, n), m);
            |t.free| == |u.free| == s.order + 1 &&
            forall level, k :: 0 <= level <= s.order ==> (k in t.free[level] <==> k in u.free[level])
  {
    assert NodeOk(s, m) && NodeOk(s, n);
    ReleaseInv(s, m);
    ReleaseInv(s, n);
    ReleaseInv(Release(s, m), n);
    ReleaseInv(Release(s, n), m);
    LiveDeterminesTree(Release(Release(s, m), n), Release(Release(s, n), m));
  }

  lemma InitialInv(order: nat)
    ensures Inv(Initial(order)) && Live(Initial(order)) == {}
  {
    var s := Initial(order);
    assert NodeOk(s, 1);
    forall level | 0 <= level < |s.free|
      ensures ListOk(s, 0, level)
    {
    }
    forall n ensures NotBothFree(s, n) {}
  }

  lemma SoleElement(q: seq<int>, n: int)
    requires NoDup(q) && n in q && forall m :: m in q ==> m == n
    ensures q == [n]
  {
    assert |q| >= 1;
    assert q[0] in q;
    if |q| >= 2 {
      ElementIsIn(q, 1);
      assert false;
    }
  }

  lemma NoMembers(q: seq<int>, p: seq<int>)
    requires p == [] && forall i :: 0 <= i < |q| ==> q[i] in p
    ensures q == []
  {
    if |q| > 0 {
      ElementIsIn(q, 0);
      assert false;
    }
  }

  lemma ElementIsIn(q: seq<int>, i: nat)
    requires i < |q|
    ensures q[i] in q
  {
  }

  /** With no live block left the allocator is back to its single free root. */
  lemma NothingLiveIsInitial(s: State)
    requires Inv(s) && Live(s) == {}
    ensures s == Initial(s.order)
  {
    var t := Initial(s.order);
    InitialInv(s.order);
    LiveDeterminesTree(s, t);
    forall level | 0 <= level < |s.free|
      ensures s.free[level] == t.free[level]
    {
      assert ListOk(s, 0, level);
      assert forall n :: n in s.free[level] <==> n in t.free[level];
      if level == 0 {
        assert 1 in s.free[0];
        SoleElement(s.free[0], 1);
      } else {
        assert forall i :: 0 <= i < |s.free[level]| ==> s.free[level][i] in s.free[level];
        NoMembers(s.free[level], t.free[level]);
      }
    }
    assert s.free == t.free;
  }

  // ----- Runs -----

  datatype Op = Alloc(size: nat, alignment: nat) | Dealloc(offset: nat)

  datatype Outcome = Illegal | Reached(state: State)

  ghost predicate Legal(s: State, op: Op) {
    match op
    case Alloc(_, alignment) => alignment >= 1 && IsPowerOfTwo(alignment)
    case Dealloc(offset) => exists n | n in Live(s) :: Level(n) <= s.order && Offset(s.order, n) == offset
  }

  ghost function Apply(s: State, op: Op): (t: State)
    requires Inv(s) && Legal(s, op)
    ensures Inv(t) && t.order == s.order
  {
    match op
    case Alloc(size, alignment) =>
      AllocateInv(s, size, alignment);
      Allocate(s, size, alignment).0
    case Dealloc(offset) =>
      var n :| n in Live(s) && Level(n) <= s.order && Offset(s.order, n) == offset;
      DescendFindsLeaf(s, n, offset);
      OffsetAligned(s.order, n);
      ReleaseInv(s, n);
      Deallocate(s, offset)
  }

  /** The state after a sequence of calls, each of which frees only an offset that is live. */
  ghost function Run(order: nat, ops: seq<Op>): (r: Outcome)
    ensures r.Reached? ==> Inv(r.state) && r.state.order == order
  {
    if ops == [] then InitialInv(order); Reached(Initial(order))
    else
      var before := Run(order, ops[..|ops| - 1]);
      var op := ops[|ops| - 1];
      if before.Reached? && Legal(before.state, op) then Reached(Apply(before.state, op)) else Illegal
  }

  /** The call that frees a block. */
  ghost function DeallocOf(order: nat, n: int): Op {
    Dealloc(if Level(n) <= order then Offset(order, n) else 0)
  }

  /** The calls that free blocks in a given order. */
  ghost function Deallocs(order: nat, q: seq<int>): seq<Op> {
    if q == [] then [] else [DeallocOf(order, q[0])] + Deallocs(order, q[1..])
  }

  lemma RunSnoc(order: nat, ops: seq<Op>, op: Op, s: State)
    requires Run(order, ops) == Reached(s) && Legal(s, op)
    ensures Run(order, ops + [op]) == Reached(Apply(s, op))
  {
    assert (ops + [op])[..|ops + [op]| - 1] == ops;
  }

  /** Freeing a live block through its offset is legal and releases that block. */
  lemma RunDealloc(order: nat, ops: seq<Op>, s: State, n: int)
    requires Run(order, ops) == Reached(s) && n in Live(s)
    ensures NodeOk(s, n)
    ensures Run(order, ops + [Dealloc(Offset(order, n))]) == Reached(Release(s, n))
  {
    assert NodeOk(s, n);
    var op := Dealloc(Offset(order, n));
    assert Legal(s, op);
    RunSnoc(order, ops, op, s);
    DescendFindsLeaf(s, n, Offset(order, n));
  }

  /** q lists exactly the blocks of a set, each once. */
  ghost predicate Enumerates(q: seq<int>, blocks: set<int>) {
    NoDup(q) && blocks == set i | 0 <= i < |q| :: q[i]
  }

  lemma EnumeratesTail(q: seq<int>, blocks: set<int>)
    requires Enumerates(q, blocks) && |q| > 0
    ensures q[0] in blocks && Enumerates(q[1..], blocks - {q[0]})
  {
    var rest := q[1..];
    forall n | n in blocks - {q[0]}
      ensures n in set i | 0 <= i < |rest| :: rest[i]
    {
      var i :| 0 <= i < |q| && q[i] == n;
      assert rest[i - 1] == n;
    }
  }

  lemma NothingLiveRun(order: nat, ops: seq<Op>, s: State)
    requires Run(order, ops) == Reached(s) && Live(s) == {}
    ensures s == Initial(order)
  {
    NothingLiveIsInitial(s);
  }

  lemma DeallocsCons(order: nat, ops: seq<Op>, q: seq<int>)
    requires |q| > 0
    ensures ops + [DeallocOf(order, q[0])] + Deallocs(order, q[1..]) == ops + Deallocs(order, q)
  {
  }

  lemma FreeOne(order: nat, ops: seq<Op>, s: State, n: int) returns (t: State)
    requires Run(order, ops) == Reached(s) && n in Live(s)
    ensures Run(order, ops + [DeallocOf(order, n)]) == Reached(t) && Live(t) == Live(s) - {n}
  {
    RunDealloc(order, ops, s, n);
    ReleaseInv(s, n);
    t := Release(s, n);
  }

  /** After any run, freeing the live blocks in any order is legal and restores the single free root. */
  lemma {:induction false} FreeAllInAnyOrder(order: nat, ops: seq<Op>, s: State, q: seq<int>)
    requires Run(order, ops) == Reached(s) && Enumerates(q, Live(s))
    ensures Run(order, ops + Deallocs(order, q)) == Reached(Initial(order))
    decreases |q|
  {
    if |q| == 0 {
      assert ops + Deallocs(order, q) == ops;
      assert Live(s) == {};
      NothingLiveRun(order, ops, s);
    } else {
      EnumeratesTail(q, Live(s));
      var t := FreeOne(order, ops, s, q[0]);
      FreeAllInAnyOrder(order, ops + [DeallocOf(order, q[0])], t, q[1..]);
      DeallocsCons(order, ops, q);
    }
  }

  /** After any run live ranges are pairwise disjoint. */
  lemma RunSafety(order: nat, ops: seq<Op>)
    requires Run(order, ops).Reached?
    ensures var s := Run(order, ops).state;
            && s.order == order
            && (forall m, n | m in Live(s) && n in Live(s) && m != n ::
                  NodeOk(s, m) && NodeOk(s, n) && Apart(order, m, n))
            && (Live(s) == {} ==> s == Initial(order))
  {
    var s := Run(order, ops).state;
    forall m, n | m in Live(s) && n in Live(s) && m != n
      ensures NodeOk(s, m) && NodeOk(s, n) && Apart(order, m, n)
    {
      LeavesApart(s, m, n);
    }
    if Live(s) == {} { NothingLiveIsInitial(s); }
  }
}
