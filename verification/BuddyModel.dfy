/**
 The value a buddy allocator denotes (src/dawn_native/BuddyAllocator.{h,cpp}).

 A block is named by its position in the binary tree: the root is 1 and the children of n are
 2n and 2n+1. The state of each existing block is kept in a map, next to one list of free blocks
 per level. Every loop body of the allocator is one step on this value.
 */
module BuddyModel {
  import opened DawnMath
  import opened Collections

  datatype BlockState = Free | Split | Allocated

  datatype State = State(order: nat, blocks: map<int, BlockState>, free: seq<seq<int>>)

  // ----- Positions, levels and byte ranges -----

  function Level(n: int): nat {
    if n <= 1 then 0 else 1 + Level(n / 2)
  }

  function Buddy(n: int): int {
    if n % 2 == 0 then n + 1 else n - 1
  }

  function Size(order: nat, n: int): nat
    requires Level(n) <= order
  {
    Pow2(order - Level(n))
  }

  function Offset(order: nat, n: int): nat
    requires Level(n) <= order
  {
    if n <= 1 then 0 else Offset(order, n / 2) + if n % 2 == 1 then Size(order, n) else 0
  }

  predicate Contains(order: nat, n: int, x: nat)
    requires Level(n) <= order
  {
    Offset(order, n) <= x < Offset(order, n) + Size(order, n)
  }

  /** The byte ranges of two blocks do not meet. */
  predicate Apart(order: nat, m: int, n: int)
    requires Level(m) <= order && Level(n) <= order
  {
    || Offset(order, m) + Size(order, m) <= Offset(order, n)
    || Offset(order, n) + Size(order, n) <= Offset(order, m)
  }

  predicate IsAncestor(m: int, n: int) {
    m == n || (n > 1 && IsAncestor(m, n / 2))
  }

  // ----- The invariant -----

  ghost predicate NodeOk(s: State, n: int)
    requires n in s.blocks
  {
    && n >= 1 && Level(n) <= s.order
    && (n != 1 ==> n / 2 in s.blocks && s.blocks[n / 2] == Split)
    && (s.blocks[n] == Split ==> Level(n) < s.order && 2 * n in s.blocks && 2 * n + 1 in s.blocks)
  }

  /** The blocks form a full binary tree whose inner nodes are exactly the split blocks. */
  ghost predicate Shape(s: State) {
    && |s.free| == s.order + 1
    && 1 in s.blocks
    && forall n {:trigger NodeOk(s, n)} :: n in s.blocks ==> NodeOk(s, n)
  }

  ghost predicate ListOk(s: State, hole: int, level: nat)
    requires level < |s.free|
  {
    && NoDup(s.free[level])
    && forall n ::
         n in s.free[level] <==> n in s.blocks && s.blocks[n] == Free && Level(n) == level && n != hole
  }

  /** Each list holds exactly the free blocks of its level, once each, leaving out `hole`. */
  ghost predicate Listed(s: State, hole: int) {
    forall level :: 0 <= level < |s.free| ==> ListOk(s, hole, level)
  }

  ghost predicate NotBothFree(s: State, n: int) {
    n in s.blocks && n > 1 && s.blocks[n] == Free ==> Buddy(n) !in s.blocks || s.blocks[Buddy(n)] != Free
  }

  /** No two buddies are both free, except possibly `exempt` and its buddy. */
  ghost predicate Coalesced(s: State, exempt: int) {
    forall n {:trigger NotBothFree(s, n)} :: n != exempt && n != Buddy(exempt) ==> NotBothFree(s, n)
  }

  ghost predicate Inv(s: State) {
    Shape(s) && Listed(s, 0) && Coalesced(s, 0)
  }

  ghost function Live(s: State): set<int> {
    set n | n in s.blocks && s.blocks[n] == Allocated
  }

  // ----- The operations -----

  function Initial(order: nat): State {
    State(order, map[1 := Free], [[1]] + seq(order, _ => []))
  }

  function SplitStep(s: State, n: int): State
    requires Level(n) + 1 < |s.free|
  {
    var level := Level(n);
    State(s.order,
          s.blocks[n := Split][2 * n := Free][2 * n + 1 := Free],
          s.free[level := Without(s.free[level], n)]
                [level + 1 := [2 * n, 2 * n + 1] + s.free[level + 1]])
  }

  function Unlist(s: State, n: int): State
    requires Level(n) < |s.free|
  {
    s.(free := s.free[Level(n) := Without(s.free[Level(n)], n)])
  }

  function List(s: State, n: int): State
    requires Level(n) < |s.free|
  {
    s.(free := s.free[Level(n) := [n] + s.free[Level(n)]])
  }

  function Mark(s: State, n: int, state: BlockState): State {
    s.(blocks := s.blocks[n := state])
  }

  /** Split the free block n along its left edge down to `level`; allocate the block reached. */
  function Carve(s: State, n: int, level: nat): State
    requires n >= 1 && Level(n) <= level < |s.free|
    decreases level - Level(n)
  {
    if Level(n) == level then Mark(Unlist(s, n), n, Allocated)
    else (ChildLevel(n); Carve(SplitStep(s, n), 2 * n, level))
  }

  /** The block Carve allocates. */
  function Leftmost(n: int, level: nat): int
    requires n >= 1 && Level(n) <= level
    decreases level - Level(n)
  {
    if Level(n) == level then n else (ChildLevel(n); Leftmost(2 * n, level))
  }

  /** The deepest level, not below `level`, whose list starts with an aligned block. */
  function NextFreeLevel(s: State, level: nat, alignment: nat): (r: int)
    requires level < |s.free| == s.order + 1 && alignment >= 1
    requires forall l :: 0 <= l < |s.free| && s.free[l] != [] ==> Level(s.free[l][0]) <= s.order
    ensures -1 <= r <= level
    ensures r >= 0 ==> s.free[r] != [] && Offset(s.order, s.free[r][0]) % alignment == 0
    ensures forall l :: r < l <= level && s.free[l] != [] ==> Offset(s.order, s.free[l][0]) % alignment != 0
  {
    if s.free[level] != [] && Offset(s.order, s.free[level][0]) % alignment == 0 then level
    else if level == 0 then -1
    else NextFreeLevel(s, level - 1, alignment)
  }

  datatype Allocation = Refused | Granted(block: int)

  function LevelFor(order: nat, size: nat): (level: nat)
    requires 1 <= size <= Pow2(order)
    ensures level <= order
  {
    Log2OfBounded(order, size);
    order - Log2(size)
  }

  function Allocate(s: State, size: nat, alignment: nat): (State, Allocation)
    requires Shape(s) && Listed(s, 0) && alignment >= 1
  {
    if size == 0 || size > Pow2(s.order) then (s, Refused)
    else
      HeadsOk(s);
      var level := LevelFor(s.order, size);
      var from := NextFreeLevel(s, level, alignment);
      if from < 0 then (s, Refused)
      else
        var n := s.free[from][0];
        assert n in s.free[from];
        (Carve(s, n, level), Granted(Leftmost(n, level)))
  }

  /** Where the search of Deallocate ends: go right from a split block once x reaches its right half. */
  function Descend(s: State, n: int, x: nat): (r: int)
    requires Shape(s) && n in s.blocks
    ensures r in s.blocks && s.blocks[r] != Split
    ensures NodeOk(s, n) && NodeOk(s, r)
    ensures Contains(s.order, n, x) ==> Contains(s.order, r, x)
    decreases s.order - if NodeOk(s, n) then Level(n) else 0
  {
    assert NodeOk(s, n);
    if s.blocks[n] != Split then n
    else
      ChildLevel(n);
      assert NodeOk(s, 2 * n) && NodeOk(s, 2 * n + 1);
      Halves(s.order, n);
      if x < Offset(s.order, 2 * n + 1) then Descend(s, 2 * n, x) else Descend(s, 2 * n + 1, x)
  }

  function MergeStep(s: State, n: int): State
    requires Level(n) < |s.free|
  {
    var level := Level(n);
    State(s.order,
          (s.blocks - {n, Buddy(n)})[n / 2 := Free],
          s.free[level := Without(s.free[level], Buddy(n))])
  }

  /** Merge the free but unlisted block n with its buddy as long as both are free, then list the result. */
  function Coalesce(s: State, n: int): State
    requires n >= 1 && Level(n) < |s.free|
    decreases n
  {
    if n > 1 && Buddy(n) in s.blocks && s.blocks[Buddy(n)] == Free
    then Coalesce(MergeStep(s, n), n / 2)
    else List(s, n)
  }

  function Release(s: State, n: int): State
    requires n >= 1 && Level(n) < |s.free|
  {
    Coalesce(Mark(s, n, Free), n)
  }

  function Deallocate(s: State, offset: nat): State
    requires Shape(s)
  {
    Release(s, Descend(s, 1, offset))
  }

  // ----- Arithmetic of positions -----

  lemma ChildLevel(n: int)
    requires n >= 1
    ensures Level(2 * n) == Level(2 * n + 1) == Level(n) + 1
    ensures 2 * n / 2 == n && (2 * n + 1) / 2 == n
  {
  }

  lemma BuddyFacts(n: int)
    requires n > 1
    ensures Buddy(Buddy(n)) == n && Buddy(n) != n && Buddy(n) / 2 == n / 2 && Buddy(n) > 1
    ensures Level(Buddy(n)) == Level(n) == Level(n / 2) + 1
    ensures {n, Buddy(n)} == {2 * (n / 2), 2 * (n / 2) + 1}
  {
  }

  lemma Log2OfBounded(order: nat, size: nat)
    requires 1 <= size <= Pow2(order)
    ensures Log2(size) <= order
  {
    if Log2(size) > order { Pow2Monotone(order, Log2(size)); }
  }

  /** A block's range is the concatenation of its children's ranges. */
  lemma Halves(order: nat, n: int)
    requires n >= 1 && Level(n) < order
    ensures Level(2 * n) == Level(2 * n + 1) == Level(n) + 1
    ensures Size(order, n) == 2 * Size(order, 2 * n) && Size(order, 2 * n) == Size(order, 2 * n + 1)
    ensures Offset(order, 2 * n) == Offset(order, n)
    ensures Offset(order, 2 * n + 1) == Offset(order, n) + Size(order, 2 * n)
  {
    ChildLevel(n);
  }

  lemma {:induction false} OffsetAligned(order: nat, n: int)
    requires Level(n) <= order
    ensures Offset(order, n) % Size(order, n) == 0
    ensures Offset(order, n) + Size(order, n) <= Pow2(order)
    ensures Offset(order, n) % Pow2(0) == 0
  {
    if n > 1 {
      OffsetAligned(order, n / 2);
      Pow2Divides(order - Level(n), order - Level(n / 2));
      ModTransitive(Offset(order, n / 2), Size(order, n / 2), Size(order, n));
      DivUnique(Size(order, n), Size(order, n), 1, 0);
      ModSum(Offset(order, n / 2), Size(order, n), Size(order, n));
    } else {
      DivUnique(0, Size(order, n), 0, 0);
    }
  }

  lemma {:induction false} AncestorContains(order: nat, m: int, n: int)
    requires m >= 1 && IsAncestor(m, n) && Level(n) <= order
    ensures Level(m) <= Level(n)
    ensures Offset(order, m) <= Offset(order, n)
    ensures Offset(order, n) + Size(order, n) <= Offset(order, m) + Size(order, m)
    decreases n
  {
    if m != n {
      AncestorContains(order, m, n / 2);
      Halves(order, n / 2);
    }
  }

  lemma {:induction false} SameLevelApart(order: nat, m: int, n: int)
    requires m >= 1 && n >= 1 && m != n && Level(m) == Level(n) <= order
    ensures Apart(order, m, n)
    decreases n
  {
    if m == 1 || n == 1 {
    } else {
      Halves(order, m / 2);
      Halves(order, n / 2);
      if m / 2 != n / 2 {
        SameLevelApart(order, m / 2, n / 2);
      }
    }
  }

  /** Two blocks are nested or apart. */
  lemma {:induction false} NestedOrApart(order: nat, m: int, n: int)
    requires m >= 1 && n >= 1 && Level(m) <= Level(n) <= order
    ensures IsAncestor(m, n) || Apart(order, m, n)
    decreases n
  {
    if m == n {
    } else if Level(m) == Level(n) {
      SameLevelApart(order, m, n);
    } else {
      NestedOrApart(order, m, n / 2);
      Halves(order, n / 2);
    }
  }

  lemma {:induction false} LeftmostFacts(order: nat, n: int, level: nat)
    requires n >= 1 && Level(n) <= level <= order
    ensures Leftmost(n, level) >= n
    ensures Level(Leftmost(n, level)) == level
    ensures Offset(order, Leftmost(n, level)) == Offset(order, n)
    ensures IsAncestor(n, Leftmost(n, level))
    decreases level - Level(n)
  {
    if Level(n) < level {
      Halves(order, n);
      LeftmostFacts(order, 2 * n, level);
      AncestorTransitive(n, 2 * n, Leftmost(2 * n, level));
    }
  }

  lemma {:induction false} AncestorTransitive(a: int, b: int, c: int)
    requires IsAncestor(a, b) && IsAncestor(b, c)
    ensures IsAncestor(a, c)
    decreases c
  {
    if b != c { AncestorTransitive(a, b, c / 2); }
  }

  lemma {:induction false} RootIsAncestor(m: int)
    requires m >= 1
    ensures IsAncestor(1, m)
    decreases m
  {
    if m > 1 { RootIsAncestor(m / 2); }
  }

  lemma HeadsOk(s: State)
    requires Shape(s) && Listed(s, 0)
    ensures forall l | 0 <= l < |s.free| ::
              s.free[l] != [] ==> s.free[l][0] in s.blocks && s.free[l][0] >= 1 && Level(s.free[l][0]) == l
  {
    forall l | 0 <= l < |s.free| && s.free[l] != []
      ensures s.free[l][0] in s.blocks && s.free[l][0] >= 1 && Level(s.free[l][0]) == l
    {
      assert ListOk(s, 0, l);
      assert s.free[l][0] in s.free[l];
      assert NodeOk(s, s.free[l][0]);
    }
  }
}
