/**
 Counting free blocks (src/dawn_native/BuddyAllocator.cpp): walking the tree finds as many free
 blocks as all free lists together hold.
 */
module BuddyCounting {
  import opened BuddyModel
  import opened BuddyInvariant
  import BuddyTheorems
  import opened Collections

  /** The free blocks at or below n. */
  ghost function FreeUnder(s: State, n: int): set<int> {
    set m | m in s.blocks && s.blocks[m] == Free && IsAncestor(n, m)
  }

  ghost function ListTotal(free: seq<seq<int>>): nat {
    if free == [] then 0 else ListTotal(free[..|free| - 1]) + |free[|free| - 1]|
  }

  /** Walking the tree from a block down. */
  ghost function CountFree(s: State, n: int): nat
    requires Shape(s) && n in s.blocks
    decreases s.order + 1 - Level(n)
  {
    assert NodeOk(s, n);
    if s.blocks[n] == Free then 1
    else if s.blocks[n] == Split then
      ChildLevel(n);
      CountFree(s, 2 * n) + CountFree(s, 2 * n + 1)
    else 0
  }

  lemma {:induction false} AncestorViaChild(n: int, m: int)
    requires n >= 1 && IsAncestor(n, m) && n != m
    ensures IsAncestor(2 * n, m) || IsAncestor(2 * n + 1, m)
    decreases m
  {
    if m / 2 != n { AncestorViaChild(n, m / 2); }
  }

  lemma {:induction false} ChildrenApart(n: int, m: int)
    requires n >= 1 && IsAncestor(2 * n, m)
    ensures !IsAncestor(2 * n + 1, m)
    ensures m > n
    decreases m
  {
    if IsAncestor(2 * n + 1, n) { BuddyTheorems.AncestorBound(2 * n + 1, n); }
    if IsAncestor(2 * n, n) { BuddyTheorems.AncestorBound(2 * n, n); }
    if m != 2 * n { ChildrenApart(n, m / 2); }
  }

  lemma {:induction false} RightChildBelow(n: int, m: int)
    requires n >= 1 && IsAncestor(2 * n + 1, m)
    ensures IsAncestor(n, m)
  {
    AncestorTransitive(n, 2 * n + 1, m);
  }

  lemma SplitFreeUnder(s: State, n: int)
    requires Shape(s) && n in s.blocks && s.blocks[n] == Split && n >= 1
    ensures FreeUnder(s, n) == FreeUnder(s, 2 * n) + FreeUnder(s, 2 * n + 1)
    ensures FreeUnder(s, 2 * n) !! FreeUnder(s, 2 * n + 1)
  {
    forall m | m in FreeUnder(s, n)
      ensures m in FreeUnder(s, 2 * n) + FreeUnder(s, 2 * n + 1)
    {
      AncestorViaChild(n, m);
    }
    forall m | m in FreeUnder(s, 2 * n)
      ensures m in FreeUnder(s, n) && m !in FreeUnder(s, 2 * n + 1)
    {
      AncestorTransitive(n, 2 * n, m);
      ChildrenApart(n, m);
    }
    forall m | m in FreeUnder(s, 2 * n + 1)
      ensures m in FreeUnder(s, n)
    {
      RightChildBelow(n, m);
    }
  }

  lemma LeafFreeUnder(s: State, n: int)
    requires Shape(s) && n in s.blocks && s.blocks[n] != Split
    ensures FreeUnder(s, n) == if s.blocks[n] == Free then {n} else {}
  {
    assert NodeOk(s, n);
    forall m | m in FreeUnder(s, n)
      ensures m == n
    {
      if m != n { NothingBelowLeaf(s, n, m); }
    }
  }

  lemma {:induction false} CountFreeIsFreeUnder(s: State, n: int)
    requires Shape(s) && n in s.blocks
    ensures CountFree(s, n) == |FreeUnder(s, n)|
    decreases s.order + 1 - Level(n)
  {
    assert NodeOk(s, n);
    if s.blocks[n] == Split {
      ChildLevel(n);
      CountFreeIsFreeUnder(s, 2 * n);
      CountFreeIsFreeUnder(s, 2 * n + 1);
      SplitFreeUnder(s, n);
    } else {
      LeafFreeUnder(s, n);
    }
  }

  /** The free blocks above level k. */
  ghost function FreeAbove(s: State, k: int): set<int> {
    set m | m in s.blocks && s.blocks[m] == Free && Level(m) < k
  }

  ghost function Elements(q: seq<int>): set<int> {
    set m | m in q
  }

  lemma {:induction false} ElementCount(q: seq<int>)
    requires NoDup(q)
    ensures |Elements(q)| == |q|
  {
    if q != [] {
      var n := |q| - 1;
      ElementCount(q[..n]);
      assert q == q[..n] + [q[n]];
      assert Elements(q) == Elements(q[..n]) + {q[n]};
      assert q[n] !in q[..n];
    }
  }

  lemma {:induction false} ListTotalIsFree(s: State, k: nat)
    requires Listed(s, 0) && k <= |s.free| && forall m :: m in s.blocks ==> m >= 1
    ensures ListTotal(s.free[..k]) == |FreeAbove(s, k)|
  {
    if k == 0 {
      assert FreeAbove(s, 0) == {};
    } else {
      ListTotalIsFree(s, k - 1);
      assert s.free[..k][..k - 1] == s.free[..k - 1];
      assert ListOk(s, 0, k - 1);
      ElementCount(s.free[k - 1]);
      assert FreeAbove(s, k) == FreeAbove(s, k - 1) + Elements(s.free[k - 1]);
      assert FreeAbove(s, k - 1) !! Elements(s.free[k - 1]);
    }
  }

  /** In every state the tree walk and the lists agree. */
  lemma TreeCountIsListTotal(s: State)
    requires Inv(s)
    ensures CountFree(s, 1) == ListTotal(s.free)
  {
    CountFreeIsFreeUnder(s, 1);
    forall m | m in s.blocks
      ensures m >= 1 && IsAncestor(1, m) && Level(m) < |s.free|
    {
      assert NodeOk(s, m);
      RootIsAncestor(m);
    }
    ListTotalIsFree(s, |s.free|);
    assert s.free[..|s.free|] == s.free;
    assert FreeUnder(s, 1) == FreeAbove(s, |s.free|);
  }
}
