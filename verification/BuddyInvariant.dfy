/** Every step of the buddy allocator keeps the tree, the free lists and full coalescing. */
module BuddyInvariant {
  import opened DawnMath
  import opened BuddyModel
  import opened Collections

  /** No position below a leaf exists. */
  lemma {:induction false} NothingBelowLeaf(s: State, m: int, n: int)
    requires Shape(s) && n in s.blocks && m != n && IsAncestor(m, n) && m >= 1
    ensures m in s.blocks && s.blocks[m] == Split
    decreases n
  {
    assert NodeOk(s, n);
    if m != n / 2 { NothingBelowLeaf(s, m, n / 2); }
  }

  lemma LeafHasNoChildren(s: State, n: int)
    requires Shape(s) && n in s.blocks && s.blocks[n] != Split
    ensures 2 * n !in s.blocks && 2 * n + 1 !in s.blocks
  {
    assert NodeOk(s, n);
    assert 2 * n in s.blocks ==> NodeOk(s, 2 * n);
    assert 2 * n + 1 in s.blocks ==> NodeOk(s, 2 * n + 1);
  }

  lemma SplitStepShape(s: State, n: int)
    requires Shape(s) && n in s.blocks && s.blocks[n] == Free && Level(n) < s.order
    ensures Shape(SplitStep(s, n))
  {
    var t := SplitStep(s, n);
    LeafHasNoChildren(s, n);
    assert NodeOk(s, n);
    ChildLevel(n);
    forall m | m in t.blocks
      ensures NodeOk(t, m)
    {
      if m in s.blocks { assert NodeOk(s, m); }
    }
  }

  lemma SplitStepListed(s: State, n: int)
    requires Shape(s) && Listed(s, 0) && n in s.blocks && s.blocks[n] == Free && Level(n) < s.order
    ensures Listed(SplitStep(s, n), 0)
  {
    var t := SplitStep(s, n);
    LeafHasNoChildren(s, n);
    assert NodeOk(s, n);
    ChildLevel(n);
    forall level | 0 <= level < |t.free|
      ensures ListOk(t, 0, level)
    {
      assert ListOk(s, 0, level);
      if level == Level(n) {
        WithoutFacts(s.free[level], n);
      }
    }
  }

  lemma SplitStepCoalesced(s: State, n: int)
    requires Shape(s) && Coalesced(s, n) && n in s.blocks && s.blocks[n] == Free && Level(n) < s.order
    ensures Coalesced(SplitStep(s, n), 2 * n)
  {
    var t := SplitStep(s, n);
    assert NodeOk(s, n);
    forall m | m != 2 * n && m != Buddy(2 * n)
      ensures NotBothFree(t, m)
    {
      if m > 1 { BuddyFacts(m); }
      if n > 1 { BuddyFacts(n); }
      if m != n && m != Buddy(n) {
        assert NotBothFree(s, m);
      }
    }
  }

  /** Changing the state of a leaf to another leaf state keeps the shape. */
  lemma RemarkShape(s: State, n: int, t: State)
    requires Shape(s) && n in s.blocks && s.blocks[n] != Split
    requires t.order == s.order && |t.free| == |s.free|
    requires t.blocks.Keys == s.blocks.Keys && t.blocks[n] != Split
    requires forall m | m in s.blocks && m != n :: t.blocks[m] == s.blocks[m]
    ensures Shape(t)
  {
    forall m | m in t.blocks
      ensures NodeOk(t, m)
    {
      assert NodeOk(s, m);
    }
  }

  lemma TakeListed(s: State, n: int)
    requires Shape(s) && Listed(s, 0) && n in s.blocks && s.blocks[n] == Free
    ensures NodeOk(s, n) && Listed(Mark(Unlist(s, n), n, Allocated), 0)
  {
    assert NodeOk(s, n);
    var t := Mark(Unlist(s, n), n, Allocated);
    forall level | 0 <= level < |t.free|
      ensures ListOk(t, 0, level)
    {
      assert ListOk(s, 0, level);
      if level == Level(n) { WithoutFacts(s.free[level], n); }
    }
  }

  lemma TakeInv(s: State, n: int)
    requires Shape(s) && Listed(s, 0) && Coalesced(s, n) && n in s.blocks && s.blocks[n] == Free
    ensures NodeOk(s, n) && Inv(Mark(Unlist(s, n), n, Allocated))
    ensures Live(Mark(Unlist(s, n), n, Allocated)) == Live(s) + {n}
  {
    TakeListed(s, n);
    var t := Mark(Unlist(s, n), n, Allocated);
    RemarkShape(s, n, t);
    forall m | m != 0 && m != Buddy(0)
      ensures NotBothFree(t, m)
    {
      if m > 1 { BuddyFacts(m); }
      if m != n && m != Buddy(n) { assert NotBothFree(s, m); }
    }
  }

  /** Carving a free block keeps the invariant and adds exactly one live block. */
  lemma {:induction false} CarveInv(s: State, n: int, level: nat)
    requires Shape(s) && Listed(s, 0) && Coalesced(s, n) && n in s.blocks && s.blocks[n] == Free
    requires n >= 1 && Level(n) <= level <= s.order
    ensures Inv(Carve(s, n, level)) && Carve(s, n, level).order == s.order
    ensures Leftmost(n, level) !in Live(s)
    ensures Live(Carve(s, n, level)) == Live(s) + {Leftmost(n, level)}
    decreases level - Level(n)
  {
    if Level(n) == level {
      TakeInv(s, n);
    } else {
      SplitStepShape(s, n);
      SplitStepListed(s, n);
      SplitStepCoalesced(s, n);
      ChildLevel(n);
      LeafHasNoChildren(s, n);
      assert Live(SplitStep(s, n)) == Live(s);
      CarveInv(SplitStep(s, n), 2 * n, level);
    }
  }

  lemma AllocateInv(s: State, size: nat, alignment: nat)
    requires Inv(s) && alignment >= 1
    ensures var (t, r) := Allocate(s, size, alignment);
            && Inv(t) && t.order == s.order
            && (r == Refused ==> t == s)
            && (r.Granted? ==> r.block !in Live(s) && Live(t) == Live(s) + {r.block})
  {
    if 1 <= size <= Pow2(s.order) {
      HeadsOk(s);
      var level := LevelFor(s.order, size);
      var from := NextFreeLevel(s, level, alignment);
      if from >= 0 {
        var n := s.free[from][0];
        assert ListOk(s, 0, from) && n in s.free[from];
        assert Coalesced(s, n) by {
          forall m | m != n && m != Buddy(n) ensures NotBothFree(s, m) {
            if m > 1 { assert m != Buddy(0); }
          }
        }
        CarveInv(s, n, level);
      }
    }
  }

  // ----- Release -----

  /** The state inside the merge loop: n is free but on no list. */
  ghost predicate Merging(s: State, n: int) {
    && Shape(s) && Listed(s, n) && Coalesced(s, n)
    && n in s.blocks && s.blocks[n] == Free
  }

  lemma FreeStart(s: State, n: int)
    requires Inv(s) && n in s.blocks && s.blocks[n] == Allocated
    ensures Merging(Mark(s, n, Free), n)
    ensures Live(Mark(s, n, Free)) == Live(s) - {n}
  {
    var t := Mark(s, n, Free);
    RemarkShape(s, n, t);
    assert 0 in s.blocks ==> NodeOk(s, 0);
    FreeStartListed(s, n);
    forall m | m != n && m != Buddy(n)
      ensures NotBothFree(t, m)
    {
      if m > 1 { BuddyFacts(m); assert NotBothFree(s, m); }
    }
  }

  lemma FreeStartListed(s: State, n: int)
    requires Listed(s, 0) && n in s.blocks && s.blocks[n] == Allocated && 0 !in s.blocks
    ensures Listed(Mark(s, n, Free), n)
  {
    var t := Mark(s, n, Free);
    forall level | 0 <= level < |t.free|
      ensures ListOk(t, n, level)
    {
      assert ListOk(s, 0, level);
    }
  }

  lemma MergeStepShape(s: State, n: int)
    requires Merging(s, n) && n > 1 && Buddy(n) in s.blocks && s.blocks[Buddy(n)] == Free
    ensures NodeOk(s, n) && Shape(MergeStep(s, n))
  {
    assert NodeOk(s, n) && NodeOk(s, Buddy(n)) && NodeOk(s, n / 2);
    var t := MergeStep(s, n);
    LeafHasNoChildren(s, n);
    LeafHasNoChildren(s, Buddy(n));
    BuddyFacts(n);
    forall m | m in t.blocks
      ensures NodeOk(t, m)
    {
      assert NodeOk(s, m);
      assert m == 2 * (m / 2) || m == 2 * (m / 2) + 1;
      if s.blocks[m] == Split && m != n / 2 {
        assert 2 * m / 2 == m && (2 * m + 1) / 2 == m;
      }
    }
  }

  lemma MergeStepListed(s: State, n: int)
    requires Merging(s, n) && n > 1 && Buddy(n) in s.blocks && s.blocks[Buddy(n)] == Free
    ensures NodeOk(s, n) && Listed(MergeStep(s, n), n / 2)
  {
    assert NodeOk(s, n) && NodeOk(s, n / 2);
    var t := MergeStep(s, n);
    BuddyFacts(n);
    forall level | 0 <= level < |t.free|
      ensures ListOk(t, n / 2, level)
    {
      assert ListOk(s, n, level);
      if level == Level(n) { WithoutFacts(s.free[level], Buddy(n)); }
    }
  }

  lemma MergeStepMerging(s: State, n: int)
    requires Merging(s, n) && n > 1 && Buddy(n) in s.blocks && s.blocks[Buddy(n)] == Free
    ensures NodeOk(s, n) && Merging(MergeStep(s, n), n / 2)
    ensures Live(MergeStep(s, n)) == Live(s)
  {
    MergeStepShape(s, n);
    MergeStepListed(s, n);
    assert NodeOk(s, n);
    var t := MergeStep(s, n);
    BuddyFacts(n);
    forall m | m != n / 2 && m != Buddy(n / 2)
      ensures NotBothFree(t, m)
    {
      if m > 1 { BuddyFacts(m); }
      if m != n && m != Buddy(n) { assert NotBothFree(s, m); }
    }
  }

  lemma ListListed(s: State, n: int)
    requires Listed(s, n) && n in s.blocks && s.blocks[n] == Free && 0 !in s.blocks && Level(n) < |s.free|
    ensures Listed(List(s, n), 0)
  {
    var t := List(s, n);
    forall level | 0 <= level < |t.free|
      ensures ListOk(t, 0, level)
    {
      assert ListOk(s, n, level);
    }
  }

  lemma ListInv(s: State, n: int)
    requires Merging(s, n)
    requires n > 1 ==> Buddy(n) !in s.blocks || s.blocks[Buddy(n)] != Free
    ensures NodeOk(s, n) && Inv(List(s, n))
  {
    assert NodeOk(s, n);
    var t := List(s, n);
    RemarkShape(s, n, t);
    assert 0 in s.blocks ==> NodeOk(s, 0);
    ListListed(s, n);
    forall m | m != 0 && m != Buddy(0)
      ensures NotBothFree(t, m)
    {
      if m > 1 { BuddyFacts(m); }
      if m != n && m != Buddy(n) { assert NotBothFree(s, m); }
    }
  }

  lemma {:induction false} CoalesceInv(s: State, n: int)
    requires Merging(s, n)
    ensures NodeOk(s, n) && Inv(Coalesce(s, n)) && Coalesce(s, n).order == s.order
    ensures Live(Coalesce(s, n)) == Live(s)
    decreases n
  {
    assert NodeOk(s, n);
    if n > 1 && Buddy(n) in s.blocks && s.blocks[Buddy(n)] == Free {
      MergeStepMerging(s, n);
      CoalesceInv(MergeStep(s, n), n / 2);
    } else {
      ListInv(s, n);
    }
  }

  /** Releasing a live block keeps the invariant and removes exactly that block. */
  lemma ReleaseInv(s: State, n: int)
    requires Inv(s) && n in Live(s)
    ensures NodeOk(s, n) && Inv(Release(s, n)) && Release(s, n).order == s.order
    ensures Live(Release(s, n)) == Live(s) - {n}
  {
    assert NodeOk(s, n);
    FreeStart(s, n);
    CoalesceInv(Mark(s, n, Free), n);
  }
}
