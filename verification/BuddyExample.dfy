/** Inputs on which the buddy allocator does less than its callers might expect. */
module BuddyExample {
  import opened DawnMath
  import opened BuddyModel
  import opened BuddyTheorems

  lemma RunByte(ops: seq<Op>, s: State, t: State)
    requires Run(2, ops) == Reached(s) && Allocate(s, 1, 1).0 == t
    ensures Run(2, ops + [Alloc(1, 1)]) == Reached(t)
  {
    BitAndZeroPowerOfTwo(1);
    RunSnoc(2, ops, Alloc(1, 1), s);
  }

  lemma RunFree(ops: seq<Op>, s: State, n: int, offset: nat, t: State)
    requires Run(2, ops) == Reached(s) && n in Live(s)
    requires 1 <= n && Level(n) <= 2 && Offset(2, n) == offset && s.order == 2 && Release(s, n) == t
    ensures Run(2, ops + [Dealloc(offset)]) == Reached(t)
  {
    RunDealloc(2, ops, s, n);
  }

  lemma Levels()
    ensures Level(1) == 0 && Level(2) == 1 && Level(3) == 1
    ensures Level(4) == 2 && Level(5) == 2 && Level(6) == 2 && Level(7) == 2
  {
    ChildLevel(1);
    ChildLevel(2);
    ChildLevel(3);
  }

  lemma Offset4()
    ensures Level(4) == 2 && Offset(2, 4) == 0
  {
  }

  lemma Size4()
    ensures Level(4) == 2 && Size(2, 4) == 1
  {
  }

  lemma Offset7()
    ensures Level(7) == 2 && Offset(2, 7) == 3
  {
  }

  lemma OneByteLevel()
    ensures Pow2(2) == 4 && LevelFor(2, 1) == 2
  {
    assert Log2(1) == 0;
  }

  const START := State(2, map[1 := Free], [[1], [], []])
  const ONE := State(2, START.blocks[1 := Split][2 := Free][3 := Free][2 := Split][4 := Free][5 := Free]
                             [4 := Allocated], [[], [3], [5]])
  const TWO := State(2, ONE.blocks[5 := Allocated], [[], [3], []])
  const THREE := State(2, TWO.blocks[3 := Split][6 := Free][7 := Free][6 := Allocated], [[], [], [7]])
  const FOUR := State(2, THREE.blocks[7 := Allocated], [[], [], []])
  const FIRST_FREED := State(2, FOUR.blocks[4 := Free], [[], [], [4]])
  const FRAGMENTED := State(2, FIRST_FREED.blocks[7 := Free], [[], [], [7, 4]])

  lemma SameLists(p: seq<seq<int>>, q: seq<seq<int>>)
    requires |p| == |q| == 3 && p[0] == q[0] && p[1] == q[1] && p[2] == q[2]
    ensures p == q
  {
  }

  /** Without an alignment constraint the deepest non-empty list serves the request. */
  lemma Unconstrained(s: State, level: nat, from: nat)
    requires Inv(s) && from <= level <= s.order && s.free[from] != []
    requires forall l | from < l <= level :: s.free[l] == []
    ensures forall l | 0 <= l < |s.free| :: s.free[l] != [] ==> Level(s.free[l][0]) <= s.order
    ensures NextFreeLevel(s, level, 1) == from
  {
    HeadsOk(s);
    var r := NextFreeLevel(s, level, 1);
    assert Offset(s.order, s.free[from][0]) % 1 == 0;
  }

  lemma ByteFrom(s: State, from: nat, n: int)
    requires Inv(s) && s.order == 2 && from <= 2 && s.free[from] != [] && n == s.free[from][0]
    requires forall l | from < l <= 2 :: s.free[l] == []
    ensures n >= 1 && Level(n) == from
    ensures Allocate(s, 1, 1).0 == Carve(s, n, 2)
  {
    HeadsOk(s);
    OneByteLevel();
    Unconstrained(s, 2, from);
  }

  lemma FirstByte()
    requires Inv(START)
    ensures Allocate(START, 1, 1).0 == ONE
  {
    Levels();
    ByteFrom(START, 0, 1);
    var a := SplitStep(START, 1);
    assert a.free[0] == [] && a.free[1] == [2, 3] && a.free[2] == [];
    var b := SplitStep(a, 2);
    assert b.free[0] == [] && b.free[1] == [3] && b.free[2] == [4, 5];
    var c := Mark(Unlist(b, 4), 4, Allocated);
    assert c.free[0] == [] && c.free[1] == [3] && c.free[2] == [5];
    SameLists(c.free, ONE.free);
    assert Carve(b, 4, 2) == c;
    assert Carve(a, 2, 2) == Carve(b, 4, 2);
  }

  lemma SecondByte()
    requires Inv(ONE)
    ensures Allocate(ONE, 1, 1).0 == TWO
  {
    Levels();
    ByteFrom(ONE, 2, 5);
    var c := Mark(Unlist(ONE, 5), 5, Allocated);
    assert c.free[0] == [] && c.free[1] == [3] && c.free[2] == [];
    SameLists(c.free, TWO.free);
    assert Carve(ONE, 5, 2) == c;
  }

  lemma ThirdByte()
    requires Inv(TWO)
    ensures Allocate(TWO, 1, 1).0 == THREE
  {
    Levels();
    ByteFrom(TWO, 1, 3);
    var a := SplitStep(TWO, 3);
    assert a.free[0] == [] && a.free[1] == [] && a.free[2] == [6, 7];
    var c := Mark(Unlist(a, 6), 6, Allocated);
    assert c.free[0] == [] && c.free[1] == [] && c.free[2] == [7];
    SameLists(c.free, THREE.free);
    assert Carve(a, 6, 2) == c;
  }

  lemma FourthByte()
    requires Inv(THREE)
    ensures Allocate(THREE, 1, 1).0 == FOUR
  {
    Levels();
    ByteFrom(THREE, 2, 7);
    var c := Mark(Unlist(THREE, 7), 7, Allocated);
    assert c.free[0] == [] && c.free[1] == [] && c.free[2] == [];
    SameLists(c.free, FOUR.free);
    assert Carve(THREE, 7, 2) == c;
  }

  lemma FreeFirst()
    ensures Level(4) == 2 && Release(FOUR, 4) == FIRST_FREED
  {
    Levels();
    var a := Mark(FOUR, 4, Free);
    assert Buddy(4) == 5 && a.blocks[5] == Allocated;
    assert List(a, 4).free[2] == [4];
    SameLists(List(a, 4).free, FIRST_FREED.free);
  }

  lemma FreeLast()
    ensures Level(7) == 2 && Release(FIRST_FREED, 7) == FRAGMENTED
  {
    Levels();
    var a := Mark(FIRST_FREED, 7, Free);
    assert Buddy(7) == 6 && a.blocks[6] == Allocated;
    assert List(a, 7).free[2] == [7, 4];
    SameLists(List(a, 7).free, FRAGMENTED.free);
  }

  lemma StartRun()
    ensures Run(2, []) == Reached(START)
  {
    SameLists(Initial(2).free, START.free);
  }

  lemma OneRun()
    ensures Run(2, [Alloc(1, 1)]) == Reached(ONE)
  {
    StartRun();
    FirstByte();
    RunByte([], START, ONE);
    assert [] + [Alloc(1, 1)] == [Alloc(1, 1)];
  }

  lemma TwoRun()
    ensures Run(2, [Alloc(1, 1), Alloc(1, 1)]) == Reached(TWO)
  {
    var a := Alloc(1, 1);
    OneRun();
    SecondByte();
    RunByte([a], ONE, TWO);
    assert [a] + [a] == [a, a];
  }

  lemma ThreeRun()
    ensures Run(2, [Alloc(1, 1), Alloc(1, 1), Alloc(1, 1)]) == Reached(THREE)
  {
    var a := Alloc(1, 1);
    TwoRun();
    ThirdByte();
    RunByte([a, a], TWO, THREE);
    assert [a, a] + [a] == [a, a, a];
  }

  lemma FillRun()
    ensures Run(2, [Alloc(1, 1), Alloc(1, 1), Alloc(1, 1), Alloc(1, 1)]) == Reached(FOUR)
  {
    var a := Alloc(1, 1);
    ThreeRun();
    FourthByte();
    RunByte([a, a, a], THREE, FOUR);
    assert [a, a, a] + [a] == [a, a, a, a];
  }

  lemma FourIsLive()
    ensures 4 in Live(FOUR)
  {
    assert 4 in FOUR.blocks && FOUR.blocks[4] == Allocated;
  }

  lemma SevenIsLive()
    ensures 7 in Live(FIRST_FREED)
  {
    assert 7 in FIRST_FREED.blocks && FIRST_FREED.blocks[7] == Allocated;
  }

  lemma FreeFirstRun()
    ensures var a := Alloc(1, 1); Run(2, [a, a, a, a, Dealloc(0)]) == Reached(FIRST_FREED)
  {
    var a := Alloc(1, 1);
    FillRun();
    FreeFirst();
    FourIsLive();
    Offset4();
    RunFree([a, a, a, a], FOUR, 4, 0, FIRST_FREED);
    assert [a, a, a, a] + [Dealloc(0)] == [a, a, a, a, Dealloc(0)];
  }

  lemma FragmentedRun()
    ensures var a := Alloc(1, 1);
            Run(2, [a, a, a, a, Dealloc(0), Dealloc(3)]) == Reached(FRAGMENTED)
  {
    var a := Alloc(1, 1);
    FreeFirstRun();
    FreeLast();
    SevenIsLive();
    Offset7();
    RunFree([a, a, a, a, Dealloc(0)], FIRST_FREED, 7, 3, FRAGMENTED);
    assert [a, a, a, a, Dealloc(0)] + [Dealloc(3)] == [a, a, a, a, Dealloc(0), Dealloc(3)];
  }

  /**
   Four one-byte allocations, then freeing offsets 0 and 3, lead to FRAGMENTED. One byte at an even
   offset is then refused although offset 0 is free: only the head of each list is looked at.
   */
  lemma AlignedRequestCanBeRefused()
    ensures var a := Alloc(1, 1);
            Run(2, [a, a, a, a, Dealloc(0), Dealloc(3)]) == Reached(FRAGMENTED)
    ensures Inv(FRAGMENTED) && IsPowerOfTwo(2)
    ensures Allocate(FRAGMENTED, 1, 2).1 == Refused
    ensures IsFreeAtLevel(FRAGMENTED, 4, 2) && Level(4) == 2
    ensures Offset(2, 4) % 2 == 0 && Size(2, 4) == 1
  {
    FragmentedRun();
    BitAndZeroPowerOfTwo(2);
    Offset4();
    Size4();
    FragmentedRefuses();
  }

  lemma FragmentedRefuses()
    requires Inv(FRAGMENTED)
    ensures Allocate(FRAGMENTED, 1, 2).1 == Refused
  {
    Offset7();
    OneByteLevel();
    GrantedIffHeadAligned(FRAGMENTED, 1, 2);
    forall l: nat | l <= 2
      ensures !HeadAligned(FRAGMENTED, l, 2)
    {
      assert FRAGMENTED.free[l] == if l == 2 then [7, 4] else [];
    }
  }

  /** Three bytes are granted a block of two: the level of a size is rounded towards smaller blocks. */
  lemma ThreeBytesGetTwo()
    ensures Inv(Initial(2))
    ensures var r := Allocate(Initial(2), 3, 1).1;
            r.Granted? && Level(r.block) <= 2 && Size(2, r.block) == 2
  {
    var s := Initial(2);
    InitialInv(2);
    ThreeBytesLevel();
    assert IsFreeAtLevel(s, 1, 0);
    assert SomethingFits(s, 1);
    BitAndZeroPowerOfTwo(1);
    RefusedIffNothingFits(s, 3, 1);
    GrantedSize(s, 3, 1);
  }

  lemma ThreeBytesLevel()
    ensures Pow2(2) == 4 && Log2(3) == 1 && LevelFor(2, 3) == 1 && Pow2(1) == 2
  {
    assert Log2(1) == 0;
  }
}
