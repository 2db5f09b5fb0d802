/** What several components share: an optional value, lists without repetition, initial sets. */
module Collections {

  datatype Option<+T> = None | Some(value: T)

  ghost predicate NoDup(q: seq<int>) {
    forall i, j :: 0 <= i < j < |q| ==> q[i] != q[j]
  }

  /** q without the first occurrence of n. */
  function Without(q: seq<int>, n: int): seq<int> {
    if q == [] then [] else if q[0] == n then q[1..] else [q[0]] + Without(q[1..], n)
  }

  lemma {:induction false} WithoutFacts(q: seq<int>, n: int)
    requires NoDup(q)
    ensures NoDup(Without(q, n))
    ensures forall m :: m in Without(q, n) <==> m in q && m != n
    ensures |Without(q, n)| == |q| - if n in q then 1 else 0
  {
    if q != [] {
      WithoutFacts(q[1..], n);
      assert q == [q[0]] + q[1..];
      if q[0] != n {
        assert q[0] !in q[1..];
      }
    }
  }

  lemma {:induction false} WithoutAt(q: seq<int>, i: nat)
    requires NoDup(q) && i < |q|
    ensures Without(q, q[i]) == q[..i] + q[i + 1..]
  {
    if i > 0 {
      WithoutAt(q[1..], i - 1);
      assert q[0] != q[i];
      assert q[1..][..i - 1] == q[1..i];
      assert [q[0]] + q[1..i] == q[..i];
    }
  }

  /** The numbers below n. */
  function Below(n: nat): (s: set<int>)
    ensures forall i {:trigger i in s} :: i in s <==> 0 <= i < n
  {
    if n == 0 then {} else Below(n - 1) + {n - 1}
  }

  lemma {:induction false} BelowCount(n: nat)
    ensures |Below(n)| == n
  {
    if n > 0 { BelowCount(n - 1); }
  }
}
