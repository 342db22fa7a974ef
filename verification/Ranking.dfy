/** Ranks in a finite set under a strict total order: the arithmetic that turns
    "how many smaller elements" into slots of an array. */
module Ranking {

  ghost predicate StrictTotal(X: set<int>, lt: (int, int) -> bool) {
    && (forall x :: x in X ==> !lt(x, x))
    && (forall x, y :: x in X && y in X && x != y ==> lt(x, y) || lt(y, x))
    && (forall x, y, z :: x in X && y in X && z in X && lt(x, y) && lt(y, z) ==> lt(x, z))
  }

  /** The elements of X below x. */
  ghost function Below(X: set<int>, lt: (int, int) -> bool, x: int): set<int> {
    set y | y in X && lt(y, x)
  }

  ghost function Rank(X: set<int>, lt: (int, int) -> bool, x: int): nat {
    |Below(X, lt, x)|
  }

  lemma SubsetSize(A: set<int>, B: set<int>)
    requires A <= B
    ensures |A| <= |B|
    ensures A != B ==> |A| < |B|
  {
    assert |B| == |A| + |B - A| by { assert B == A + (B - A); }
    assert A != B ==> B - A != {};
  }

  lemma RankMonotone(X: set<int>, lt: (int, int) -> bool, x: int, y: int)
    requires StrictTotal(X, lt) && x in X && y in X && lt(x, y)
    ensures Rank(X, lt, x) < Rank(X, lt, y)
  {
    assert x in Below(X, lt, y) && x !in Below(X, lt, x);
    forall z | z in Below(X, lt, x) ensures z in Below(X, lt, y) {
      assert lt(z, x) && lt(x, y);
    }
    SubsetSize(Below(X, lt, x), Below(X, lt, y));
  }

  lemma RankBound(X: set<int>, lt: (int, int) -> bool, x: int)
    requires StrictTotal(X, lt) && x in X
    ensures Rank(X, lt, x) < |X|
  {
    assert x !in Below(X, lt, x);
    SubsetSize(Below(X, lt, x), X);
  }

  lemma Pick<T>(X: set<T>) returns (x: T)
    requires X != {}
    ensures x in X
  {
    x :| x in X;
  }

  lemma {:induction false} HasMaximum(X: set<int>, lt: (int, int) -> bool) returns (m: int)
    requires StrictTotal(X, lt) && X != {}
    ensures m in X && forall y :: y in X && y != m ==> lt(y, m)
    decreases |X|
  {
    m := Pick(X);
    if X != {m} {
      SubsetSize(X - {m}, X);
      var m' := HasMaximum(X - {m}, lt);
      if lt(m, m') { m := m'; }
    }
  }

  /** Every rank below |X| is taken. */
  lemma {:induction false} RankOnto(X: set<int>, lt: (int, int) -> bool, k: nat) returns (x: int)
    requires StrictTotal(X, lt) && k < |X|
    ensures x in X && Rank(X, lt, x) == k
    decreases |X|
  {
    var m := HasMaximum(X, lt);
    if k == |X| - 1 {
      x := m;
      assert Below(X, lt, m) == X - {m};
    } else {
      x := RankOnto(X - {m}, lt, k);
      assert Below(X - {m}, lt, x) == Below(X, lt, x) by { assert !lt(m, x); }
    }
  }

  /** A duplicate-free sequence inside a finite set is no longer than the set. */
  lemma {:induction false} DistinctInSet(s: seq<int>, X: set<int>)
    requires forall a :: 0 <= a < |s| ==> s[a] in X
    requires forall a, b :: 0 <= a < b < |s| ==> s[a] != s[b]
    ensures |s| <= |X|
    ensures |s| == |X| ==> forall x :: x in X ==> x in s
  {
    if |s| > 0 {
      var l := s[|s| - 1];
      DistinctInSet(s[..|s| - 1], X - {l});
      assert |X - {l}| == |X| - 1;
      if |s| == |X| {
        forall x | x in X ensures x in s {
          if x != l { assert x in s[..|s| - 1]; }
        }
      }
    }
  }

  lemma {:induction false} RangeSize(n: nat) returns (X: set<int>)
    ensures (forall x :: x in X <==> 0 <= x < n) && |X| == n
  {
    X := {};
    if n > 0 {
      var Y := RangeSize(n - 1);
      X := Y + {n - 1};
    }
  }

  /** Pigeonhole: n distinct numbers below n are all the numbers below n. */
  lemma Pigeonhole(s: seq<int>)
    requires forall a :: 0 <= a < |s| ==> 0 <= s[a] < |s|
    requires forall a, b :: 0 <= a < b < |s| ==> s[a] != s[b]
    ensures forall x :: 0 <= x < |s| ==> x in s
  {
    var X := RangeSize(|s|);
    DistinctInSet(s, X);
  }
}
