/** The Burrows-Wheeler transform of sais_bwt loses nothing: text and suffix array follow
    from the transformed text and the index. */
module BwtInverse {
  import opened Suffixes
  import opened Search
  import opened Sais

  /** What the transform says about row r: the character left of its suffix. */
  function Left(U: seq<int>, idx: int, r: int): int
    requires 0 <= r <= |U| && 0 <= idx <= |U| && r != idx
  {
    U[if r < idx then r else r - 1]
  }

  /** U and idx are the transform of T, with all suffixes in the rows. */
  ghost predicate Transformed(T: Text, rows: seq<int>, U: seq<int>, idx: int) {
    && Sorted(T, rows) && |U| == |T| && 0 <= idx <= |T| && rows[idx] == 0
    && forall r :: 0 <= r <= |T| && r != idx ==> 0 < rows[r] && Left(U, idx, r) == T[rows[r] - 1]
  }

  ghost function RowOf(T: Text, rows: seq<int>, p: int): (r: int)
    requires Sorted(T, rows) && 0 <= p <= |T|
    ensures 0 <= r <= |T| && rows[r] == p
  {
    assert p in rows;
    var r :| 0 <= r < |rows| && rows[r] == p;
    r
  }

  /** Rows are in suffix order, and only one holds a suffix. */
  lemma RowOrder(T: Text, rows: seq<int>, r: nat, s: nat)
    requires Sorted(T, rows) && r <= |T| && s <= |T|
    ensures 0 <= rows[r] <= |T| && 0 <= rows[s] <= |T|
    ensures Less(T, rows[r], rows[s]) ==> r < s
    ensures r < s ==> Less(T, rows[r], rows[s])
    ensures rows[r] == rows[s] ==> r == s
  {
    hide Less;
    LessIrreflexive(T, rows[r]);
    if s < r {
      assert Less(T, rows[s], rows[r]);
      LessTotal(T, rows[r], rows[s]);
    }
  }

  lemma FirstRow(T: Text, rows: seq<int>)
    requires Sorted(T, rows)
    ensures rows[0] == |T| && |rows| == |T| + 1
  {
  }

  /** Row r at a character c comes before row s at d. */
  predicate Precedes(c: int, r: int, d: int, s: int) {
    c < d || (c == d && r < s)
  }

  /** From a row to that of the next suffix: the order of rows is that of the characters left
      of their next suffixes, and then that of the next rows. */
  lemma NextRows(T: Text, rows: seq<int>, U: seq<int>, idx: int, k: nat, m: nat)
    requires Transformed(T, rows, U, idx) && 1 <= k < m <= |T|
    ensures 0 <= rows[k] < |T| && 0 <= rows[m] < |T|
    ensures var a, b := RowOf(T, rows, rows[k] + 1), RowOf(T, rows, rows[m] + 1);
      a != idx && b != idx && Precedes(Left(U, idx, a), a, Left(U, idx, b), b)
  {
    hide Sorted;
    FirstRow(T, rows);
    RowOrder(T, rows, 0, k);
    RowOrder(T, rows, 0, m);
    RowOrder(T, rows, k, m);
    var a, b := RowOf(T, rows, rows[k] + 1), RowOf(T, rows, rows[m] + 1);
    RowOrder(T, rows, a, b);
  }

  /** And back. */
  lemma PreviousRows(T: Text, rows: seq<int>, U: seq<int>, idx: int, a: nat, b: nat)
    requires Transformed(T, rows, U, idx) && a <= |T| && b <= |T| && a != idx && b != idx
    requires Precedes(Left(U, idx, a), a, Left(U, idx, b), b)
    ensures 0 < rows[a] <= |T| && 0 < rows[b] <= |T|
    ensures 1 <= RowOf(T, rows, rows[a] - 1) < RowOf(T, rows, rows[b] - 1)
  {
    hide Sorted;
    FirstRow(T, rows);
    RowOrder(T, rows, a, b);
    RowOrder(T, rows, 0, RowOf(T, rows, rows[a] - 1));
    RowOrder(T, rows, RowOf(T, rows, rows[a] - 1), RowOf(T, rows, rows[b] - 1));
  }

  /** Increasing numbers from 1 to their count are all the numbers in order. */
  lemma {:induction false} Increasing(h: seq<int>, i: nat)
    requires forall j :: 0 <= j < |h| ==> 1 <= h[j] <= |h|
    requires forall j, k :: 0 <= j < k < |h| ==> h[j] < h[k]
    requires i < |h|
    ensures h[i] == i + 1
  {
    AtLeast(h, i);
    AtMost(h, i);
  }

  lemma {:induction false} AtLeast(h: seq<int>, i: nat)
    requires forall j :: 0 <= j < |h| ==> 1 <= h[j]
    requires forall j, k :: 0 <= j < k < |h| ==> h[j] < h[k]
    requires i < |h|
    ensures h[i] >= i + 1
  {
    if i > 0 { AtLeast(h, i - 1); }
  }

  lemma {:induction false} AtMost(h: seq<int>, i: nat)
    requires forall j :: 0 <= j < |h| ==> h[j] <= |h|
    requires forall j, k :: 0 <= j < k < |h| ==> h[j] < h[k]
    requires i < |h|
    ensures h[i] <= i + 1
    decreases |h| - i
  {
    if i + 1 < |h| { AtMost(h, i + 1); }
  }

  lemma NextExists(T: Text, rows: seq<int>, U: seq<int>, idx: int, k: nat)
    requires Transformed(T, rows, U, idx) && 1 <= k <= |T|
    ensures |rows| == |T| + 1 && 0 <= rows[k] < |T| && RowOf(T, rows, rows[k] + 1) != idx
  {
    hide Less;
    FirstRow(T, rows);
    RowOrder(T, rows, 0, k);
  }

  /** From row k to the next suffix in one text, and back by one character in another. */
  ghost function ThereAndBack(T: Text, rows: seq<int>, T': Text, rows': seq<int>, U: seq<int>, idx: int, k: int): (r: int)
    requires Transformed(T, rows, U, idx) && Transformed(T', rows', U, idx) && 1 <= k <= |T|
  {
    NextExists(T, rows, U, idx, k);
    FirstRow(T', rows');
    RowOf(T', rows', rows'[RowOf(T, rows, rows[k] + 1)] - 1)
  }

  lemma KeepsOrder(T: Text, rows: seq<int>, T': Text, rows': seq<int>, U: seq<int>, idx: int, k: nat, m: nat)
    requires Transformed(T, rows, U, idx) && Transformed(T', rows', U, idx) && 1 <= k <= m <= |T|
    ensures 1 <= ThereAndBack(T, rows, T', rows', U, idx, k) <= |T|
    ensures k < m ==> ThereAndBack(T, rows, T', rows', U, idx, k) < ThereAndBack(T, rows, T', rows', U, idx, m)
  {
    hide Sorted;
    NextExists(T, rows, U, idx, k);
    FirstRow(T', rows');
    var a := RowOf(T, rows, rows[k] + 1);
    RowOrder(T', rows', a, a);
    RowOrder(T', rows', 0, RowOf(T', rows', rows'[a] - 1));
    if k < m {
      NextRows(T, rows, U, idx, k, m);
      PreviousRows(T', rows', U, idx, a, RowOf(T, rows, rows[m] + 1));
    }
  }

  /** With the same transform this leads to the same row, because both ways keep the order. */
  lemma SameRowAgain(T: Text, rows: seq<int>, T': Text, rows': seq<int>, U: seq<int>, idx: int, k: nat)
    requires Transformed(T, rows, U, idx) && Transformed(T', rows', U, idx) && 1 <= k <= |T|
    ensures ThereAndBack(T, rows, T', rows', U, idx, k) == k
  {
    hide Transformed, ThereAndBack;
    var h := seq(|T|, j requires 0 <= j < |T| => ThereAndBack(T, rows, T', rows', U, idx, j + 1));
    forall i, j | 0 <= i <= j < |h| ensures 1 <= h[i] <= |h| && (i < j ==> h[i] < h[j]) {
      KeepsOrder(T, rows, T', rows', U, idx, i + 1, j + 1);
    }
    Increasing(h, k - 1);
  }

  /** So every suffix is in the same row for both. */
  lemma {:induction false} SameRow(T: Text, rows: seq<int>, T': Text, rows': seq<int>, U: seq<int>, idx: int, p: nat)
    requires Transformed(T, rows, U, idx) && Transformed(T', rows', U, idx) && p <= |T|
    ensures |T'| == |T| && RowOf(T, rows, p) == RowOf(T', rows', p)
    decreases |T| - p
  {
    hide Sorted;
    FirstRow(T, rows);
    FirstRow(T', rows');
    var k := RowOf(T, rows, p);
    if p == |T| {
      RowOrder(T, rows, 0, k);
      RowOrder(T', rows', 0, RowOf(T', rows', p));
    } else {
      SameRow(T, rows, T', rows', U, idx, p + 1);
      RowOrder(T, rows, 0, k);
      SameRowAgain(T, rows, T', rows', U, idx, k);
    }
  }

  lemma SameText(T: Text, rows: seq<int>, T': Text, rows': seq<int>, U: seq<int>, idx: int)
    requires Transformed(T, rows, U, idx) && Transformed(T', rows', U, idx)
    ensures T == T'
  {
    hide Sorted;
    FirstRow(T, rows);
    forall p | 0 <= p < |T| ensures T[p] == T'[p] {
      SameRow(T, rows, T', rows', U, idx, p + 1);
      var a := RowOf(T, rows, p + 1);
      assert a != idx ==> T[p] == Left(U, idx, a);
    }
  }

  lemma TransformOf(T: Text, sa: seq<int>, U: seq<int>, idx: int)
    requires IsBwt(T, sa, U, idx)
    ensures Transformed(T, [|T|] + sa, U, idx)
  {
    hide Sorted, IsSuffixArray;
    SortedFromSuffixArray(T, sa);
    FirstRow(T, [|T|] + sa);
  }

  /** Different texts have different transforms. */
  lemma Invertible(T: Text, sa: seq<int>, T': Text, sa': seq<int>, U: seq<int>, idx: int)
    requires IsBwt(T, sa, U, idx) && IsBwt(T', sa', U, idx)
    ensures T == T'
  {
    hide IsBwt;
    TransformOf(T, sa, U, idx);
    TransformOf(T', sa', U, idx);
    SameText(T, [|T|] + sa, T', [|T'|] + sa', U, idx);
  }
}
