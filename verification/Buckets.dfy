/** Bucket tables: a bucket is the run of slots that the suffixes with one first
    character take in the suffix array. */
module Buckets {
  import opened Suffixes
  import opened Ranking

  /** Positions whose character is below c. */
  ghost function CharsBelow(T: Text, c: int): set<int> {
    set i | 0 <= i < |T| && T[i] < c
  }

  ghost function WithChar(T: Text, c: int): set<int> {
    set i | 0 <= i < |T| && T[i] == c
  }

  /** First slot of bucket c; Start(T, c + 1) is one past its last slot. */
  ghost function Start(T: Text, c: int): nat {
    |CharsBelow(T, c)|
  }

  lemma BucketSize(T: Text, c: int)
    ensures Start(T, c + 1) == Start(T, c) + |WithChar(T, c)|
  {
    assert CharsBelow(T, c + 1) == CharsBelow(T, c) + WithChar(T, c);
  }

  lemma StartMonotone(T: Text, c: int, d: int)
    requires c <= d
    ensures Start(T, c) <= Start(T, d)
  {
    SubsetSize(CharsBelow(T, c), CharsBelow(T, d));
  }

  lemma StartAtMost(T: Text, c: int)
    ensures Start(T, c) <= |T|
  {
    var X := RangeSize(|T|);
    SubsetSize(CharsBelow(T, c), X);
  }

  lemma StartEmpty(T: Text)
    ensures Start(T, 0) == 0
  {
    assert CharsBelow(T, 0) == {};
  }

  ghost predicate Alphabet(T: Text, k: int) {
    forall i :: 0 <= i < |T| ==> T[i] < k
  }

  /** C holds, for every character, how often it occurs. */
  ghost predicate Counts(T: Text, C: seq<int>, k: nat) {
    |C| >= k && forall c :: 0 <= c < k ==> C[c] == |WithChar(T, c)|
  }

  /** B holds the first slot of every bucket. */
  ghost predicate Starts(T: Text, B: seq<int>, k: nat) {
    |B| >= k && forall c :: 0 <= c < k ==> B[c] == Start(T, c)
  }

  /** B holds one past the last slot of every bucket. */
  ghost predicate Ends(T: Text, B: seq<int>, k: nat) {
    |B| >= k && forall c :: 0 <= c < k ==> B[c] == Start(T, c + 1)
  }

  /** Positions below m whose character is c. */
  ghost function SeenWithChar(T: Text, m: int, c: int): set<int> {
    set i | 0 <= i < m && i < |T| && T[i] == c
  }

  lemma SeenStep(T: Text, m: nat, c: int)
    requires m < |T|
    ensures |SeenWithChar(T, m + 1, c)| == |SeenWithChar(T, m, c)| + if T[m] == c then 1 else 0
  {
    if T[m] == c {
      assert SeenWithChar(T, m + 1, c) == SeenWithChar(T, m, c) + {m};
    } else {
      assert SeenWithChar(T, m + 1, c) == SeenWithChar(T, m, c);
    }
  }

  method GetCounts(T: Text, C: array<int>, k: nat)
    requires k <= C.Length && Alphabet(T, k)
    modifies C
    ensures Counts(T, C[..], k)
  {
    for i := 0 to k
      invariant forall c :: 0 <= c < i ==> C[c] == 0
    {
      C[i] := 0;
    }
    assert forall c :: SeenWithChar(T, 0, c) == {};
    for i := 0 to |T|
      invariant forall c :: 0 <= c < k ==> C[c] == |SeenWithChar(T, i, c)|
    {
      forall c | 0 <= c < k
        ensures |SeenWithChar(T, i + 1, c)| == |SeenWithChar(T, i, c)| + if T[i] == c then 1 else 0
      {
        SeenStep(T, i, c);
      }
      C[T[i]] := C[T[i]] + 1;
    }
    assert forall c :: SeenWithChar(T, |T|, c) == WithChar(T, c);
  }

  /** C and B may be the same array; then the counts are lost. */
  method GetBuckets(ghost T: Text, C: array<int>, B: array<int>, k: nat, end: bool)
    requires k <= C.Length && k <= B.Length && Counts(T, C[..], k)
    modifies B
    ensures if end then Ends(T, B[..], k) else Starts(T, B[..], k)
    ensures C != B ==> Counts(T, C[..], k)
  {
    var sum := 0;
    StartEmpty(T);
    for i := 0 to k
      invariant sum == Start(T, i)
      invariant forall c :: i <= c < k ==> C[c] == |WithChar(T, c)|
      invariant C != B ==> forall c :: 0 <= c < k ==> C[c] == |WithChar(T, c)|
      invariant end ==> forall c :: 0 <= c < i ==> B[c] == Start(T, c + 1)
      invariant !end ==> forall c :: 0 <= c < i ==> B[c] == Start(T, c)
    {
      BucketSize(T, i);
      sum := sum + C[i];
      B[i] := if end then sum else sum - C[i];
    }
  }
}
