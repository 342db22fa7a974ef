/** Stage 1 of sais_main, up to the sorting: every LMS position but the leftmost is put
    at the end of its bucket. */
module Seeding {
  import opened Suffixes
  import opened Ranking
  import opened Buckets
  import opened InducedOrder
  import opened InducedSlots
  import opened LmsScan

  /** How many LMS positions from last on have character c. */
  ghost function SeenLms(T: Text, last: nat, c: int): nat {
    |SeedsOf(T, last, c)| + if last < |T| && T[last] == c then 1 else 0
  }

  /** Every non-zero cell holds p - d for the LMS position p, right of lo, whose slot it is;
      every such position is in its slot. */
  ghost predicate Seeded(T: Text, lo: nat, seed: seq<int>, cells: seq<int>, d: int) {
    && |seed| == |T| <= |cells|
    && (forall p :: IsSeed(T, lo, p) ==> 0 <= seed[p] < |T| && cells[seed[p]] == p - d)
    && (forall r :: 0 <= r < |T| && cells[r] != 0 ==> IsSeed(T, lo, cells[r] + d) && seed[cells[r] + d] == r)
  }

  /** The state of the seeding scan: last is the leftmost LMS position seen, its slot is
      reserved but not yet written. */
  ghost predicate SeedingState(T: Text, seed: seq<int>, B: seq<int>, cells: seq<int>, last: nat, b: int) {
    && last <= |T| == |seed| && Alphabet(T, |B|)
    && (last < |T| ==> IsLms(T, last) && b == seed[last] == B[T[last]])
    && (forall c :: 0 <= c < |B| ==> B[c] == Start(T, c + 1) - SeenLms(T, last, c))
    && SeedsOk(T, last, seed) && Seeded(T, last, seed, cells, 1)
  }

  /** p and last are consecutive LMS positions. */
  ghost predicate Adjacent(T: Text, p: nat, last: nat) {
    && p < last <= |T| && (last < |T| ==> IsLms(T, last))
    && forall x :: p < x < last ==> !IsLms(T, x)
  }

  lemma SeedStep(T: Text, p: nat, last: nat, q: int)
    requires Adjacent(T, p, last)
    ensures IsSeed(T, p, q) <==> IsSeed(T, last, q) || (q == last && last < |T|)
  {
  }

  lemma IsSeedOf(T: Text, lo: nat, c: int, q: int)
    ensures q in SeedsOf(T, lo, c) <==> IsSeed(T, lo, q) && T[q] == c
  {
    hide IsLms;
  }

  /** The seeds of one bucket, when one more position is taken in. */
  lemma SeedsOfStep(T: Text, p: nat, last: nat, c: int)
    requires Adjacent(T, p, last)
    ensures |SeedsOf(T, p, c)| == SeenLms(T, last, c)
  {
    hide IsS, IsLms, Adjacent, SeedsOf;
    var X, Y := SeedsOf(T, p, c), SeedsOf(T, last, c);
    forall q ensures q in X <==> q in Y || (q == last && last < |T| && T[last] == c) {
      SeedStep(T, p, last, q);
      IsSeedOf(T, p, c, q);
      IsSeedOf(T, last, c, q);
    }
    IsSeedOf(T, last, c, last);
    if last < |T| && T[last] == c { assert X == Y + {last}; } else { assert X == Y; }
  }

  lemma SeedsRange(T: Text, lo: nat)
    ensures forall q :: IsSeed(T, lo, q) ==> lo < q < |T|
  {
  }

  lemma SeenAtMost(T: Text, p: nat, c: int)
    ensures SeenLms(T, p, c) <= |WithChar(T, c)|
  {
    SeedsRange(T, p);
    hide IsSeed;
    var X := SeedsOf(T, p, c) + if p < |T| && T[p] == c then {p} else {};
    SubsetSize(X, WithChar(T, c));
  }

  /** The slot reserved last is in its bucket. */
  lemma ReservedInBucket(T: Text, seed: seq<int>, B: seq<int>, cells: seq<int>, last: nat, b: int)
    requires SeedingState(T, seed, B, cells, last, b) && last < |T|
    ensures b == seed[last] == Start(T, T[last] + 1) - SeenLms(T, last, T[last])
    ensures Start(T, T[last]) <= b < Start(T, T[last] + 1) && 0 <= b < |T|
  {
    var c := T[last];
    hide IsS, IsLms, Start, SeedsOf;
    SeenAtMost(T, last, c);
    BucketSize(T, c);
    StartAtMost(T, c + 1);
  }

  lemma SeedBounds(T: Text, lo: nat, seed: seq<int>, q: int)
    requires SeedsOk(T, lo, seed) && IsSeed(T, lo, q)
    ensures lo < q < |T| == |seed|
    ensures Start(T, T[q]) <= seed[q] < Start(T, T[q] + 1) <= |T|
    ensures Start(T, T[q] + 1) - |SeedsOf(T, lo, T[q])| <= seed[q]
  {
    SeedInBucket(T, lo, seed, q);
  }

  lemma SlotsApart(T: Text, last: nat, c: int, d: int, b: int, x: int)
    requires Start(T, c) <= b < Start(T, c + 1) && b == Start(T, c + 1) - |SeedsOf(T, last, c)| - 1
    requires Start(T, d) <= x < Start(T, d + 1) && Start(T, d + 1) - |SeedsOf(T, last, d)| <= x
    ensures x != b
  {
    if c < d { StartMonotone(T, c + 1, d); }
    if d < c { StartMonotone(T, d + 1, c); }
  }

  lemma SeedsSoFar(T: Text, seed: seq<int>, B: seq<int>, cells: seq<int>, last: nat, b: int)
    requires SeedingState(T, seed, B, cells, last, b)
    ensures SeedsOk(T, last, seed)
  {
  }

  /** It differs from all slots given before. */
  lemma ReservedIsFree(T: Text, seed: seq<int>, B: seq<int>, cells: seq<int>, last: nat, b: int, q: int)
    requires SeedingState(T, seed, B, cells, last, b) && last < |T| && IsSeed(T, last, q)
    ensures seed[q] != b
  {
    hide IsS, IsLms, Start, SeedsOf, SeedingState, SeedsOk, IsSeed;
    SeedsSoFar(T, seed, B, cells, last, b);
    SeedBounds(T, last, seed, q);
    ReservedInBucket(T, seed, B, cells, last, b);
    SlotsApart(T, last, T[last], T[q], b, seed[q]);
  }

  /** Writing the pending position completes the seeds right of p. */
  lemma SeedsComplete(T: Text, seed: seq<int>, B: seq<int>, cells: seq<int>, last: nat, b: int, p: nat)
    requires SeedingState(T, seed, B, cells, last, b) && Adjacent(T, p, last)
    ensures SeedsOk(T, p, seed)
  {
    forall q | IsSeed(T, p, q)
      ensures Start(T, T[q] + 1) - |SeedsOf(T, p, T[q])| <= seed[q] < Start(T, T[q] + 1)
    {
      SeedStep(T, p, last, q);
      SeedsOfStep(T, p, last, T[q]);
      if q == last { ReservedInBucket(T, seed, B, cells, last, b); }
    }
    forall q, r | IsSeed(T, p, q) && IsSeed(T, p, r) && q != r ensures seed[q] != seed[r] {
      SeedStep(T, p, last, q);
      SeedStep(T, p, last, r);
      if q == last { ReservedIsFree(T, seed, B, cells, last, b, r); }
      if r == last { ReservedIsFree(T, seed, B, cells, last, b, q); }
    }
  }

  lemma SeededSoFar(T: Text, seed: seq<int>, B: seq<int>, cells: seq<int>, last: nat, b: int)
    requires SeedingState(T, seed, B, cells, last, b)
    ensures |seed| == |T| && last <= |T| && Seeded(T, last, seed, cells, 1) && Alphabet(T, |B|) && |cells| >= |T|
    ensures last < |T| ==> IsLms(T, last) && seed[last] == b
  {
  }

  /** The entries after the pending position was written. */
  ghost function Written(T: Text, cells: seq<int>, last: int, b: int): seq<int> {
    if last < |T| && 0 <= b < |cells| then cells[b := last - 1] else cells
  }

  lemma SeededWrite(T: Text, seed: seq<int>, cells: seq<int>, last: nat, b: int, p: nat)
    requires Seeded(T, last, seed, cells, 1) && Adjacent(T, p, last) && 0 < p
    requires last < |T| ==> 0 <= b < |T| && seed[last] == b
    requires last < |T| ==> forall q :: IsSeed(T, last, q) ==> 0 <= q < |T| && seed[q] != b
    ensures Seeded(T, p, seed, Written(T, cells, last, b), 1)
  {
    SeedsRange(T, p);
    SeedsRange(T, last);
    forall q ensures IsSeed(T, p, q) <==> IsSeed(T, last, q) || (q == last && last < |T|) {
      SeedStep(T, p, last, q);
    }
    hide IsS, IsLms, IsSeed, Adjacent;
  }

  lemma CellsComplete(T: Text, seed: seq<int>, B: seq<int>, cells: seq<int>, last: nat, b: int, p: nat)
    requires SeedingState(T, seed, B, cells, last, b) && Adjacent(T, p, last) && IsLms(T, p)
    ensures Seeded(T, p, seed, Written(T, cells, last, b), 1)
  {
    assert |seed| == |T|;
    hide IsS, IsLms, Start, SeedingState, IsSeed, Adjacent, Seeded;
    SeededSoFar(T, seed, B, cells, last, b);
    LmsPositive(T, p);
    SeedsRange(T, last);
    if last < |T| {
      ReservedInBucket(T, seed, B, cells, last, b);
      forall q | IsSeed(T, last, q) ensures seed[q] != b {
        ReservedIsFree(T, seed, B, cells, last, b, q);
      }
    }
    SeededWrite(T, seed, cells, last, b, p);
  }

  lemma LmsPositive(T: Text, p: nat)
    requires p <= |T| && IsLms(T, p)
    ensures 0 < p && p + 1 < |T|
  {
  }

  lemma PointersNext(T: Text, seed: seq<int>, B: seq<int>, cells: seq<int>, last: nat, b: int, p: nat)
    requires SeedingState(T, seed, B, cells, last, b) && Adjacent(T, p, last)
    ensures Alphabet(T, |B|) && T[p] < |B|
    ensures var B' := B[T[p] := B[T[p]] - 1];
      forall c :: 0 <= c < |B'| ==> B'[c] == Start(T, c + 1) - SeenLms(T, p, c)
  {
    var B' := B[T[p] := B[T[p]] - 1];
    hide IsS, IsLms, IsSeed, SeedsOf, Start;
    forall c | 0 <= c < |B'| ensures B'[c] == Start(T, c + 1) - SeenLms(T, p, c) {
      SeedsOfStep(T, p, last, c);
    }
  }

  /** Taking in the LMS position p: the pending position is written, and a slot for p is
      reserved below the ones given before in its bucket. */
  lemma SeedNext(T: Text, seed: seq<int>, B: seq<int>, cells: seq<int>, last: nat, b: int, p: nat)
    requires SeedingState(T, seed, B, cells, last, b) && Adjacent(T, p, last) && IsLms(T, p)
    ensures |seed| == |T| && T[p] < |B|
    ensures last < |T| ==> 0 <= b < |T| <= |cells|
    ensures SeedingState(T, seed[p := B[T[p]] - 1], B[T[p] := B[T[p]] - 1], Written(T, cells, last, b), p, B[T[p]] - 1)
  {
    SeededSoFar(T, seed, B, cells, last, b);
    NotOwnSeed(T, p);
    hide IsS, IsLms, Start, SeedingState, IsSeed, Adjacent, Seeded, SeedsOk, SeenLms;
    if last < |T| { ReservedInBucket(T, seed, B, cells, last, b); }
    PointersNext(T, seed, B, cells, last, b, p);
    SeedsComplete(T, seed, B, cells, last, b, p);
    CellsComplete(T, seed, B, cells, last, b, p);
    var seed', B', cells' := seed[p := B[T[p]] - 1], B[T[p] := B[T[p]] - 1], Written(T, cells, last, b);
    SeedsKeep(T, p, seed, p, B[T[p]] - 1);
    SeededKeep(T, p, seed, cells', 1, p, B[T[p]] - 1);
    SeedingHolds(T, seed', B', cells', p, B[T[p]] - 1);
  }

  lemma NotOwnSeed(T: Text, p: nat)
    ensures !IsSeed(T, p, p)
  {
  }

  lemma SeedingHolds(T: Text, seed: seq<int>, B: seq<int>, cells: seq<int>, last: nat, b: int)
    requires last < |T| == |seed| && IsLms(T, last) && Alphabet(T, |B|) && b == seed[last] == B[T[last]]
    requires forall c :: 0 <= c < |B| ==> B[c] == Start(T, c + 1) - SeenLms(T, last, c)
    requires SeedsOk(T, last, seed) && Seeded(T, last, seed, cells, 1)
    ensures SeedingState(T, seed, B, cells, last, b)
  {
  }

  lemma SeedsKeep(T: Text, lo: nat, seed: seq<int>, p: nat, v: int)
    requires SeedsOk(T, lo, seed) && p < |T| && !IsSeed(T, lo, p)
    ensures SeedsOk(T, lo, seed[p := v])
  {
    SeedsRange(T, lo);
    hide IsSeed, Start, SeedsOf;
  }

  lemma SeededKeep(T: Text, lo: nat, seed: seq<int>, cells: seq<int>, d: int, p: nat, v: int)
    requires Seeded(T, lo, seed, cells, d) && p < |T| && !IsSeed(T, lo, p)
    ensures Seeded(T, lo, seed[p := v], cells, d)
  {
    SeedsRange(T, lo);
    hide IsSeed;
  }

  lemma SeedingStart(T: Text, B: seq<int>, cells: seq<int>) returns (seed: seq<int>)
    requires Alphabet(T, |B|) && Ends(T, B, |B|)
    requires |T| <= |cells| && forall r :: 0 <= r < |T| ==> cells[r] == 0
    ensures SeedingState(T, seed, B, cells, |T|, 0)
  {
    seed := seq(|T|, _ => 0);
    SeedsRange(T, |T|);
    hide IsSeed, Start;
    assert forall c :: SeedsOf(T, |T|, c) == {};
  }

  lemma {:induction false} LmsFromSkip(T: Text, i: nat, last: nat)
    requires i <= last <= |T| && forall x :: i <= x < last ==> !IsLms(T, x)
    ensures LmsFrom(T, i) == LmsFrom(T, last)
    decreases last - i
  {
    if i < last { LmsFromSkip(T, i + 1, last); }
  }

  lemma AdjacentIs(T: Text, p: nat, last: nat)
    requires p < last <= |T| && (last < |T| ==> IsLms(T, last)) && forall x :: p < x < last ==> !IsLms(T, x)
    ensures Adjacent(T, p, last)
  {
  }

  lemma LmsFromNext(T: Text, p: nat, last: nat)
    requires Adjacent(T, p, last) && IsLms(T, p)
    ensures LmsFrom(T, p) == [p] + LmsFrom(T, last)
  {
    LmsFromSkip(T, p + 1, last);
  }

  /** The scan stands at i; the leftmost LMS position seen is last. */
  ghost predicate ScanAt(T: Text, i: int, last: nat) {
    -1 <= i < last <= |T| && forall x :: 0 <= x && i < x < last ==> !IsLms(T, x)
  }

  lemma ScanFirst(T: Text, i: int)
    requires 0 < |T| && -1 <= i < |T| - 1 && forall x :: i < x <= |T| - 1 ==> !IsS(T, x)
    ensures ScanAt(T, i, |T|)
  {
    NoLmsInL(T, i, |T| - 1);
  }

  lemma ScanFound(T: Text, i: nat, from: nat, last: nat)
    requires ScanAt(T, from, last) && i < from && IsL(T, i) && forall x :: i < x <= from ==> IsS(T, x)
    ensures IsLms(T, i + 1) && i + 1 < last && forall x :: i + 1 < x < last ==> !IsLms(T, x)
  {
    OneLmsInS(T, i, from);
  }

  lemma ScanPast(T: Text, i: int, from: nat)
    requires -1 <= i < from < |T| && forall x :: i < x <= from ==> !IsS(T, x)
    ensures ScanAt(T, i, from + 1)
  {
    NoLmsInL(T, i, from);
  }

  lemma ScanNone(T: Text, from: nat, last: nat)
    requires ScanAt(T, from, last) && forall x :: -1 < x <= from ==> IsS(T, x)
    ensures ScanAt(T, -1, last)
  {
    OneLmsInS(T, -1, from);
  }

  method ClearSlots(SA: array<int>, n: nat)
    requires n <= SA.Length
    modifies SA
    ensures forall x :: 0 <= x < n ==> SA[x] == 0
    ensures SA[n..] == old(SA[n..])
  {
    for r := 0 to n
      invariant forall x :: 0 <= x < r ==> SA[x] == 0
      invariant SA[n..] == old(SA[n..])
    {
      SA[r] := 0;
    }
  }

  /** Stage 1 of sais_main: count the LMS positions and put all but the leftmost, last, at
      the ends of their buckets; b is the slot kept for last. */
  method SeedLms(T: Text, SA: array<int>, B: array<int>) returns (m: nat, j: nat, b: int, ghost seed: seq<int>)
    requires 0 < |T| <= SA.Length && SA != B
    requires Alphabet(T, B.Length) && Ends(T, B[..], B.Length)
    modifies SA, B
    ensures m == |LmsFrom(T, 0)|
    ensures if m == 0 then j == |T| else j + 1 < |T| && IsLms(T, j + 1)
    ensures var last := if m == 0 then |T| else j + 1;
      SeedingState(T, seed, B[..], SA[..], last, b) && forall x :: 0 <= x < last ==> !IsLms(T, x)
    ensures SA[|T|..] == old(SA[|T|..])
  {
    hide SeedingState, Ends, Alphabet, IsS, IsLms, ScanAt, Adjacent;
    var n := |T|;
    ghost var rest := SA[n..];
    ClearSlots(SA, n);
    seed := SeedingStart(T, B[..], SA[..]);
    ghost var last := n;
    b, j, m := 0, n, 0;
    LastPositionIsL(T);
    var i := SkipL(T, n - 1);
    ScanFirst(T, i);
    while 0 <= i
      invariant ScanAt(T, i, last) && -1 <= i < n && (i >= 0 ==> IsS(T, i))
      invariant last <= n && m == |LmsFrom(T, last)|
      invariant if m == 0 then last == n && j == n else last == j + 1 < n && IsLms(T, last)
      invariant SeedingState(T, seed, B[..], SA[..], last, b)
      invariant SA[n..] == rest
    {
      ghost var from := i;
      i := SkipS(T, i);
      if 0 <= i {
        ScanFound(T, i, from, last);
        m, b, seed := TakeLms(T, SA, B, i, j, m, b, seed, last);
        last, j, from := i + 1, i, i;
        i := SkipL(T, i);
        ScanPast(T, i, from);
      } else {
        ScanNone(T, from, last);
      }
    }
    ScanDone(T, last);
  }

  lemma ScanDone(T: Text, last: nat)
    requires ScanAt(T, -1, last)
    ensures last <= |T| && LmsFrom(T, 0) == LmsFrom(T, last) && forall x :: 0 <= x < last ==> !IsLms(T, x)
  {
    LmsFromSkip(T, 0, last);
  }

  /** Take in the LMS position i + 1: write the pending one, whose left neighbour is j, and
      reserve a slot for the new one. */
  method TakeLms(T: Text, SA: array<int>, B: array<int>, i: nat, j: nat, m: nat, b: int, ghost seed: seq<int>, ghost last: nat)
    returns (m': nat, b': int, ghost seed': seq<int>)
    requires SA != B && |T| <= SA.Length && SeedingState(T, seed, B[..], SA[..], last, b)
    requires i + 1 < last <= |T| && IsLms(T, i + 1) && forall x :: i + 1 < x < last ==> !IsLms(T, x)
    requires m == |LmsFrom(T, last)| && if m == 0 then last == |T| else last == j + 1 < |T| && IsLms(T, last)
    modifies SA, B
    ensures SeedingState(T, seed', B[..], SA[..], i + 1, b')
    ensures m' == m + 1 == |LmsFrom(T, i + 1)|
    ensures SA[|T|..] == old(SA[|T|..])
  {
    hide SeedingState, IsS, IsLms, Adjacent;
    AdjacentIs(T, i + 1, last);
    SeedNext(T, seed, B[..], SA[..], last, b, i + 1);
    LmsFromNext(T, i + 1, last);
    ghost var cells, ptr, c := SA[..], B[..], T[i + 1];
    // the first store goes to a scratch variable
    if 0 < m { SA[b] := j; }
    assert SA[..] == Written(T, cells, last, b);
    B[T[i + 1]] := B[T[i + 1]] - 1;
    b' := B[T[i + 1]];
    assert B[..] == ptr[c := ptr[c] - 1];
    seed' := seed[i + 1 := b'];
    m' := m + 1;
  }
}
