/** What sais_main does before LMSsort2: the first seed of every bucket is marked, and the
    table D is cleared. */
module SeedMarks {
  import opened Suffixes
  import opened Ranking
  import opened Buckets
  import opened InducedOrder
  import opened InducedSlots
  import opened Seeding
  import opened LmsSort
  import opened LmsLabels
  import opened LmsFlags
  import opened LmsSort2

  /** Different slots from a range are no more than the range is long. */
  lemma {:induction false} FitsRange(X: set<int>, seed: seq<int>, a: int, e: int, p: int)
    requires p in X && forall q :: q in X ==> 0 <= q < |seed| && a <= seed[q] < e
    requires forall q, r :: q in X && r in X && q != r ==> seed[q] != seed[r]
    ensures |X| <= e - a
    decreases e - a
  {
    if q :| q in X && seed[q] == e - 1 {
      var Y := X - {q};
      assert |Y| == |X| - 1;
      if Y != {} {
        var r := Pick(Y);
        FitsRange(Y, seed, a, e - 1, r);
      }
    } else {
      FitsRange(X, seed, a, e - 1, p);
    }
  }

  /** The lowest slot of the seeds of a bucket. */
  ghost function SeedStart(T: Text, lo: nat, c: int): int {
    Start(T, c + 1) - |SeedsOf(T, lo, c)|
  }

  /** It is taken by one of them. */
  lemma SeedSlot(T: Text, lo: nat, seed: seq<int>, c: int) returns (p: int)
    requires SeedsOk(T, lo, seed) && SeedsOf(T, lo, c) != {}
    ensures IsSeed(T, lo, p) && T[p] == c && seed[p] == SeedStart(T, lo, c)
  {
    hide IsS, IsLms, Start;
    var X := SeedsOf(T, lo, c);
    var a, e := SeedStart(T, lo, c), Start(T, c + 1);
    if q :| q in X && seed[q] == a {
      p := q;
    } else {
      var q := Pick(X);
      FitsRange(X, seed, a + 1, e, q);
      p := q;
      assert false;
    }
  }

  lemma SeedFrom(T: Text, lo: nat, seed: seq<int>, p: int)
    requires SeedsOk(T, lo, seed) && IsSeed(T, lo, p)
    ensures p in SeedsOf(T, lo, T[p]) && SeedStart(T, lo, T[p]) <= seed[p]
  {
    hide IsS, IsLms, Start;
  }

  /** How the first scan sees the slot of a seed. */
  lemma SeedReads(T: Text, seed: seq<int>, P: Plan, p: int)
    requires SeededPlan(T, seed, P) && IsSeed(T, P.lo, p)
    ensures 0 < P.lo < p < |T| && Shape(T, P) && 0 <= P.src[p] < |T| && P.occ[P.src[p]] == p && P.src[p] == seed[p]
    ensures ReadsL(T, P)[P.src[p]] && !KeepsL(T, P)[P.src[p]] && LabelsL(T, P)[P.src[p]] == [T[p]]
  {
    hide LContiguous, LOrdered, SPlan, SlotsFollow, SeedsOk;
    assert InFirstPass(T, P.lo, p);
  }

  /** The first scan reads the label of a seed only from seeds with its character. */
  lemma SeedLabel(T: Text, seed: seq<int>, P: Plan, r: int, c: nat)
    requires SeededPlan(T, seed, P) && Shape(T, P) && 0 <= r < |T| && ReadsL(T, P)[r] && LabelsL(T, P)[r] == [c]
    ensures IsSeed(T, P.lo, P.occ[r]) && T[P.occ[r]] == c && P.src[P.occ[r]] == r
  {
    hide SeededPlan, LPlan, SPlan, FromLms, ReadsL, KeepsL, LabelsL, IsS, IsLms;
    PlanParts(T, seed, P);
    SlotReadL(T, P, r);
    var y := P.occ[r];
    ReadLabelShape(T, y);
    FirstPassTypes(T, P.lo, y);
  }

  /** A seed starts its class exactly if it has the lowest slot. */
  lemma SeedFlag(T: Text, seed: seq<int>, P: Plan, p: int)
    requires SeededPlan(T, seed, P) && IsSeed(T, P.lo, p)
    ensures Shape(T, P) && 0 <= P.src[p] < |T| && 0 <= P.lo < p < |T|
    ensures FlagL(T, P, P.src[p]) <==> P.src[p] == SeedStart(T, P.lo, T[p])
  {
    hide SeededPlan, LPlan, SPlan, FromLms, IsS, IsLms, ReadsL, KeepsL, LabelsL, SeedStart, SeedsOk, IsSeed, SeedsOf;
    PlanParts(T, seed, P);
    SeedReads(T, seed, P, p);
    SeedFrom(T, P.lo, seed, p);
    var q := SeedSlot(T, P.lo, seed, T[p]);
    SeedReads(T, seed, P, q);
    if P.src[p] == SeedStart(T, P.lo, T[p]) {
      forall r | 0 <= r < P.src[p] && ReadsL(T, P)[r] ensures LabelsL(T, P)[r] != LabelsL(T, P)[P.src[p]] {
        if LabelsL(T, P)[r] == LabelsL(T, P)[P.src[p]] {
          SeedLabel(T, seed, P, r, T[p]);
          SeedFrom(T, P.lo, seed, P.occ[r]);
          SeedReads(T, seed, P, P.occ[r]);
        }
      }
    }
  }

  /** The marks of the buckets below c are set. */
  ghost predicate MarkedBelow(T: Text, P: Plan, cells: seq<int>, SA: seq<int>, c: int)
    requires Shape(T, P)
  {
    && |SA| == |cells| >= |T| && SA[|T|..] == cells[|T|..]
    && forall r :: 0 <= r < |T| ==>
         SA[r] == Mark(|T|, cells[r], cells[r] != 0 && FlagL(T, P, r) && 0 <= P.occ[r] < |T| && T[P.occ[r]] < c)
  }

  lemma MarkedStart(T: Text, P: Plan, cells: seq<int>)
    requires Shape(T, P) && |cells| >= |T|
    ensures MarkedBelow(T, P, cells, cells, 0)
  {
    hide FlagL;
  }

  lemma MarkedAll(T: Text, seed: seq<int>, P: Plan, cells: seq<int>, SA: seq<int>, k: int)
    requires Shape(T, P) && SeedsPlaced(T, P, cells) && MarkedBelow(T, P, cells, SA, k) && Alphabet(T, k)
    ensures MarkedL(T, P, cells, SA)
  {
    hide FlagL, IsS, IsLms;
  }

  /** What the loop does for bucket c. */
  lemma MarkedNext(T: Text, seed: seq<int>, P: Plan, cells: seq<int>, SA: seq<int>, c: nat)
    requires SeededPlan(T, seed, P) && Shape(T, P) && SeedsPlaced(T, P, cells) && MarkedBelow(T, P, cells, SA, c) && 0 <= P.lo
    ensures SeedsOf(T, P.lo, c) == {} ==> MarkedBelow(T, P, cells, SA, c + 1)
    ensures SeedsOf(T, P.lo, c) != {} ==>
      var b := SeedStart(T, P.lo, c);
      0 <= b < |T| <= |SA| && SA[b] > 0 && MarkedBelow(T, P, cells, SA[b := SA[b] + |T|], c + 1)
  {
    hide SeededPlan, FlagL, IsS, SeedStart, SeedsOf, SeedsOk, IsSeed, LPlan, SPlan, FromLms;
    PlanParts(T, seed, P);
    var b := SeedStart(T, P.lo, c);
    if SeedsOf(T, P.lo, c) != {} {
      var p := SeedSlot(T, P.lo, seed, c);
      SeedReads(T, seed, P, p);
      SeedFlag(T, seed, P, p);
    }
    forall r | 0 <= r < |T| && IsSeed(T, P.lo, P.occ[r])
      ensures 0 <= P.occ[r] < |T| && (T[P.occ[r]] == c ==> SeedsOf(T, P.lo, c) != {} && (FlagL(T, P, r) <==> r == b))
    {
      var q := P.occ[r];
      SeedFlag(T, seed, P, q);
      SeedFrom(T, P.lo, seed, q);
      TakenBySeed(T, seed, P, r);
    }
  }

  lemma TakenBySeed(T: Text, seed: seq<int>, P: Plan, r: int)
    requires SeededPlan(T, seed, P) && Shape(T, P) && 0 <= r < |T| && IsSeed(T, P.lo, P.occ[r])
    ensures 0 <= P.occ[r] < |T| && P.src[P.occ[r]] == r
  {
    hide IsS, IsLms, LContiguous, LOrdered, SPlan, SlotsFollow, SeedsOk;
  }

  /** The bucket ends after the seeding. */
  ghost predicate SeededEnds(T: Text, B: seq<int>, lo: nat) {
    forall c :: 0 <= c < |B| ==> B[c] == Start(T, c + 1) - SeenLms(T, lo, c)
  }

  lemma EndsOfSeeding(T: Text, seed: seq<int>, B: seq<int>, cells: seq<int>, lo: nat, b: int)
    requires SeedingState(T, seed, B, cells, lo, b)
    ensures SeededEnds(T, B, lo)
  {
  }

  lemma StartsOfSeeds(T: Text, B: seq<int>, lo: nat)
    requires SeededEnds(T, B, lo) && lo < |T| && T[lo] < |B|
    ensures forall c :: 0 <= c < |B| ==> B[T[lo] := B[T[lo]] + 1][c] == SeedStart(T, lo, c)
  {
    hide Start, SeedsOf;
  }

  lemma NoSeedsIff(T: Text, lo: nat, c: int)
    ensures SeedStart(T, lo, c) == Start(T, c + 1) <==> SeedsOf(T, lo, c) == {}
  {
    hide Start;
  }

  /** Mark the first seed of every bucket, and clear D. */
  method MarkSeeds(T: Text, SA: array<int>, C: array<int>, B: array<int>, D: array<int>, lo: nat, ghost seed: seq<int>, ghost P: Plan)
    requires |T| <= SA.Length && SA != B && SA != C && SA != D && B != C && B != D && C != D
    requires 0 < B.Length == C.Length && D.Length == 2 * B.Length && Alphabet(T, B.Length) && Counts(T, C[..], C.Length)
    requires SeededPlan(T, seed, P) && Shape(T, P) && P.lo == lo && lo < |T| && SeedsPlaced(T, P, SA[..]) && SeededEnds(T, B[..], lo)
    modifies SA, B, D
    ensures MarkedL(T, P, old(SA[..]), SA[..]) && forall t :: 0 <= t < D.Length ==> D[t] == 0
  {
    hide SeededPlan, MarkedBelow, MarkedL, SeedsPlaced, SeededEnds, SeedStart, Start, SeedsOf, IsS, Shape, Mark, FlagL;
    ghost var cells := SA[..];
    var k := B.Length;
    StartsOfSeeds(T, B[..], lo);
    B[T[lo]] := B[T[lo]] + 1;
    MarkedStart(T, P, cells);
    StartEmpty(T);
    var j := 0;
    for i := 0 to k
      invariant j == Start(T, i) && MarkedBelow(T, P, cells, SA[..], i)
      invariant forall c :: 0 <= c < k ==> B[c] == SeedStart(T, lo, c)
      invariant forall t :: 0 <= t < i || k <= t < k + i ==> D[t] == 0
    {
      BucketSize(T, i);
      NoSeedsIff(T, lo, i);
      MarkedNext(T, seed, P, cells, SA[..], i);
      j := j + C[i];
      if B[i] != j { SA[B[i]] := SA[B[i]] + |T|; }
      D[i], D[i + k] := 0, 0;
    }
    MarkedAll(T, seed, P, cells, SA[..], k);
  }
}
