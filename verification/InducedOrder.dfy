/** The order in which induced sorting arranges suffixes, and the slots it leads
    to.  Both users of induced sorting are instances: sorting LMS substrings
    (seeds in any order at their bucket ends) and inducing the final suffix array
    (seeds in true suffix order).  Only positions from lo on take part; the seeds
    are the LMS positions right of lo. */
module InducedOrder {
  import opened Suffixes
  import opened Ranking
  import opened Buckets

  ghost predicate IsSeed(T: Text, lo: nat, p: int) {
    lo < p < |T| && IsLms(T, p)
  }

  ghost function SeedsOf(T: Text, lo: nat, c: int): set<int> {
    set p | lo < p < |T| && IsSeed(T, lo, p) && T[p] == c
  }

  /** seed[p] is the slot in which the LMS position p is put: the seeds of a bucket
      take its last slots, one each. */
  ghost predicate SeedsOk(T: Text, lo: nat, seed: seq<int>) {
    && |seed| == |T|
    && (forall p :: IsSeed(T, lo, p) ==>
          Start(T, T[p] + 1) - |SeedsOf(T, lo, T[p])| <= seed[p] < Start(T, T[p] + 1))
    && (forall p, q :: IsSeed(T, lo, p) && IsSeed(T, lo, q) && p != q ==> seed[p] != seed[q])
  }

  /** Compare by character, then by type, then onwards; but where both suffixes step
      from an L to an LMS position, the slots of these seeds decide. */
  ghost predicate Before(T: Text, seed: seq<int>, i: nat, j: nat)
    requires i <= |T| && j <= |T| && |seed| == |T|
    decreases |T| - i
  {
    j < |T| && (i == |T| ||
      if T[i] != T[j] then T[i] < T[j]
      else if IsS(T, i) != IsS(T, j) then IsS(T, j)
      else if IsL(T, i) && IsLms(T, i + 1) && IsLms(T, j + 1) then seed[i + 1] < seed[j + 1]
      else Before(T, seed, i + 1, j + 1))
  }

  lemma SeedsFollowCharacters(T: Text, lo: nat, seed: seq<int>, p: nat, q: nat)
    requires SeedsOk(T, lo, seed) && IsSeed(T, lo, p) && IsSeed(T, lo, q) && T[p] < T[q]
    ensures seed[p] < seed[q]
  {
    StartMonotone(T, T[p] + 1, T[q]);
    BucketSize(T, T[q]);
    SubsetSize(SeedsOf(T, lo, T[q]), WithChar(T, T[q]));
  }

  lemma {:induction false} BeforeIrreflexive(T: Text, seed: seq<int>, i: nat)
    requires |seed| == |T| && i <= |T|
    ensures !Before(T, seed, i, i)
    decreases |T| - i
  {
    if i < |T| { BeforeIrreflexive(T, seed, i + 1); }
  }

  lemma {:induction false} BeforeTotal(T: Text, lo: nat, seed: seq<int>, i: nat, j: nat)
    requires SeedsOk(T, lo, seed) && lo <= i <= |T| && lo <= j <= |T| && i != j
    ensures Before(T, seed, i, j) != Before(T, seed, j, i)
    decreases |T| - i
  {
    if i < |T| && j < |T| && T[i] == T[j] && IsS(T, i) == IsS(T, j) {
      if IsL(T, i) && IsLms(T, i + 1) && IsLms(T, j + 1) {
        assert IsSeed(T, lo, i + 1) && IsSeed(T, lo, j + 1);
      } else {
        BeforeTotal(T, lo, seed, i + 1, j + 1);
      }
    }
  }

  /** How two L positions with the same character compare, given their successors. */
  ghost predicate StepBefore(T: Text, seed: seq<int>, x: nat, y: nat)
    requires x <= |T| && y <= |T| && |seed| == |T|
  {
    if IsLms(T, x) && IsLms(T, y) then seed[x] < seed[y] else Before(T, seed, x, y)
  }

  lemma StepBeforeCharacters(T: Text, lo: nat, seed: seq<int>, x: nat, y: nat)
    requires SeedsOk(T, lo, seed) && x < |T| && y <= |T|
    requires IsL(T, x) || IsSeed(T, lo, x)
    requires y == |T| || IsL(T, y) || IsSeed(T, lo, y)
    requires StepBefore(T, seed, x, y)
    ensures y < |T| && T[x] <= T[y]
    ensures T[x] == T[y] && IsLms(T, x) ==> IsLms(T, y)
  {
    if IsLms(T, x) && IsLms(T, y) && T[y] < T[x] {
      SeedsFollowCharacters(T, lo, seed, y, x);
    }
  }

  lemma StepTransitive(T: Text, lo: nat, seed: seq<int>, x: nat, y: nat, z: nat)
    requires SeedsOk(T, lo, seed) && x <= |T| && y <= |T| && z <= |T|
    requires x == |T| || IsL(T, x) || IsSeed(T, lo, x)
    requires y == |T| || IsL(T, y) || IsSeed(T, lo, y)
    requires z == |T| || IsL(T, z) || IsSeed(T, lo, z)
    requires IsLms(T, x) || IsLms(T, y) || IsLms(T, z)
    requires StepBefore(T, seed, x, y) && StepBefore(T, seed, y, z)
    ensures StepBefore(T, seed, x, z)
  {
    if x < |T| {
      StepBeforeCharacters(T, lo, seed, x, y);
      StepBeforeCharacters(T, lo, seed, y, z);
      if T[x] < T[z] && IsLms(T, x) && IsLms(T, z) {
        SeedsFollowCharacters(T, lo, seed, x, z);
      }
    }
  }

  lemma BeforeCharacters(T: Text, seed: seq<int>, i: nat, j: nat)
    requires |seed| == |T| && i < |T| && j <= |T| && Before(T, seed, i, j)
    ensures j < |T| && T[i] <= T[j]
    ensures T[i] == T[j] && IsS(T, i) ==> IsS(T, j)
  {
  }

  lemma BeforeStep(T: Text, seed: seq<int>, i: nat, j: nat)
    requires |seed| == |T| && i < |T| && j < |T| && T[i] == T[j] && IsS(T, i) == IsS(T, j)
    ensures Before(T, seed, i, j) == if IsL(T, i) then StepBefore(T, seed, i + 1, j + 1) else Before(T, seed, i + 1, j + 1)
  {
  }

  lemma BeforeDiffer(T: Text, seed: seq<int>, i: nat, j: nat)
    requires |seed| == |T| && i < |T| && j < |T|
    requires T[i] < T[j] || (T[i] == T[j] && IsL(T, i) && IsS(T, j))
    ensures Before(T, seed, i, j)
  {
  }

  lemma {:induction false} BeforeTransitive(T: Text, lo: nat, seed: seq<int>, i: nat, j: nat, k: nat)
    requires SeedsOk(T, lo, seed) && lo <= i <= |T| && lo <= j <= |T| && lo <= k <= |T|
    requires Before(T, seed, i, j) && Before(T, seed, j, k)
    ensures Before(T, seed, i, k)
    decreases |T| - i
  {
    hide IsS, IsLms;
    if i < |T| {
      BeforeCharacters(T, seed, i, j);
      BeforeCharacters(T, seed, j, k);
      if T[i] == T[k] && IsS(T, i) == IsS(T, k) {
        BeforeStep(T, seed, i, j);
        BeforeStep(T, seed, j, k);
        BeforeStep(T, seed, i, k);
        if IsS(T, i) || !(IsLms(T, i + 1) || IsLms(T, j + 1) || IsLms(T, k + 1)) {
          BeforeTransitive(T, lo, seed, i + 1, j + 1, k + 1);
        } else {
          SuccessorOfL(T, lo, i);
          SuccessorOfL(T, lo, j);
          SuccessorOfL(T, lo, k);
          StepTransitive(T, lo, seed, i + 1, j + 1, k + 1);
        }
      } else {
        BeforeDiffer(T, seed, i, k);
      }
    }
  }

  lemma SuccessorOfL(T: Text, lo: nat, i: nat)
    requires lo <= i < |T| && IsL(T, i)
    ensures i + 1 == |T| || IsL(T, i + 1) || IsSeed(T, lo, i + 1)
  {
  }

  /** An L suffix comes after the next one. */
  lemma {:induction false} BeforeNextOfL(T: Text, seed: seq<int>, i: nat)
    requires |seed| == |T| && i < |T| && IsL(T, i)
    ensures Before(T, seed, i + 1, i)
    decreases |T| - i
  {
    if i + 1 < |T| && T[i] == T[i + 1] { BeforeNextOfL(T, seed, i + 1); }
  }

  /** An S suffix comes before the next one. */
  lemma {:induction false} BeforeNextOfS(T: Text, seed: seq<int>, i: nat)
    requires |seed| == |T| && i < |T| && IsS(T, i)
    ensures Before(T, seed, i, i + 1)
    decreases |T| - i
  {
    if T[i] == T[i + 1] { BeforeNextOfS(T, seed, i + 1); }
  }

  /** With the seeds in suffix order, the induced order is the suffix order. */
  lemma {:induction false} BeforeIsLess(T: Text, lo: nat, seed: seq<int>, i: nat, j: nat)
    requires |seed| == |T| && lo <= i <= |T| && lo <= j <= |T| && i != j
    requires forall p, q :: IsSeed(T, lo, p) && IsSeed(T, lo, q) && p != q ==> (seed[p] < seed[q] <==> Less(T, p, q))
    ensures Before(T, seed, i, j) <==> Less(T, i, j)
    decreases |T| - i
  {
    if i < |T| && j < |T| && T[i] == T[j] {
      if IsL(T, i) && IsS(T, j) {
        LBeforeS(T, i, j);
      } else if IsS(T, i) && IsL(T, j) {
        LBeforeS(T, j, i);
        LessTotal(T, i, j);
      } else if IsL(T, i) && IsLms(T, i + 1) && IsLms(T, j + 1) {
        assert IsSeed(T, lo, i + 1) && IsSeed(T, lo, j + 1);
      } else {
        BeforeIsLess(T, lo, seed, i + 1, j + 1);
      }
    }
  }
}
