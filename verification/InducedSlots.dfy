/** The slot every suffix ends up in when it is placed by induced sorting: inside
    its bucket the L suffixes come first, the S suffixes last, each group in the
    induced order.  The scanning passes use only the two predicates LPlan and SPlan. */
module InducedSlots {
  import opened Suffixes
  import opened Ranking
  import opened Buckets
  import opened InducedOrder

  /** src[x]: slot from which the L or seed suffix x is read in the first pass
      (src[|T|] == -1 stands for the empty suffix, taken before every slot);
      occ: the suffix found in a slot in that pass, or -1;
      w[x], inv: the same for the finished arrangement of all suffixes from lo on;
      frm[x]: the slot of suffix x + 1, from which x is induced. */
  datatype Plan = Plan(lo: nat, src: seq<int>, occ: seq<int>, w: seq<int>, inv: seq<int>, frm: seq<int>)

  /** Names the step from x to x + 1 in quantifiers, so that it is taken on demand. */
  ghost predicate Step(x: int) { true }

  ghost predicate InFirstPass(T: Text, lo: nat, x: int) {
    lo <= x < |T| && (IsL(T, x) || IsSeed(T, lo, x))
  }

  ghost predicate Shape(T: Text, P: Plan) {
    |P.src| == |T| + 1 && |P.occ| == |T| && |P.w| == |T| && |P.inv| == |T| && |P.frm| == |T| && P.src[|T|] == -1
  }

  /** The slots of the first pass name each other: src and occ are inverse. */
  ghost predicate SourcesInverse(T: Text, P: Plan)
    requires Shape(T, P)
  {
    && (forall x :: InFirstPass(T, P.lo, x) ==> 0 <= P.src[x] < |T| && P.occ[P.src[x]] == x)
    && (forall r :: 0 <= r < |T| && P.occ[r] != -1 ==> InFirstPass(T, P.lo, P.occ[r]))
    && (forall r, x {:trigger P.occ[r], P.src[x]} :: 0 <= r < |T| && InFirstPass(T, P.lo, x) && P.occ[r] == x ==> P.src[x] == r)
  }

  /** Below an L suffix its bucket holds L suffixes only. */
  ghost predicate LContiguous(T: Text, P: Plan)
    requires Shape(T, P)
  {
    && (forall x :: P.lo <= x < |T| && IsL(T, x) ==> Start(T, T[x]) <= P.src[x] < Start(T, T[x] + 1))
    && (forall x, r {:trigger HoldsL(T, P.lo, P.occ[r], T[x])} ::
          P.lo <= x < |T| && IsL(T, x) && 0 <= r < |T| && Start(T, T[x]) <= r < P.src[x] ==>
            HoldsL(T, P.lo, P.occ[r], T[x]))
  }

  ghost predicate HoldsL(T: Text, lo: nat, z: int, c: int) {
    lo <= z < |T| && IsL(T, z) && T[z] == c
  }

  ghost predicate HoldsS(T: Text, lo: nat, z: int, c: int) {
    lo <= z < |T| && IsS(T, z) && T[z] == c
  }

  /** L suffixes of one bucket are ordered as the suffixes they are induced from,
      and every one comes after the suffix it is induced from. */
  ghost predicate LOrdered(T: Text, P: Plan)
    requires Shape(T, P)
  {
    && (forall x {:trigger Step(x)} :: P.lo <= x < |T| && IsL(T, x) && Step(x) ==> P.frm[x] == P.src[x + 1])
    && (forall x, y {:trigger LPair(T, P, x, y)} ::
          P.lo <= x < |T| && P.lo <= y < |T| && IsL(T, x) && IsL(T, y) && T[x] == T[y] ==> LPair(T, P, x, y))
    && (forall x :: P.lo <= x < |T| && IsL(T, x) ==> -1 <= P.frm[x] < P.src[x])
  }

  ghost predicate LPair(T: Text, P: Plan, x: int, y: int)
    requires Shape(T, P) && 0 <= x < |T| && 0 <= y < |T|
  {
    P.src[x] < P.src[y] ==> P.frm[x] < P.frm[y]
  }

  ghost predicate LPlan(T: Text, P: Plan) {
    Shape(T, P) && SourcesInverse(T, P) && LContiguous(T, P) && LOrdered(T, P)
  }

  ghost predicate SlotsInverse(T: Text, P: Plan)
    requires Shape(T, P)
  {
    && (forall x :: P.lo <= x < |T| ==> 0 <= P.w[x] < |T| && P.inv[P.w[x]] == x)
    && (forall r :: 0 <= r < |T| && P.inv[r] != -1 ==> P.lo <= P.inv[r] < |T|)
    && (forall r, x {:trigger P.inv[r], P.w[x]} :: 0 <= r < |T| && P.lo <= x < |T| && P.inv[r] == x ==> P.w[x] == r)
  }

  /** Above an S suffix its bucket holds S suffixes only. */
  ghost predicate SContiguous(T: Text, P: Plan)
    requires Shape(T, P)
  {
    && (forall x :: P.lo <= x < |T| && IsS(T, x) ==> Start(T, T[x]) <= P.w[x] < Start(T, T[x] + 1) <= |T|)
    && (forall x, r {:trigger HoldsS(T, P.lo, P.inv[r], T[x])} ::
          P.lo <= x < |T| && IsS(T, x) && 0 <= r < |T| && P.w[x] < r < Start(T, T[x] + 1) ==>
            HoldsS(T, P.lo, P.inv[r], T[x]))
  }

  ghost predicate SOrdered(T: Text, P: Plan)
    requires Shape(T, P)
  {
    && (forall x {:trigger Step(x)} :: P.lo <= x < |T| && IsS(T, x) && Step(x) ==> x + 1 < |T| && P.frm[x] == P.w[x + 1])
    && (forall x, y {:trigger SPair(T, P, x, y)} ::
          P.lo <= x < |T| && P.lo <= y < |T| && IsS(T, x) && IsS(T, y) && T[x] == T[y] ==> SPair(T, P, x, y))
    && (forall x :: P.lo <= x < |T| && IsS(T, x) ==> P.w[x] < P.frm[x] < |T|)
  }

  ghost predicate SPair(T: Text, P: Plan, x: int, y: int)
    requires Shape(T, P) && 0 <= x < |T| && 0 <= y < |T|
  {
    P.w[x] < P.w[y] ==> P.frm[x] < P.frm[y]
  }

  ghost predicate SPlan(T: Text, P: Plan) {
    && Shape(T, P) && SlotsInverse(T, P) && SContiguous(T, P) && SOrdered(T, P)
    && (forall x :: P.lo <= x < |T| && IsL(T, x) ==> P.w[x] == P.src[x])
  }

  /** The finished arrangement follows the induced order. */
  ghost predicate SlotsFollow(T: Text, seed: seq<int>, P: Plan)
    requires |seed| == |T|
  {
    && Shape(T, P)
    && forall x, y :: P.lo <= x < |T| && P.lo <= y < |T| && x != y ==> (P.w[x] < P.w[y] <==> Before(T, seed, x, y))
  }

  // ---- construction of the plan

  ghost function Lt(T: Text, seed: seq<int>): (int, int) -> bool
    requires |seed| == |T|
  {
    (x: int, y: int) => 0 <= x < |T| && 0 <= y < |T| && Before(T, seed, x, y)
  }

  ghost function LSet(T: Text, lo: nat, c: int): set<int> {
    set x | lo <= x < |T| && IsL(T, x) && T[x] == c
  }

  ghost function SSet(T: Text, lo: nat, c: int): set<int> {
    set x | lo <= x < |T| && IsS(T, x) && T[x] == c
  }

  ghost function Slot(T: Text, lo: nat, seed: seq<int>, x: int): int
    requires |seed| == |T| && 0 <= x < |T|
  {
    var c := T[x];
    if IsS(T, x)
    then Start(T, c + 1) - |SSet(T, lo, c)| + Rank(SSet(T, lo, c), Lt(T, seed), x)
    else Start(T, c) + Rank(LSet(T, lo, c), Lt(T, seed), x)
  }

  lemma LtStrictTotal(T: Text, lo: nat, seed: seq<int>, X: set<int>)
    requires |seed| == |T| && SeedsOk(T, lo, seed) && forall x :: x in X ==> lo <= x < |T|
    ensures StrictTotal(X, Lt(T, seed))
  {
    hide IsS, IsLms, SeedsOk, Before;
    var lt := Lt(T, seed);
    forall x | x in X ensures !lt(x, x) { BeforeIrreflexive(T, seed, x); }
    forall x, y | x in X && y in X && x != y ensures lt(x, y) || lt(y, x) { BeforeTotal(T, lo, seed, x, y); }
    forall x, y, z | x in X && y in X && z in X && lt(x, y) && lt(y, z) ensures lt(x, z) {
      BeforeTransitive(T, lo, seed, x, y, z);
    }
  }

  /** A bucket has room for its L and its S suffixes. */
  lemma BucketRoom(T: Text, lo: nat, c: int)
    ensures Start(T, c) + |LSet(T, lo, c)| + |SSet(T, lo, c)| <= Start(T, c + 1)
    ensures |SeedsOf(T, lo, c)| <= |SSet(T, lo, c)|
  {
    var L, S := LSet(T, lo, c), SSet(T, lo, c);
    assert L !! S;
    assert |L + S| == |L| + |S|;
    SubsetSize(L + S, WithChar(T, c));
    BucketSize(T, c);
    SubsetSize(SeedsOf(T, lo, c), S);
  }

  lemma SlotInBucket(T: Text, lo: nat, seed: seq<int>, x: nat)
    requires |seed| == |T| && SeedsOk(T, lo, seed) && lo <= x < |T|
    ensures Start(T, T[x]) <= Slot(T, lo, seed, x) < Start(T, T[x] + 1)
    ensures IsL(T, x) ==> Slot(T, lo, seed, x) < Start(T, T[x]) + |LSet(T, lo, T[x])|
    ensures IsS(T, x) ==> Start(T, T[x] + 1) - |SSet(T, lo, T[x])| <= Slot(T, lo, seed, x)
  {
    hide IsS, SeedsOk, Before;
    var c := T[x];
    BucketRoom(T, lo, c);
    var X := if IsS(T, x) then SSet(T, lo, c) else LSet(T, lo, c);
    LtStrictTotal(T, lo, seed, X);
    RankBound(X, Lt(T, seed), x);
  }

  /** The slots are ordered as the suffixes are. */
  lemma SlotMonotone(T: Text, lo: nat, seed: seq<int>, x: nat, y: nat)
    requires |seed| == |T| && SeedsOk(T, lo, seed) && lo <= x < |T| && lo <= y < |T| && Before(T, seed, x, y)
    ensures Slot(T, lo, seed, x) < Slot(T, lo, seed, y)
  {
    hide IsS, IsLms, SeedsOk;
    BeforeCharacters(T, seed, x, y);
    SlotInBucket(T, lo, seed, x);
    SlotInBucket(T, lo, seed, y);
    if T[x] < T[y] {
      StartMonotone(T, T[x] + 1, T[y]);
    } else {
      var c := T[x];
      BucketRoom(T, lo, c);
      if IsS(T, x) == IsS(T, y) {
        var X := if IsS(T, x) then SSet(T, lo, c) else LSet(T, lo, c);
        LtStrictTotal(T, lo, seed, X);
        assert Lt(T, seed)(x, y);
        RankMonotone(X, Lt(T, seed), x, y);
      }
    }
  }

  lemma SlotOrder(T: Text, lo: nat, seed: seq<int>, x: nat, y: nat)
    requires |seed| == |T| && SeedsOk(T, lo, seed) && lo <= x < |T| && lo <= y < |T| && x != y
    ensures Slot(T, lo, seed, x) < Slot(T, lo, seed, y) <==> Before(T, seed, x, y)
    ensures Slot(T, lo, seed, x) != Slot(T, lo, seed, y)
  {
    hide IsS, IsLms, SeedsOk, Before, Slot;
    BeforeTotal(T, lo, seed, x, y);
    if Before(T, seed, x, y) { SlotMonotone(T, lo, seed, x, y); } else { SlotMonotone(T, lo, seed, y, x); }
  }

  /** No gap below the slot of an L suffix. */
  lemma NoGapBelowL(T: Text, lo: nat, seed: seq<int>, x: nat, r: int) returns (z: nat)
    requires |seed| == |T| && SeedsOk(T, lo, seed) && lo <= x < |T| && IsL(T, x)
    requires Start(T, T[x]) <= r < Slot(T, lo, seed, x)
    ensures lo <= z < |T| && IsL(T, z) && T[z] == T[x] && Slot(T, lo, seed, z) == r
  {
    hide IsS, SeedsOk, Before;
    SlotInBucket(T, lo, seed, x);
    var X := LSet(T, lo, T[x]);
    LtStrictTotal(T, lo, seed, X);
    z := RankOnto(X, Lt(T, seed), r - Start(T, T[x]));
  }

  /** No gap above the slot of an S suffix. */
  lemma NoGapAboveS(T: Text, lo: nat, seed: seq<int>, x: nat, r: int) returns (z: nat)
    requires |seed| == |T| && SeedsOk(T, lo, seed) && lo <= x < |T| && IsS(T, x)
    requires Slot(T, lo, seed, x) < r < Start(T, T[x] + 1)
    ensures lo <= z < |T| && IsS(T, z) && T[z] == T[x] && Slot(T, lo, seed, z) == r
  {
    hide IsS, SeedsOk, Before;
    SlotInBucket(T, lo, seed, x);
    var X := SSet(T, lo, T[x]);
    LtStrictTotal(T, lo, seed, X);
    z := RankOnto(X, Lt(T, seed), r - (Start(T, T[x] + 1) - |X|));
  }

  ghost function Holder(f: seq<int>, D: set<int>, r: int): int
    requires forall x :: x in D ==> 0 <= x < |f|
  {
    if exists x :: x in D && f[x] == r then (var x :| x in D && f[x] == r; x) else -1
  }

  /** The inverse of f on D, with -1 where no element of D is sent. */
  ghost function Inverse(n: nat, f: seq<int>, D: set<int>): (g: seq<int>)
    requires forall x :: x in D ==> 0 <= x < |f|
    ensures |g| == n
  {
    seq(n, r => Holder(f, D, r))
  }

  lemma InverseLaws(n: nat, f: seq<int>, D: set<int>)
    requires forall x :: x in D ==> 0 <= x < |f| && 0 <= f[x] < n
    requires forall x, y :: x in D && y in D && x != y ==> f[x] != f[y]
    ensures forall x :: x in D ==> Inverse(n, f, D)[f[x]] == x
    ensures forall r :: 0 <= r < n && Inverse(n, f, D)[r] != -1 ==> Inverse(n, f, D)[r] in D
    ensures forall r, x :: 0 <= r < n && Inverse(n, f, D)[r] == x && x != -1 ==> f[x] == r
  {
    forall x | x in D ensures Inverse(n, f, D)[f[x]] == x {
      assert x in D && f[x] == f[x];
    }
  }

  ghost function Sources(T: Text, lo: nat, seed: seq<int>): (src: seq<int>)
    requires |seed| == |T|
    ensures |src| == |T| + 1
  {
    seq(|T| + 1, x requires 0 <= x <= |T| =>
      if x == |T| then -1 else if IsSeed(T, lo, x) then seed[x] else if lo <= x then Slot(T, lo, seed, x) else -2)
  }

  ghost function FinalSlots(T: Text, lo: nat, seed: seq<int>): (w: seq<int>)
    requires |seed| == |T|
    ensures |w| == |T|
  {
    seq(|T|, x requires 0 <= x < |T| => if lo <= x then Slot(T, lo, seed, x) else -2)
  }

  ghost predicate Covered(T: Text, lo: nat, x: int) {
    lo <= x < |T|
  }

  ghost function Froms(T: Text, lo: nat, seed: seq<int>): (frm: seq<int>)
    requires |seed| == |T|
    ensures |frm| == |T|
  {
    seq(|T|, x requires 0 <= x < |T| =>
      if IsS(T, x) then FinalSlots(T, lo, seed)[x + 1] else Sources(T, lo, seed)[x + 1])
  }

  ghost function PlanOf(T: Text, lo: nat, seed: seq<int>): Plan
    requires |seed| == |T|
  {
    Plan(lo,
         Sources(T, lo, seed),
         Inverse(|T|, Sources(T, lo, seed), set x | lo <= x < |T| && InFirstPass(T, lo, x)),
         FinalSlots(T, lo, seed),
         Inverse(|T|, FinalSlots(T, lo, seed), set x | lo <= x < |T| && Covered(T, lo, x)),
         Froms(T, lo, seed))
  }

  /** Seeds lie above all L suffixes of their bucket. */
  lemma SeedAboveL(T: Text, lo: nat, seed: seq<int>, x: nat, p: nat)
    requires |seed| == |T| && SeedsOk(T, lo, seed) && IsSeed(T, lo, p)
    requires lo <= x < |T| && IsL(T, x) && T[x] == T[p]
    ensures Slot(T, lo, seed, x) < seed[p]
  {
    hide IsS, Slot;
    SlotInBucket(T, lo, seed, x);
    BucketRoom(T, lo, T[x]);
  }

  lemma SeedInBucket(T: Text, lo: nat, seed: seq<int>, p: nat)
    requires |seed| == |T| && SeedsOk(T, lo, seed) && IsSeed(T, lo, p)
    ensures Start(T, T[p]) <= seed[p] < Start(T, T[p] + 1) <= |T|
  {
    BucketRoom(T, lo, T[p]);
    StartAtMost(T, T[p] + 1);
  }

  lemma SourcesDistinct(T: Text, lo: nat, seed: seq<int>, x: nat, y: nat)
    requires |seed| == |T| && SeedsOk(T, lo, seed)
    requires InFirstPass(T, lo, x) && InFirstPass(T, lo, y) && x != y && T[x] <= T[y]
    ensures Sources(T, lo, seed)[x] != Sources(T, lo, seed)[y]
  {
    hide IsS, Slot, Before;
    SourceInBucket(T, lo, seed, x);
    SourceInBucket(T, lo, seed, y);
    if T[x] < T[y] {
      StartMonotone(T, T[x] + 1, T[y]);
    } else if IsL(T, x) && IsL(T, y) {
      SlotOrder(T, lo, seed, x, y);
    } else if IsL(T, x) {
      SeedAboveL(T, lo, seed, x, y);
    } else if IsL(T, y) {
      SeedAboveL(T, lo, seed, y, x);
    }
  }

  lemma SourceInBucket(T: Text, lo: nat, seed: seq<int>, x: nat)
    requires |seed| == |T| && SeedsOk(T, lo, seed) && InFirstPass(T, lo, x)
    ensures Start(T, T[x]) <= Sources(T, lo, seed)[x] < Start(T, T[x] + 1) <= |T|
  {
    hide IsS, Slot, Before;
    StartAtMost(T, T[x] + 1);
    if IsSeed(T, lo, x) { SeedInBucket(T, lo, seed, x); } else { SlotInBucket(T, lo, seed, x); }
  }

  lemma PlanSourcesInverse(T: Text, lo: nat, seed: seq<int>)
    requires |seed| == |T| && SeedsOk(T, lo, seed)
    ensures SourcesInverse(T, PlanOf(T, lo, seed))
  {
    hide IsS, IsLms, IsL, Slot, Before, SeedsOk, Inverse, Sources, IsSeed;
    var src := Sources(T, lo, seed);
    var D := set x | lo <= x < |T| && InFirstPass(T, lo, x);
    forall x | x in D ensures 0 <= x < |src| && 0 <= src[x] < |T| {
      SourceInBucket(T, lo, seed, x);
    }
    forall x, y | x in D && y in D && x != y ensures src[x] != src[y] {
      if T[x] <= T[y] { SourcesDistinct(T, lo, seed, x, y); } else { SourcesDistinct(T, lo, seed, y, x); }
    }
    InverseLaws(|T|, src, D);
  }

  lemma PlanSlotsInverse(T: Text, lo: nat, seed: seq<int>)
    requires |seed| == |T| && SeedsOk(T, lo, seed)
    ensures SlotsInverse(T, PlanOf(T, lo, seed))
  {
    hide IsS, IsLms, IsL, Slot, Before, SeedsOk, Inverse, Sources, IsSeed;
    var w := FinalSlots(T, lo, seed);
    var D := set x | lo <= x < |T| && Covered(T, lo, x);
    forall x | x in D ensures 0 <= x < |w| && 0 <= w[x] < |T| {
      SlotInBucket(T, lo, seed, x);
      StartAtMost(T, T[x] + 1);
    }
    forall x, y | x in D && y in D && x != y ensures w[x] != w[y] {
      SlotOrder(T, lo, seed, x, y);
    }
    InverseLaws(|T|, w, D);
  }

  lemma PlanLContiguous(T: Text, lo: nat, seed: seq<int>)
    requires |seed| == |T| && SeedsOk(T, lo, seed)
    ensures LContiguous(T, PlanOf(T, lo, seed))
  {
    hide IsS, IsLms, Slot, Before, SeedsOk, Inverse, Sources;
    var P := PlanOf(T, lo, seed);
    PlanSourcesInverse(T, lo, seed);
    forall x | lo <= x < |T| && IsL(T, x)
      ensures Start(T, T[x]) <= P.src[x] < Start(T, T[x] + 1)
    {
      SourceInBucket(T, lo, seed, x);
    }
    forall x, r | lo <= x < |T| && IsL(T, x) && 0 <= r < |T| && Start(T, T[x]) <= r < P.src[x]
      ensures HoldsL(T, lo, P.occ[r], T[x])
    {
      SourceOfL(T, lo, seed, x);
      var z := NoGapBelowL(T, lo, seed, x, r);
      SourceOfL(T, lo, seed, z);
      assert InFirstPass(T, lo, z);
    }
  }

  lemma SourceOfEnd(T: Text, lo: nat, seed: seq<int>)
    requires |seed| == |T|
    ensures Sources(T, lo, seed)[|T|] == -1
  {
  }

  lemma SourceOfL(T: Text, lo: nat, seed: seq<int>, x: nat)
    requires |seed| == |T| && lo <= x < |T| && IsL(T, x)
    ensures Sources(T, lo, seed)[x] == Slot(T, lo, seed, x)
  {
  }

  /** Sources of the L and seed suffixes are ordered by how they are stepped to. */
  lemma SourceMonotone(T: Text, lo: nat, seed: seq<int>, x: nat, y: nat)
    requires |seed| == |T| && SeedsOk(T, lo, seed)
    requires x == |T| || InFirstPass(T, lo, x)
    requires y == |T| || InFirstPass(T, lo, y)
    requires StepBefore(T, seed, x, y)
    ensures Sources(T, lo, seed)[x] < Sources(T, lo, seed)[y]
  {
    hide IsS, Slot;
    if x < |T| {
      StepBeforeCharacters(T, lo, seed, x, y);
      SourceInBucket(T, lo, seed, x);
      SourceInBucket(T, lo, seed, y);
      if T[x] < T[y] {
        StartMonotone(T, T[x] + 1, T[y]);
      } else if IsL(T, x) && IsL(T, y) {
        BeforeIrreflexive(T, seed, x);
        SlotOrder(T, lo, seed, x, y);
      } else if IsL(T, x) {
        SeedAboveL(T, lo, seed, x, y);
      }
    } else {
      SourceInBucket(T, lo, seed, y);
    }
  }

  lemma PlanLOrdered(T: Text, lo: nat, seed: seq<int>)
    requires |seed| == |T| && SeedsOk(T, lo, seed)
    ensures LOrdered(T, PlanOf(T, lo, seed))
  {
    hide IsS, IsLms, Slot, Before, SeedsOk, Inverse, Sources, StepBefore;
    var P := PlanOf(T, lo, seed);
    forall x | lo <= x < |T| && IsL(T, x) ensures P.frm[x] == P.src[x + 1] {}
    forall x, y | lo <= x < |T| && lo <= y < |T| && IsL(T, x) && IsL(T, y) && T[x] == T[y] && P.src[x] < P.src[y]
      ensures P.frm[x] < P.frm[y]
    {
      SourceOfL(T, lo, seed, x);
      SourceOfL(T, lo, seed, y);
      SlotOrder(T, lo, seed, x, y);
      BeforeStep(T, seed, x, y);
      SuccessorOfL(T, lo, x);
      SuccessorOfL(T, lo, y);
      SourceMonotone(T, lo, seed, x + 1, y + 1);
    }
    forall x | lo <= x < |T| && IsL(T, x)
      ensures -1 <= P.frm[x] < P.src[x]
    {
      SuccessorOfL(T, lo, x);
      assert P.frm[x] == P.src[x + 1];
      if x + 1 < |T| {
        SourceInBucket(T, lo, seed, x + 1);
      } else {
        SourceOfEnd(T, lo, seed);
      }
      StepBackOfL(T, seed, x);
      SourceMonotone(T, lo, seed, x + 1, x);
    }
  }

  lemma StepBackOfL(T: Text, seed: seq<int>, x: nat)
    requires |seed| == |T| && x < |T| && IsL(T, x)
    ensures StepBefore(T, seed, x + 1, x)
  {
    BeforeNextOfL(T, seed, x);
  }

  lemma PlanSContiguous(T: Text, lo: nat, seed: seq<int>)
    requires |seed| == |T| && SeedsOk(T, lo, seed)
    ensures SContiguous(T, PlanOf(T, lo, seed))
  {
    hide IsS, IsLms, Slot, Before, SeedsOk, Inverse, Sources;
    var P := PlanOf(T, lo, seed);
    PlanSlotsInverse(T, lo, seed);
    forall x | lo <= x < |T| && IsS(T, x)
      ensures Start(T, T[x]) <= P.w[x] < Start(T, T[x] + 1) <= |T|
    {
      StartAtMost(T, T[x] + 1);
      SlotInBucket(T, lo, seed, x);
    }
    forall x, r | lo <= x < |T| && IsS(T, x) && 0 <= r < |T| && P.w[x] < r < Start(T, T[x] + 1)
      ensures HoldsS(T, lo, P.inv[r], T[x])
    {
      var z := NoGapAboveS(T, lo, seed, x, r);
      assert P.w[z] == r;
    }
  }

  lemma PlanSlotsFollow(T: Text, lo: nat, seed: seq<int>)
    requires |seed| == |T| && SeedsOk(T, lo, seed)
    ensures SlotsFollow(T, seed, PlanOf(T, lo, seed))
  {
    hide IsS, IsLms, Slot, Before, SeedsOk, Inverse;
    var P := PlanOf(T, lo, seed);
    forall x, y | lo <= x < |T| && lo <= y < |T| && x != y
      ensures P.w[x] < P.w[y] <==> Before(T, seed, x, y)
    {
      SlotOrder(T, lo, seed, x, y);
    }
  }

  lemma PlanSOrdered(T: Text, lo: nat, seed: seq<int>)
    requires |seed| == |T| && SeedsOk(T, lo, seed)
    ensures SOrdered(T, PlanOf(T, lo, seed))
  {
    hide IsS, IsLms, Slot, Before, SeedsOk, Inverse, Sources;
    var P := PlanOf(T, lo, seed);
    forall x | 0 <= x < |T| && IsS(T, x) ensures x + 1 < |T| { SNotLast(T, x); }
    forall x, y | lo <= x < |T| && lo <= y < |T| && IsS(T, x) && IsS(T, y) && T[x] == T[y] && P.w[x] < P.w[y]
      ensures P.frm[x] < P.frm[y]
    {
      SlotOrder(T, lo, seed, x, y);
      BeforeStep(T, seed, x, y);
      SlotOrder(T, lo, seed, x + 1, y + 1);
    }
    forall x | lo <= x < |T| && IsS(T, x)
      ensures P.w[x] < P.frm[x] < |T|
    {
      SlotInBucket(T, lo, seed, x + 1);
      StartAtMost(T, T[x + 1] + 1);
      BeforeNextOfS(T, seed, x);
      SlotOrder(T, lo, seed, x, x + 1);
    }
  }

  lemma SNotLast(T: Text, x: nat)
    requires x < |T| && IsS(T, x)
    ensures x + 1 < |T|
  {
  }

  /** Every placement of seeds has a plan. */
  lemma MakePlan(T: Text, lo: nat, seed: seq<int>) returns (P: Plan)
    requires |seed| == |T| && SeedsOk(T, lo, seed)
    ensures P.lo == lo && LPlan(T, P) && SPlan(T, P) && SlotsFollow(T, seed, P)
    ensures forall p :: IsSeed(T, lo, p) ==> P.src[p] == seed[p]
  {
    P := PlanOf(T, lo, seed);
    PlanSourcesInverse(T, lo, seed);
    PlanLContiguous(T, lo, seed);
    PlanLOrdered(T, lo, seed);
    PlanSlotsInverse(T, lo, seed);
    PlanSContiguous(T, lo, seed);
    PlanSOrdered(T, lo, seed);
    PlanSlotsFollow(T, lo, seed);
    hide IsS, IsLms, Slot, Before, SeedsOk, Inverse, SourcesInverse, LContiguous, LOrdered, SlotsInverse, SContiguous, SOrdered;
  }
}
