/** The flags by which LMSsort2 tells LMS substrings apart, as functions of the plan: which
    entries start a class of equal substrings, and how the table D and the counter decide it. */
module LmsFlags {
  import opened Suffixes
  import opened Ranking
  import opened Buckets
  import opened InducedOrder
  import opened InducedSlots
  import opened Passes
  import opened LmsSort
  import opened LmsNames
  import opened LmsLabels
  import opened Classes

  /** A plan for seeds in any order, which starts at the leftmost LMS position. */
  ghost predicate SeededPlan(T: Text, seed: seq<int>, P: Plan) {
    && LPlan(T, P) && SPlan(T, P) && FromLms(T, P) && |seed| == |T| && SlotsFollow(T, seed, P)
    && SeedsOk(T, P.lo, seed) && forall p :: IsSeed(T, P.lo, p) ==> P.src[p] == seed[p]
  }

  // ---- first scan

  ghost function TakenL(T: Text, P: Plan): (s: seq<bool>)
    requires Shape(T, P)
    ensures |s| == |T|
  {
    seq(|T|, r requires 0 <= r < |T| => P.occ[r] != -1)
  }

  /** The slots from which the first scan goes on. */
  ghost function ReadsL(T: Text, P: Plan): (s: seq<bool>)
    requires Shape(T, P)
    ensures |s| == |T|
  {
    seq(|T|, r requires 0 <= r < |T| => ReadL(T, P.occ[r]) > 0)
  }

  /** The slots that the first scan leaves for the second. */
  ghost function KeepsL(T: Text, P: Plan): (s: seq<bool>)
    requires Shape(T, P)
    ensures |s| == |T|
  {
    seq(|T|, r requires 0 <= r < |T| => KeptL(T, P.occ[r]) > 0)
  }

  ghost function LabelsL(T: Text, P: Plan): (s: seq<Label>)
    requires Shape(T, P)
    ensures |s| == |T|
  {
    seq(|T|, r requires 0 <= r < |T| => if 0 <= P.occ[r] < |T| then ReadLabel(T, P.occ[r]) else [])
  }

  /** A suffix of the first pass lies in its bucket. */
  lemma InBucketL(T: Text, seed: seq<int>, P: Plan, x: int)
    requires SeededPlan(T, seed, P) && InFirstPass(T, P.lo, x)
    ensures 0 <= P.src[x] < |T| && P.occ[P.src[x]] == x && Start(T, T[x]) <= P.src[x] < Start(T, T[x] + 1)
  {
    hide IsS, IsLms, Start, SPlan, SlotsFollow, LOrdered;
    if IsSeed(T, P.lo, x) {
      BucketSize(T, T[x]);
      SubsetSize(SeedsOf(T, P.lo, T[x]), WithChar(T, T[x]));
    }
  }

  /** Slots of one bucket hold suffixes with one character. */
  lemma SameBucket(T: Text, c: int, d: int, r: int)
    requires Start(T, c) <= r < Start(T, c + 1) && Start(T, d) <= r < Start(T, d + 1)
    ensures c == d
  {
    hide Start;
    if c < d { StartMonotone(T, c + 1, d); } else if d < c { StartMonotone(T, d + 1, c); }
  }

  lemma BelowL(T: Text, P: Plan, x: int, r: int)
    requires LPlan(T, P) && P.lo <= x < |T| && IsL(T, x) && Start(T, T[x]) <= r < P.src[x] <= |T|
    ensures HoldsL(T, P.lo, P.occ[r], T[x])
  {
    hide IsS, Start, LOrdered, SourcesInverse;
  }

  /** Between two seeds with the same character there are only such seeds. */
  lemma SeedsBetween(T: Text, seed: seq<int>, P: Plan, x: int, y: int, z: int)
    requires SeededPlan(T, seed, P) && InFirstPass(T, P.lo, x) && InFirstPass(T, P.lo, y) && InFirstPass(T, P.lo, z)
    requires P.src[x] < P.src[y] < P.src[z] && IsS(T, x) && T[x] == T[z]
    ensures IsS(T, y) && T[y] == T[x]
  {
    hide IsS, IsLms, Start, SeededPlan, LPlan, InFirstPass;
    PlanParts(T, seed, P);
    FirstPassTypes(T, P.lo, x);
    FirstPassTypes(T, P.lo, y);
    FirstPassTypes(T, P.lo, z);
    InBucketL(T, seed, P, x);
    InBucketL(T, seed, P, y);
    InBucketL(T, seed, P, z);
    SameBucket(T, T[x], T[y], P.src[y]);
    if IsL(T, y) { BelowL(T, P, y, P.src[x]); }
  }

  /** Below an L suffix its bucket holds L suffixes only. */
  lemma LsBetween(T: Text, seed: seq<int>, P: Plan, x: int, y: int, z: int)
    requires SeededPlan(T, seed, P) && InFirstPass(T, P.lo, x) && InFirstPass(T, P.lo, y) && InFirstPass(T, P.lo, z)
    requires P.src[x] < P.src[y] < P.src[z] && IsL(T, z) && T[x] == T[z]
    ensures IsL(T, x) && IsL(T, y) && T[y] == T[x]
  {
    hide IsS, Start, SeededPlan, LPlan;
    PlanParts(T, seed, P);
    InBucketL(T, seed, P, x);
    InBucketL(T, seed, P, y);
    InBucketL(T, seed, P, z);
    BelowL(T, P, z, P.src[x]);
    BelowL(T, P, z, P.src[y]);
  }

  lemma LsFollow(T: Text, seed: seq<int>, P: Plan, x: int, y: int)
    requires SeededPlan(T, seed, P) && P.lo <= x < |T| && P.lo <= y < |T| && IsL(T, x) && IsL(T, y)
    requires P.src[x] < P.src[y]
    ensures Before(T, seed, x, y) && x != y
  {
    hide IsS, Start, Before, SeedsOk, LPlan;
  }

  /** Suffixes read with the same label are neighbours. */
  lemma LabelBetweenL(T: Text, seed: seq<int>, P: Plan, x: int, y: int, z: int)
    requires SeededPlan(T, seed, P) && InFirstPass(T, P.lo, x) && InFirstPass(T, P.lo, y) && InFirstPass(T, P.lo, z)
    requires P.src[x] < P.src[y] < P.src[z] && ReadLabel(T, x) == ReadLabel(T, z)
    ensures ReadLabel(T, y) == ReadLabel(T, x)
  {
    hide SeededPlan, IsS, Before, SameSub, LabelOf, SeedsOk;
    FirstPassTypes(T, P.lo, x);
    FirstPassTypes(T, P.lo, y);
    FirstPassTypes(T, P.lo, z);
    ReadLabelShape(T, x);
    ReadLabelShape(T, z);
    PlanParts(T, seed, P);
    if IsLms(T, z) {
      SeedsBetween(T, seed, P, x, y, z);
    } else {
      SameLabel(T, x, z);
      SameSubHead(T, x, z);
      LsBetween(T, seed, P, x, y, z);
      LsFollow(T, seed, P, x, y);
      LsFollow(T, seed, P, y, z);
      SameSubConvex(T, P.lo, seed, x, y, z);
      SameLabel(T, x, y);
    }
  }

  lemma FirstPassTypes(T: Text, lo: nat, x: int)
    requires InFirstPass(T, lo, x)
    ensures lo <= x < |T| && (IsLms(T, x) <==> IsS(T, x)) && (IsL(T, x) <==> !IsS(T, x))
  {
  }

  lemma PlanParts(T: Text, seed: seq<int>, P: Plan)
    requires SeededPlan(T, seed, P)
    ensures Shape(T, P) && |seed| == |T| && SeedsOk(T, P.lo, seed) && 0 < P.lo < |T|
    ensures LPlan(T, P) && SPlan(T, P) && FromLms(T, P)
  {
  }

  /** Equal labels are contiguous along the slots of the first scan. */
  lemma ContiguousL(T: Text, seed: seq<int>, P: Plan)
    requires SeededPlan(T, seed, P)
    ensures Shape(T, P) && Contiguous(TakenL(T, P), LabelsL(T, P))
    ensures Contiguous(ReadsL(T, P), LabelsL(T, P)) && Contiguous(KeepsL(T, P), LabelsL(T, P))
  {
    hide SeededPlan, LPlan, SPlan, InFirstPass, ReadLabel, ReadL, KeptL;
    PlanParts(T, seed, P);
    var on, lab := TakenL(T, P), LabelsL(T, P);
    forall a, b, c | 0 <= a < b < c < |on| && on[a] && on[b] && on[c] && lab[a] == lab[c] ensures lab[b] == lab[a] {
      OccupantL(T, P, a);
      OccupantL(T, P, b);
      OccupantL(T, P, c);
      LabelBetweenL(T, seed, P, P.occ[a], P.occ[b], P.occ[c]);
    }
    forall r | 0 <= r < |T| ensures ReadsL(T, P)[r] || KeepsL(T, P)[r] ==> on[r] { OnlyTaken(T, P.occ[r]); }
    ContiguousPart(on, ReadsL(T, P), lab);
    ContiguousPart(on, KeepsL(T, P), lab);
  }

  lemma OccupantL(T: Text, P: Plan, r: int)
    requires LPlan(T, P) && 0 <= r < |T| && P.occ[r] != -1
    ensures InFirstPass(T, P.lo, P.occ[r]) && 0 <= P.occ[r] < |T| && P.src[P.occ[r]] == r
  {
    hide IsS, IsLms, LContiguous, LOrdered;
  }

  lemma OnlyTaken(T: Text, z: int)
    ensures ReadL(T, z) > 0 || KeptL(T, z) > 0 ==> z != -1
  {
  }

  /** The entry in slot r starts a class among those read from, or among those kept. */
  ghost predicate FlagL(T: Text, P: Plan, r: int)
    requires Shape(T, P) && 0 <= r < |T|
  {
    First(ReadsL(T, P), LabelsL(T, P), r) || First(KeepsL(T, P), LabelsL(T, P), r)
  }

  /** The counter before slot i is read. */
  ghost function CounterL(T: Text, P: Plan, i: int): nat
    requires Shape(T, P) && 0 <= i <= |T|
  {
    Firsts(ReadsL(T, P), LabelsL(T, P), i)
  }

  /** The cell of D: the character, and whether the left neighbour is of type S. */
  ghost function KeyL(T: Text, x: int): (t: int)
    requires 0 < x < |T|
    ensures t >= 0
  {
    2 * T[x] + if T[x - 1] < T[x] then 1 else 0
  }

  /** Placed by the scan before slot i. */
  ghost predicate PlacedL(T: Text, P: Plan, x: int, i: int)
    requires Shape(T, P)
  {
    0 < P.lo < x < |T| && IsL(T, x) && 0 <= P.frm[x] < i <= |T|
  }

  ghost predicate AttainedL(T: Text, P: Plan, t: int, v: int, i: int)
    requires Shape(T, P)
  {
    exists x :: PlacedL(T, P, x, i) && KeyL(T, x) == t && v == CounterL(T, P, P.frm[x] + 1)
  }

  /** D holds, for every key, the counter at which it was used last. */
  ghost predicate TallyL(T: Text, P: Plan, D: seq<int>, i: int)
    requires Shape(T, P)
  {
    && (forall x :: PlacedL(T, P, x, i) ==> KeyL(T, x) < |D| && CounterL(T, P, P.frm[x] + 1) <= D[KeyL(T, x)])
    && (forall t :: 0 <= t < |D| ==> D[t] == 0 || AttainedL(T, P, t, D[t], i))
  }

  /** What is known of the slot from which x is induced. */
  lemma SourceL(T: Text, P: Plan, x: int)
    requires LPlan(T, P) && FromLms(T, P) && P.lo < x < |T| && IsL(T, x) && 0 <= P.frm[x]
    ensures x + 1 < |T| && 0 <= P.frm[x] < P.src[x] < |T| && P.occ[P.frm[x]] == x + 1
    ensures ReadsL(T, P)[P.frm[x]] && LabelsL(T, P)[P.frm[x]] == ReadLabel(T, x + 1)
  {
    hide IsS, LContiguous, ReadLabel, ReadL;
    FromOfL(T, P, x);
    assert InFirstPass(T, P.lo, x);
    EntryMeansL(T, P, x + 1);
  }

  /** What is known of the slot of x. */
  lemma OwnSlotL(T: Text, P: Plan, x: int)
    requires LPlan(T, P) && FromLms(T, P) && P.lo < x < |T| && IsL(T, x)
    ensures 0 <= P.src[x] < |T| && P.occ[P.src[x]] == x && LabelsL(T, P)[P.src[x]] == LabelOf(T, x)
    ensures 0 < P.lo && (ReadsL(T, P)[P.src[x]] <==> !(T[x - 1] < T[x])) && (KeepsL(T, P)[P.src[x]] <==> T[x - 1] < T[x])
  {
    hide IsS, LContiguous, LOrdered, LabelOf;
    assert InFirstPass(T, P.lo, x);
  }

  lemma LOrder(T: Text, P: Plan, x: int, y: int)
    requires LPlan(T, P) && P.lo <= x < |T| && P.lo <= y < |T| && IsL(T, x) && IsL(T, y) && T[x] == T[y]
    ensures P.src[x] < P.src[y] <==> P.frm[x] < P.frm[y]
  {
    hide IsS, LContiguous;
    assert LPair(T, P, x, y) && LPair(T, P, y, x);
    assert InFirstPass(T, P.lo, x) && InFirstPass(T, P.lo, y);
  }

  /** Two L suffixes with the same character are induced at the same counter exactly if they
      have the same label. */
  lemma SameCounterL(T: Text, seed: seq<int>, P: Plan, y: int, x: int)
    requires SeededPlan(T, seed, P) && P.lo < x < |T| && P.lo < y < |T| && IsL(T, x) && IsL(T, y) && T[x] == T[y]
    requires 0 <= P.frm[y] < P.frm[x]
    ensures P.frm[x] < |T| && (CounterL(T, P, P.frm[y] + 1) == CounterL(T, P, P.frm[x] + 1) <==> LabelOf(T, y) == LabelOf(T, x))
    ensures 0 < CounterL(T, P, P.frm[y] + 1) <= CounterL(T, P, P.frm[x] + 1)
  {
    hide SeededPlan, LPlan, SPlan, FromLms, IsS, ReadsL, LabelsL, ReadLabel, LabelOf, Firsts, Contiguous;
    PlanParts(T, seed, P);
    ContiguousL(T, seed, P);
    SourceL(T, P, y);
    SourceL(T, P, x);
    FirstsTell(ReadsL(T, P), LabelsL(T, P), P.frm[y], P.frm[x]);
    SameLabelL(T, y, x);
  }

  /** An earlier entry with the same key and label keeps a slot from starting a class. */
  lemma NotFlaggedL(T: Text, seed: seq<int>, P: Plan, y: int, x: int)
    requires SeededPlan(T, seed, P) && P.lo < x < |T| && P.lo < y < |T| && IsL(T, x) && IsL(T, y)
    requires P.src[y] < P.src[x] && LabelOf(T, y) == LabelOf(T, x) && 0 < P.lo && KeyL(T, y) == KeyL(T, x)
    ensures 0 <= P.src[x] < |T| && !FlagL(T, P, P.src[x])
  {
    hide SeededPlan, LPlan, SPlan, FromLms, IsS, ReadsL, KeepsL, LabelsL, LabelOf;
    PlanParts(T, seed, P);
    OwnSlotL(T, P, y);
    OwnSlotL(T, P, x);
  }

  /** A slot that does not start a class has such an entry before it, placed by the scan. */
  lemma EarlierL(T: Text, seed: seq<int>, P: Plan, x: int) returns (y: int)
    requires SeededPlan(T, seed, P) && P.lo < x < |T| && IsL(T, x) && 0 <= P.frm[x]
    requires 0 <= P.src[x] < |T| && !FlagL(T, P, P.src[x])
    ensures PlacedL(T, P, y, P.frm[x]) && IsL(T, y) && KeyL(T, y) == KeyL(T, x) && T[y] == T[x] && LabelOf(T, y) == LabelOf(T, x)
  {
    hide SeededPlan, LPlan, SPlan, FromLms, IsS, ReadLabel, LabelOf, ReadsL, KeepsL, LabelsL;
    PlanParts(T, seed, P);
    OwnSlotL(T, P, x);
    SourceL(T, P, x);
    var on := if T[x - 1] < T[x] then KeepsL(T, P) else ReadsL(T, P);
    var r :| 0 <= r < P.src[x] && on[r] && LabelsL(T, P)[r] == LabelsL(T, P)[P.src[x]];
    y := P.occ[r];
    SlotReadL(T, P, r);
    LabelMeansL(T, P, y, x);
    OwnSlotL(T, P, y);
    LOrder(T, P, y, x);
    FromOfL(T, P, y);
  }

  lemma SlotReadL(T: Text, P: Plan, r: int)
    requires LPlan(T, P) && FromLms(T, P) && 0 <= r < |T| && (ReadsL(T, P)[r] || KeepsL(T, P)[r])
    ensures InFirstPass(T, P.lo, P.occ[r]) && P.lo < P.occ[r] < |T| && P.src[P.occ[r]] == r
    ensures LabelsL(T, P)[r] == ReadLabel(T, P.occ[r])
  {
    hide IsS, LContiguous, LOrdered, ReadLabel;
    OccupantL(T, P, r);
  }

  /** A suffix read with the label of an L suffix is another L suffix, with an LMS position
      to its right. */
  lemma LabelMeansL(T: Text, P: Plan, y: int, x: int)
    requires 0 <= P.lo < x < |T| && IsL(T, x) && InFirstPass(T, P.lo, y) && y != x
    requires ReadLabel(T, y) == LabelOf(T, x)
    ensures IsL(T, y) && LabelOf(T, y) == LabelOf(T, x) && T[y] == T[x] && y + 1 < |T| && x + 1 < |T|
  {
    hide IsS, LabelOf, SameSub;
    FirstPassTypes(T, P.lo, y);
    FirstPassTypes(T, P.lo, x);
    ReadLabelShape(T, y);
    ReadLabelShape(T, x);
    if IsLms(T, y) {
      assert false;
    }
    SameLabel(T, y, x);
    SameSubHead(T, y, x);
    SameSubNext(T, y, x);
  }

  lemma SameSubNext(T: Text, i: nat, j: nat)
    requires SameSub(T, i, j)
    ensures i + 1 < |T| && j + 1 < |T|
  {
  }

  lemma UnchangedL(T: Text, seed: seq<int>, P: Plan, D: seq<int>, x: int, i: int)
    requires SeededPlan(T, seed, P) && P.lo < x < |T| && IsL(T, x) && P.frm[x] == i && 0 <= i < |T|
    requires 0 < P.lo && TallyL(T, P, D, i) && KeyL(T, x) < |D| && D[KeyL(T, x)] == CounterL(T, P, i + 1)
    requires 0 < CounterL(T, P, i + 1)
    ensures 0 <= P.src[x] < |T| && !FlagL(T, P, P.src[x])
  {
    hide SeededPlan, LPlan, SPlan, FromLms, IsS, FlagL, LabelOf, CounterL, KeyL;
    PlanParts(T, seed, P);
    var y :| PlacedL(T, P, y, i) && KeyL(T, y) == KeyL(T, x) && D[KeyL(T, x)] == CounterL(T, P, P.frm[y] + 1);
    KeyMeansL(T, y, x);
    LOrder(T, P, y, x);
    SameCounterL(T, seed, P, y, x);
    NotFlaggedL(T, seed, P, y, x);
  }

  lemma ReusedL(T: Text, seed: seq<int>, P: Plan, D: seq<int>, x: int, i: int)
    requires SeededPlan(T, seed, P) && P.lo < x < |T| && IsL(T, x) && P.frm[x] == i && 0 <= i < |T|
    requires 0 < P.lo && TallyL(T, P, D, i) && KeyL(T, x) < |D|
    requires 0 <= P.src[x] < |T| && !FlagL(T, P, P.src[x])
    ensures D[KeyL(T, x)] == CounterL(T, P, i + 1)
  {
    hide SeededPlan, LPlan, SPlan, FromLms, IsS, FlagL, LabelOf, CounterL, KeyL;
    PlanParts(T, seed, P);
    var y := EarlierL(T, seed, P, x);
    SameCounterL(T, seed, P, y, x);
    BoundL(T, P, D, KeyL(T, x), i);
    CounterGrowsL(T, P, i, i + 1);
  }

  lemma CounterPositiveL(T: Text, seed: seq<int>, P: Plan, x: int)
    requires SeededPlan(T, seed, P) && P.lo < x < |T| && IsL(T, x) && 0 <= P.frm[x]
    ensures 0 <= P.src[x] < |T| && P.frm[x] < |T| && 0 < CounterL(T, P, P.frm[x] + 1)
  {
    hide SeededPlan, LPlan, SPlan, FromLms, IsS, LabelOf, ReadLabel, ReadsL, LabelsL, Firsts, Contiguous;
    PlanParts(T, seed, P);
    OwnSlotL(T, P, x);
    SourceL(T, P, x);
    ContiguousL(T, seed, P);
    FirstsTell(ReadsL(T, P), LabelsL(T, P), P.frm[x], P.frm[x]);
  }

  /** The test of the scan: the cell of D differs from the counter exactly if the new entry
      starts a class. */
  lemma DecideL(T: Text, seed: seq<int>, P: Plan, D: seq<int>, x: int, i: int)
    requires SeededPlan(T, seed, P) && P.lo < x < |T| && IsL(T, x) && P.frm[x] == i && 0 <= i < |T|
    requires 0 < P.lo && TallyL(T, P, D, i) && KeyL(T, x) < |D|
    ensures 0 <= P.src[x] < |T| && (D[KeyL(T, x)] != CounterL(T, P, i + 1) <==> FlagL(T, P, P.src[x]))
  {
    hide SeededPlan, LPlan, SPlan, FromLms, IsS, FlagL, KeyL, TallyL, CounterL;
    PlanParts(T, seed, P);
    CounterPositiveL(T, seed, P, x);
    if D[KeyL(T, x)] == CounterL(T, P, i + 1) {
      UnchangedL(T, seed, P, D, x, i);
    } else if !FlagL(T, P, P.src[x]) {
      ReusedL(T, seed, P, D, x, i);
    }
  }

  lemma KeyMeansL(T: Text, y: int, x: int)
    requires 0 < y < |T| && 0 < x < |T| && KeyL(T, y) == KeyL(T, x)
    ensures T[y] == T[x]
  {
  }

  /** No cell of D exceeds the counter. */
  lemma BoundL(T: Text, P: Plan, D: seq<int>, t: int, i: int)
    requires Shape(T, P) && TallyL(T, P, D, i) && 0 <= t < |D| && 0 <= i <= |T|
    ensures 0 <= D[t] <= CounterL(T, P, i)
  {
    hide IsS, ReadsL, LabelsL, Firsts;
    if D[t] != 0 {
      var x :| PlacedL(T, P, x, i) && KeyL(T, x) == t && D[t] == CounterL(T, P, P.frm[x] + 1);
      FirstsGrow(ReadsL(T, P), LabelsL(T, P), P.frm[x] + 1, i);
    }
  }

  /** After the entry for x was placed, its cell of D holds the counter. */
  lemma TallyStepL(T: Text, P: Plan, D: seq<int>, x: int, i: int)
    requires LPlan(T, P) && FromLms(T, P) && P.lo < x < |T| && IsL(T, x) && P.frm[x] == i && 0 <= i < |T|
    requires 0 < P.lo && TallyL(T, P, D, i) && KeyL(T, x) < |D|
    ensures TallyL(T, P, D[KeyL(T, x) := CounterL(T, P, i + 1)], i + 1)
  {
    hide LPlan, FromLms, IsS, CounterL, KeyL;
    PlanShape2(T, P);
    var t, d := KeyL(T, x), CounterL(T, P, i + 1);
    var D' := D[t := d];
    assert PlacedL(T, P, x, i + 1);
    forall y | PlacedL(T, P, y, i + 1) ensures KeyL(T, y) < |D'| && CounterL(T, P, P.frm[y] + 1) <= D'[KeyL(T, y)] {
      if P.frm[y] == i {
        InducedOnceL(T, P, y, x);
      } else {
        assert PlacedL(T, P, y, i);
        CounterGrowsL(T, P, P.frm[y] + 1, i + 1);
      }
    }
    forall u | 0 <= u < |D'| ensures D'[u] == 0 || AttainedL(T, P, u, D'[u], i + 1) {
      if u != t && D[u] != 0 {
        var y :| PlacedL(T, P, y, i) && KeyL(T, y) == u && D[u] == CounterL(T, P, P.frm[y] + 1);
        assert PlacedL(T, P, y, i + 1);
      }
    }
  }

  lemma PlanShape2(T: Text, P: Plan)
    requires LPlan(T, P) && FromLms(T, P)
    ensures Shape(T, P) && 0 < P.lo < |T|
  {
  }

  lemma CounterGrowsL(T: Text, P: Plan, i: int, j: int)
    requires Shape(T, P) && 0 <= i <= j <= |T|
    ensures CounterL(T, P, i) <= CounterL(T, P, j)
  {
    FirstsGrow(ReadsL(T, P), LabelsL(T, P), i, j);
  }

  lemma TallyIdleL(T: Text, P: Plan, D: seq<int>, i: int)
    requires Shape(T, P) && TallyL(T, P, D, i) && NoneFromL(T, P, i) && 0 <= i < |T|
    ensures TallyL(T, P, D, i + 1)
  {
    hide IsS, CounterL, KeyL;
    forall y | PlacedL(T, P, y, i + 1) ensures PlacedL(T, P, y, i) {
    }
    forall u | 0 <= u < |D| ensures D[u] == 0 || AttainedL(T, P, u, D[u], i + 1) {
      if D[u] != 0 {
        var y :| PlacedL(T, P, y, i) && KeyL(T, y) == u && D[u] == CounterL(T, P, P.frm[y] + 1);
        assert PlacedL(T, P, y, i + 1);
      }
    }
  }

  /** The entry for the last position, which no other label equals. */
  lemma LastStartsClass(T: Text, seed: seq<int>, P: Plan)
    requires SeededPlan(T, seed, P) && IsL(T, |T| - 1) && 0 <= P.lo < |T| - 1
    ensures 0 <= P.src[|T| - 1] < |T| && FlagL(T, P, P.src[|T| - 1])
  {
    hide SeededPlan, LPlan, SPlan, FromLms, IsS, ReadLabel, LabelOf, ReadsL, KeepsL, LabelsL;
    PlanParts(T, seed, P);
    var x := |T| - 1;
    OwnSlotL(T, P, x);
    if !FlagL(T, P, P.src[x]) {
      var on := if T[x - 1] < T[x] then KeepsL(T, P) else ReadsL(T, P);
      var r :| 0 <= r < P.src[x] && on[r] && LabelsL(T, P)[r] == LabelsL(T, P)[P.src[x]];
      SlotReadL(T, P, r);
      LabelMeansL(T, P, P.occ[r], x);
      assert false;
    }
  }

  lemma TallyStartL(T: Text, P: Plan, D: seq<int>)
    requires Shape(T, P) && forall t :: 0 <= t < |D| ==> D[t] == 0
    ensures TallyL(T, P, D, 0) && CounterL(T, P, 0) == 0
  {
  }
}
