/** The flags of LMSsort2 in the second scan, which runs from the right: an entry is marked
    if it is the last of its class. */
module LmsFlagsS {
  import opened Suffixes
  import opened InducedOrder
  import opened InducedSlots
  import opened Passes
  import opened LmsSort
  import opened LmsNames
  import opened LmsLabels
  import opened Classes
  import opened LmsFlags

  ghost function TakenS(T: Text, P: Plan): (s: seq<bool>)
    requires Shape(T, P)
    ensures |s| == |T|
  {
    seq(|T|, r requires 0 <= r < |T| => P.inv[r] != -1)
  }

  /** The slots from which the second scan goes on. */
  ghost function ReadsS(T: Text, P: Plan): (s: seq<bool>)
    requires Shape(T, P)
    ensures |s| == |T|
  {
    seq(|T|, r requires 0 <= r < |T| => ReadS(T, P.inv[r]) > 0)
  }

  /** The slots that the second scan leaves: those of the LMS positions. */
  ghost function KeepsS(T: Text, P: Plan): (s: seq<bool>)
    requires Shape(T, P)
    ensures |s| == |T|
  {
    seq(|T|, r requires 0 <= r < |T| => KeptS(T, P.inv[r]) != 0)
  }

  ghost function LabelsS(T: Text, P: Plan): (s: seq<Label>)
    requires Shape(T, P)
    ensures |s| == |T|
  {
    seq(|T|, r requires 0 <= r < |T| => if 0 <= P.inv[r] < |T| then LabelOf(T, P.inv[r]) else [])
  }

  lemma SlotsOrder(T: Text, seed: seq<int>, P: Plan, x: int, y: int)
    requires SeededPlan(T, seed, P) && P.lo <= x < |T| && P.lo <= y < |T| && P.w[x] < P.w[y]
    ensures Before(T, seed, x, y) && x != y
  {
    hide IsS, Before, SeedsOk, LPlan;
  }

  lemma LabelBetweenS(T: Text, seed: seq<int>, P: Plan, x: int, y: int, z: int)
    requires SeededPlan(T, seed, P) && P.lo <= x < |T| && P.lo <= y < |T| && P.lo <= z < |T|
    requires P.w[x] < P.w[y] < P.w[z] && LabelOf(T, x) == LabelOf(T, z)
    ensures LabelOf(T, y) == LabelOf(T, x)
  {
    hide SeededPlan, IsS, Before, SameSub, LabelOf, SeedsOk;
    PlanParts(T, seed, P);
    SlotsOrder(T, seed, P, x, y);
    SlotsOrder(T, seed, P, y, z);
    SlotsOrder(T, seed, P, x, z);
    SameLabel(T, x, z);
    SameSubConvex(T, P.lo, seed, x, y, z);
    SameLabel(T, x, y);
  }

  lemma OccupantS(T: Text, P: Plan, r: int)
    requires SPlan(T, P) && 0 <= r < |T| && P.inv[r] != -1
    ensures P.lo <= P.inv[r] < |T| && P.w[P.inv[r]] == r
  {
    hide IsS, SContiguous, SOrdered;
  }

  lemma ContiguousS(T: Text, seed: seq<int>, P: Plan)
    requires SeededPlan(T, seed, P)
    ensures Shape(T, P) && Contiguous(TakenS(T, P), LabelsS(T, P))
    ensures Contiguous(ReadsS(T, P), LabelsS(T, P)) && Contiguous(KeepsS(T, P), LabelsS(T, P))
  {
    hide SeededPlan, LPlan, SPlan, LabelOf, ReadS, KeptS;
    PlanParts(T, seed, P);
    var on, lab := TakenS(T, P), LabelsS(T, P);
    forall a, b, c | 0 <= a < b < c < |on| && on[a] && on[b] && on[c] && lab[a] == lab[c] ensures lab[b] == lab[a] {
      OccupantS(T, P, a);
      OccupantS(T, P, b);
      OccupantS(T, P, c);
      LabelBetweenS(T, seed, P, P.inv[a], P.inv[b], P.inv[c]);
    }
    forall r | 0 <= r < |T| ensures ReadsS(T, P)[r] || KeepsS(T, P)[r] ==> on[r] { OnlyTakenS(T, P.inv[r]); }
    ContiguousPart(on, ReadsS(T, P), lab);
    ContiguousPart(on, KeepsS(T, P), lab);
  }

  lemma OnlyTakenS(T: Text, z: int)
    ensures ReadS(T, z) > 0 || KeptS(T, z) != 0 ==> z != -1
  {
  }

  ghost predicate FlagS(T: Text, P: Plan, r: int)
    requires Shape(T, P) && 0 <= r < |T|
  {
    Last(ReadsS(T, P), LabelsS(T, P), r) || Last(KeepsS(T, P), LabelsS(T, P), r)
  }

  /** What the slots from i on add to the counter. */
  ghost function CounterS(T: Text, P: Plan, i: int): nat
    requires Shape(T, P) && 0 <= i <= |T|
  {
    Lasts(ReadsS(T, P), LabelsS(T, P), i)
  }

  ghost function KeyS(T: Text, x: int): (t: int)
    requires 0 < x < |T|
    ensures t >= 0
  {
    2 * T[x] + if T[x - 1] > T[x] then 1 else 0
  }

  /** Placed by the scan from a slot above i. */
  ghost predicate PlacedS(T: Text, P: Plan, x: int, i: int)
    requires Shape(T, P)
  {
    0 < P.lo <= x < |T| && IsS(T, x) && -1 <= i < P.frm[x] < |T|
  }

  ghost predicate AttainedS(T: Text, P: Plan, t: int, v: int, i: int)
    requires Shape(T, P)
  {
    exists x :: PlacedS(T, P, x, i) && KeyS(T, x) == t && v == CounterS(T, P, P.frm[x])
  }

  /** D holds, for every key used in this scan, the counter at its last use; the values of
      the first scan are below base. */
  ghost predicate TallyS(T: Text, P: Plan, D: seq<int>, base: int, i: int)
    requires Shape(T, P)
  {
    && (forall x :: PlacedS(T, P, x, i) ==> KeyS(T, x) < |D| && base + CounterS(T, P, P.frm[x]) <= D[KeyS(T, x)])
    && (forall t :: 0 <= t < |D| ==> D[t] < base || AttainedS(T, P, t, D[t] - base, i))
  }

  lemma SourceS(T: Text, P: Plan, x: int)
    requires SPlan(T, P) && FromLms(T, P) && P.lo <= x < |T| && IsS(T, x)
    ensures x + 1 < |T| && P.w[x] < P.frm[x] < |T| && 0 <= P.frm[x] && P.inv[P.frm[x]] == x + 1
    ensures ReadsS(T, P)[P.frm[x]] && LabelsS(T, P)[P.frm[x]] == LabelOf(T, x + 1)
  {
    hide IsS, SContiguous, LabelOf, ReadS;
    FromOfS(T, P, x);
    EntryMeansS(T, P, x + 1);
  }

  lemma OwnSlotS(T: Text, P: Plan, x: int)
    requires SPlan(T, P) && FromLms(T, P) && P.lo <= x < |T| && IsS(T, x)
    ensures 0 <= P.w[x] < |T| && P.inv[P.w[x]] == x && LabelsS(T, P)[P.w[x]] == LabelOf(T, x)
    ensures 0 < P.lo && (ReadsS(T, P)[P.w[x]] <==> !(T[x - 1] > T[x])) && (KeepsS(T, P)[P.w[x]] <==> T[x - 1] > T[x])
  {
    hide IsS, SContiguous, SOrdered, LabelOf;
    LeftNeighbour(T, x);
  }

  lemma SOrder(T: Text, P: Plan, x: int, y: int)
    requires SPlan(T, P) && P.lo <= x < |T| && P.lo <= y < |T| && IsS(T, x) && IsS(T, y) && T[x] == T[y]
    ensures P.w[x] < P.w[y] <==> P.frm[x] < P.frm[y]
  {
    hide IsS, SContiguous;
    assert SPair(T, P, x, y) && SPair(T, P, y, x);
    assert P.inv[P.w[x]] == x && P.inv[P.w[y]] == y;
  }

  lemma SameCounterS(T: Text, seed: seq<int>, P: Plan, y: int, x: int)
    requires SeededPlan(T, seed, P) && P.lo <= x < |T| && P.lo <= y < |T| && IsS(T, x) && IsS(T, y) && T[x] == T[y]
    requires P.frm[x] < P.frm[y]
    ensures 0 <= P.frm[x] < P.frm[y] < |T|
    ensures CounterS(T, P, P.frm[y]) == CounterS(T, P, P.frm[x]) <==> LabelOf(T, y) == LabelOf(T, x)
    ensures 0 < CounterS(T, P, P.frm[y]) <= CounterS(T, P, P.frm[x])
  {
    hide SeededPlan, LPlan, SPlan, FromLms, IsS, ReadsS, LabelsS, LabelOf, Lasts, Contiguous;
    PlanParts(T, seed, P);
    ContiguousS(T, seed, P);
    SourceS(T, P, y);
    SourceS(T, P, x);
    LastsTell(ReadsS(T, P), LabelsS(T, P), P.frm[x], P.frm[y]);
    SameLabelS(T, y, x);
  }

  lemma NotFlaggedS(T: Text, seed: seq<int>, P: Plan, y: int, x: int)
    requires SeededPlan(T, seed, P) && P.lo <= x < |T| && P.lo <= y < |T| && IsS(T, x) && IsS(T, y)
    requires P.w[x] < P.w[y] && LabelOf(T, y) == LabelOf(T, x) && 0 < P.lo && KeyS(T, y) == KeyS(T, x)
    ensures 0 <= P.w[x] < |T| && !FlagS(T, P, P.w[x])
  {
    hide SeededPlan, LPlan, SPlan, FromLms, IsS, ReadsS, KeepsS, LabelsS, LabelOf;
    PlanParts(T, seed, P);
    OwnSlotS(T, P, y);
    OwnSlotS(T, P, x);
  }

  lemma SlotReadS(T: Text, P: Plan, r: int)
    requires SPlan(T, P) && 0 <= r < |T| && (ReadsS(T, P)[r] || KeepsS(T, P)[r])
    ensures P.lo <= P.inv[r] < |T| && P.w[P.inv[r]] == r && 0 <= P.inv[r] && LabelsS(T, P)[r] == LabelOf(T, P.inv[r])
  {
    hide IsS, SContiguous, SOrdered, LabelOf;
    OccupantS(T, P, r);
  }

  lemma SameLabelType(T: Text, y: int, x: int)
    requires 0 <= y < |T| && 0 <= x < |T| && LabelOf(T, y) == LabelOf(T, x)
    ensures IsS(T, y) == IsS(T, x) && T[y] == T[x]
  {
    hide SameSub, IsS;
    if y != x {
      SameLabel(T, y, x);
      SameSubHead(T, y, x);
    }
  }

  lemma EarlierS(T: Text, seed: seq<int>, P: Plan, x: int) returns (y: int)
    requires SeededPlan(T, seed, P) && P.lo <= x < |T| && IsS(T, x) && 0 <= P.w[x] < |T| && !FlagS(T, P, P.w[x])
    ensures PlacedS(T, P, y, P.frm[x]) && KeyS(T, y) == KeyS(T, x) && T[y] == T[x] && LabelOf(T, y) == LabelOf(T, x)
  {
    hide SeededPlan, LPlan, SPlan, FromLms, IsS, LabelOf, ReadsS, KeepsS, LabelsS;
    PlanParts(T, seed, P);
    OwnSlotS(T, P, x);
    SourceS(T, P, x);
    var on := if T[x - 1] > T[x] then KeepsS(T, P) else ReadsS(T, P);
    var r :| P.w[x] < r < |T| && on[r] && LabelsS(T, P)[r] == LabelsS(T, P)[P.w[x]];
    y := P.inv[r];
    SlotReadS(T, P, r);
    SameLabelType(T, y, x);
    OwnSlotS(T, P, y);
    SOrder(T, P, x, y);
    SourceS(T, P, y);
  }

  lemma BoundS(T: Text, P: Plan, D: seq<int>, base: int, t: int, i: int)
    requires Shape(T, P) && TallyS(T, P, D, base, i) && 0 <= t < |D| && -1 <= i < |T|
    ensures D[t] < base || D[t] <= base + CounterS(T, P, i + 1)
  {
    hide IsS, ReadsS, LabelsS, Lasts;
    if D[t] >= base {
      var x :| PlacedS(T, P, x, i) && KeyS(T, x) == t && D[t] - base == CounterS(T, P, P.frm[x]);
      LastsGrow(ReadsS(T, P), LabelsS(T, P), i + 1, P.frm[x]);
    }
  }

  lemma CounterGrowsS(T: Text, P: Plan, i: int, j: int)
    requires Shape(T, P) && 0 <= i <= j <= |T|
    ensures CounterS(T, P, j) <= CounterS(T, P, i)
  {
    LastsGrow(ReadsS(T, P), LabelsS(T, P), i, j);
  }

  lemma UnchangedS(T: Text, seed: seq<int>, P: Plan, D: seq<int>, base: int, x: int, i: int)
    requires SeededPlan(T, seed, P) && P.lo <= x < |T| && IsS(T, x) && P.frm[x] == i && 0 <= i < |T|
    requires 0 < P.lo && TallyS(T, P, D, base, i) && KeyS(T, x) < |D| && D[KeyS(T, x)] == base + CounterS(T, P, i)
    requires 0 < CounterS(T, P, i)
    ensures 0 <= P.w[x] < |T| && !FlagS(T, P, P.w[x])
  {
    hide SeededPlan, LPlan, SPlan, FromLms, IsS, FlagS, LabelOf, CounterS, KeyS;
    PlanParts(T, seed, P);
    var y :| PlacedS(T, P, y, i) && KeyS(T, y) == KeyS(T, x) && D[KeyS(T, x)] - base == CounterS(T, P, P.frm[y]);
    KeyMeansS(T, y, x);
    SOrder(T, P, x, y);
    SameCounterS(T, seed, P, y, x);
    NotFlaggedS(T, seed, P, y, x);
  }

  lemma ReusedS(T: Text, seed: seq<int>, P: Plan, D: seq<int>, base: int, x: int, i: int)
    requires SeededPlan(T, seed, P) && P.lo <= x < |T| && IsS(T, x) && P.frm[x] == i && 0 <= i < |T|
    requires 0 < P.lo && TallyS(T, P, D, base, i) && KeyS(T, x) < |D|
    requires 0 <= P.w[x] < |T| && !FlagS(T, P, P.w[x])
    ensures D[KeyS(T, x)] == base + CounterS(T, P, i)
  {
    hide SeededPlan, LPlan, SPlan, FromLms, IsS, FlagS, LabelOf, CounterS, KeyS;
    PlanParts(T, seed, P);
    var y := EarlierS(T, seed, P, x);
    SameCounterS(T, seed, P, y, x);
    BoundS(T, P, D, base, KeyS(T, x), i);
    CounterGrowsS(T, P, i, i + 1);
  }

  lemma CounterPositiveS(T: Text, seed: seq<int>, P: Plan, x: int)
    requires SeededPlan(T, seed, P) && P.lo <= x < |T| && IsS(T, x)
    ensures 0 <= P.w[x] < |T| && 0 <= P.frm[x] < |T| && 0 < CounterS(T, P, P.frm[x])
  {
    hide SeededPlan, LPlan, SPlan, FromLms, IsS, LabelOf, ReadsS, LabelsS, Lasts, Contiguous;
    PlanParts(T, seed, P);
    OwnSlotS(T, P, x);
    SourceS(T, P, x);
    ContiguousS(T, seed, P);
    LastsTell(ReadsS(T, P), LabelsS(T, P), P.frm[x], P.frm[x]);
  }

  /** The test of the scan: the cell of D differs from the counter exactly if the new entry
      is the last of its class. */
  lemma DecideS(T: Text, seed: seq<int>, P: Plan, D: seq<int>, base: int, x: int, i: int)
    requires SeededPlan(T, seed, P) && P.lo <= x < |T| && IsS(T, x) && P.frm[x] == i && 0 <= i < |T|
    requires 0 < P.lo && TallyS(T, P, D, base, i) && KeyS(T, x) < |D|
    ensures 0 <= P.w[x] < |T| && (D[KeyS(T, x)] != base + CounterS(T, P, i) <==> FlagS(T, P, P.w[x]))
  {
    hide SeededPlan, LPlan, SPlan, FromLms, IsS, FlagS, KeyS, TallyS, CounterS;
    PlanParts(T, seed, P);
    CounterPositiveS(T, seed, P, x);
    if D[KeyS(T, x)] == base + CounterS(T, P, i) {
      UnchangedS(T, seed, P, D, base, x, i);
    } else if !FlagS(T, P, P.w[x]) {
      ReusedS(T, seed, P, D, base, x, i);
    }
  }

  lemma KeyMeansS(T: Text, y: int, x: int)
    requires 0 < y < |T| && 0 < x < |T| && KeyS(T, y) == KeyS(T, x)
    ensures T[y] == T[x]
  {
  }

  lemma ShapeS(T: Text, P: Plan)
    requires SPlan(T, P) && FromLms(T, P)
    ensures Shape(T, P) && 0 < P.lo < |T|
  {
  }

  lemma TallyStepS(T: Text, P: Plan, D: seq<int>, base: int, x: int, i: int)
    requires SPlan(T, P) && FromLms(T, P) && P.lo <= x < |T| && IsS(T, x) && P.frm[x] == i && 0 <= i < |T|
    requires 0 < P.lo && TallyS(T, P, D, base, i) && KeyS(T, x) < |D|
    ensures TallyS(T, P, D[KeyS(T, x) := base + CounterS(T, P, i)], base, i - 1)
  {
    hide SPlan, FromLms, IsS, CounterS, KeyS;
    ShapeS(T, P);
    var t, d, h := KeyS(T, x), base + CounterS(T, P, i), i - 1;
    var D' := D[t := d];
    assert PlacedS(T, P, x, h);
    forall y | PlacedS(T, P, y, h) ensures KeyS(T, y) < |D'| && base + CounterS(T, P, P.frm[y]) <= D'[KeyS(T, y)] {
      if P.frm[y] == i {
        InducedOnceS(T, P, y, x);
      } else {
        assert PlacedS(T, P, y, i);
        CounterGrowsS(T, P, i, P.frm[y]);
      }
    }
    forall u | 0 <= u < |D'| ensures D'[u] < base || AttainedS(T, P, u, D'[u] - base, h) {
      if u != t && D[u] >= base {
        var y :| PlacedS(T, P, y, i) && KeyS(T, y) == u && D[u] - base == CounterS(T, P, P.frm[y]);
        assert PlacedS(T, P, y, h);
      }
    }
  }

  lemma TallyIdleS(T: Text, P: Plan, D: seq<int>, base: int, i: int)
    requires Shape(T, P) && TallyS(T, P, D, base, i) && NoneFromS(T, P, i) && 0 <= i < |T|
    ensures TallyS(T, P, D, base, i - 1)
  {
    hide IsS, CounterS, KeyS;
    var h := i - 1;
    forall y | PlacedS(T, P, y, h) ensures PlacedS(T, P, y, i) {
    }
    forall u | 0 <= u < |D| ensures D[u] < base || AttainedS(T, P, u, D[u] - base, h) {
      if D[u] >= base {
        var y :| PlacedS(T, P, y, i) && KeyS(T, y) == u && D[u] - base == CounterS(T, P, P.frm[y]);
        assert PlacedS(T, P, y, h);
      }
    }
  }

  /** At the start D holds only values of the first scan. */
  lemma TallyStartS(T: Text, P: Plan, D: seq<int>, base: int)
    requires Shape(T, P) && forall t :: 0 <= t < |D| ==> D[t] < base
    ensures TallyS(T, P, D, base, |T| - 1) && CounterS(T, P, |T|) == 0
  {
  }
}
