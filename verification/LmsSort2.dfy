/** LMSsort2: the scans of LMSsort1 that also mark, by adding n, the entries which start a
    class of equal substrings. */
module LmsSort2 {
  import opened Suffixes
  import opened Buckets
  import opened InducedOrder
  import opened InducedSlots
  import opened Passes
  import opened LmsSort
  import opened LmsLabels
  import opened Classes
  import opened LmsFlags
  import opened LmsFlagsS
  import opened MarkTurn

  /** An entry with its mark: n is added to the position, below the sign flag. */
  ghost function Mark(n: int, v: int, f: bool): int {
    if !f then v else if v >= 0 then v + n else v - n
  }

  /** SA holds the cells of LMSsort1, marked where a class starts. */
  ghost predicate MarkedL(T: Text, P: Plan, cells: seq<int>, SA: seq<int>)
    requires Shape(T, P)
  {
    && |SA| == |cells| >= |T| && SA[|T|..] == cells[|T|..]
    && forall r :: 0 <= r < |T| ==> SA[r] == Mark(|T|, cells[r], cells[r] != 0 && FlagL(T, P, r))
  }

  /** The state of the first scan before slot i: that of LMSsort1, the marks, the table D and
      the counter d. */
  ghost predicate StateL(T: Text, seed: seq<int>, P: Plan, ptr: seq<int>, cells: seq<int>, SA: seq<int>, D: seq<int>, d: int, i: int) {
    && SeededPlan(T, seed, P) && 0 <= i <= |T| <= |cells| && CellsL(T, P, cells, i) && PointersL(T, P, ptr, i)
    && MarkedL(T, P, cells, SA) && |D| == 2 * |ptr| && TallyL(T, P, D, i) && d == CounterL(T, P, i)
  }

  lemma StatePartsL(T: Text, seed: seq<int>, P: Plan, ptr: seq<int>, cells: seq<int>, SA: seq<int>, D: seq<int>, d: int, i: int)
    requires StateL(T, seed, P, ptr, cells, SA, D, d, i)
    ensures LPlan(T, P) && SPlan(T, P) && FromLms(T, P) && Shape(T, P) && 0 < P.lo < |T| && SeededPlan(T, seed, P)
    ensures |T| <= |cells| == |SA| && 0 <= i <= |T| && CellsL(T, P, cells, i) && PointersL(T, P, ptr, i) && Alphabet(T, |ptr|)
    ensures MarkedL(T, P, cells, SA) && |D| == 2 * |ptr| && TallyL(T, P, D, i) && d == CounterL(T, P, i)
  {
    hide IsS, IsLms, LPlan, SPlan, SlotsFollow, SeedsOk, CellsL, TallyL, CounterL;
    PlanParts(T, seed, P);
    PointersAlphabet(T, P, ptr, i);
  }

  lemma MarkedAt(T: Text, P: Plan, cells: seq<int>, SA: seq<int>, r: int)
    requires Shape(T, P) && MarkedL(T, P, cells, SA) && 0 <= r < |T|
    ensures |SA| == |cells| && SA[r] == Mark(|T|, cells[r], cells[r] != 0 && FlagL(T, P, r))
  {
  }

  /** Where the scan goes on, an entry starts a class exactly if the counter goes up. */
  lemma CounterStepL(T: Text, P: Plan, i: int)
    requires Shape(T, P) && 0 <= i < |T|
    ensures ReadL(T, P.occ[i]) <= 0 ==> CounterL(T, P, i + 1) == CounterL(T, P, i)
    ensures ReadL(T, P.occ[i]) > 0 && KeptL(T, P.occ[i]) == 0 ==>
      CounterL(T, P, i + 1) == CounterL(T, P, i) + if FlagL(T, P, i) then 1 else 0
  {
    hide ReadL, KeptL, LabelsL;
  }

  /** What the scan reads from a slot to go on with. */
  lemma StateReadL(T: Text, seed: seq<int>, P: Plan, ptr: seq<int>, cells: seq<int>, SA: seq<int>, D: seq<int>, d: int, i: int)
    requires StateL(T, seed, P, ptr, cells, SA, D, d, i) && i < |T| && i < |SA| && SA[i] > 0
    ensures Shape(T, P) && |cells| == |SA| && (SA[i] >= |T| <==> FlagL(T, P, i))
    ensures var j := if SA[i] >= |T| then SA[i] - |T| else SA[i];
      && j == cells[i] && 0 < P.lo < j < |T| && IsL(T, j) && P.frm[j] == i && T[j] < |ptr| && KeyL(T, j) < |D|
      && ptr[T[j]] == P.src[j] && i < P.src[j] < |T|
      && (D[KeyL(T, j)] != CounterL(T, P, i + 1) <==> FlagL(T, P, P.src[j]))
    ensures CounterL(T, P, i + 1) == d + if SA[i] >= |T| then 1 else 0
  {
    hide StateL, LPlan, SPlan, FromLms, IsS, IsLms, CellsL, PointersL, MarkedL, TallyL, CounterL, FlagL, SeededPlan, KeptL, ReadL;
    StatePartsL(T, seed, P, ptr, cells, SA, D, d, i);
    MarkedAt(T, P, cells, SA, i);
    ReadSlotL(T, P, cells, i);
    ReadMeansL(T, P, cells, i);
    var j := cells[i];
    NextSlotL(T, P, ptr, i, j);
    CounterStepL(T, P, i);
    DecideL(T, seed, P, D, j, i);
  }

  /** The state after an entry was placed from slot i. */
  lemma StateMoveL(T: Text, seed: seq<int>, P: Plan, ptr: seq<int>, cells: seq<int>, SA: seq<int>, D: seq<int>,
                   d: int, i: int, SA': seq<int>, D': seq<int>)
    requires StateL(T, seed, P, ptr, cells, SA, D, d, i) && 0 <= i < |T| && i < |SA| && SA[i] > 0
    requires |cells| == |SA| && Shape(T, P) && 0 < cells[i] < |T| && 0 <= P.src[cells[i]] < |T| && i != P.src[cells[i]]
    requires SA' == SA[P.src[cells[i]] := Mark(|T|, EntryL(T, cells[i]), FlagL(T, P, P.src[cells[i]]))][i := 0]
    requires KeyL(T, cells[i]) < |D| && D' == D[KeyL(T, cells[i]) := CounterL(T, P, i + 1)]
    ensures StateL(T, seed, P, AdvancedL(T, ptr, cells, i), ScannedL(T, ptr, cells, i), SA', D', CounterL(T, P, i + 1), i + 1)
  {
    hide StateL, LPlan, SPlan, FromLms, IsS, IsLms, CellsL, PointersL, TallyL, CounterL, FlagL, SeededPlan, EntryL;
    StatePartsL(T, seed, P, ptr, cells, SA, D, d, i);
    StateReadL(T, seed, P, ptr, cells, SA, D, d, i);
    var j := cells[i];
    ScanL(T, P, ptr, cells, i);
    TallyStepL(T, P, D, j, i);
    EntryNotZero(T, P, j);
    MarkedMoveL(T, P, cells, SA, i, P.src[j], EntryL(T, j));
    StateIsL(T, seed, P, AdvancedL(T, ptr, cells, i), ScannedL(T, ptr, cells, i), SA', D', CounterL(T, P, i + 1), i + 1);
  }

  lemma EntryNotZero(T: Text, P: Plan, j: int)
    requires 1 < j < |T|
    ensures EntryL(T, j) != 0
  {
  }

  lemma MarkedMoveL(T: Text, P: Plan, cells: seq<int>, SA: seq<int>, i: int, r: int, v: int)
    requires Shape(T, P) && MarkedL(T, P, cells, SA) && 0 <= i < |T| && 0 <= r < |T| && i != r && v != 0 && |SA| == |cells|
    ensures MarkedL(T, P, cells[r := v][i := 0], SA[r := Mark(|T|, v, FlagL(T, P, r))][i := 0])
  {
    hide FlagL;
  }

  lemma StateIsL(T: Text, seed: seq<int>, P: Plan, ptr: seq<int>, cells: seq<int>, SA: seq<int>, D: seq<int>, d: int, i: int)
    requires SeededPlan(T, seed, P) && Shape(T, P) && 0 <= i <= |T| <= |cells| && CellsL(T, P, cells, i) && PointersL(T, P, ptr, i)
    requires MarkedL(T, P, cells, SA) && |D| == 2 * |ptr| && TallyL(T, P, D, i) && d == CounterL(T, P, i)
    ensures StateL(T, seed, P, ptr, cells, SA, D, d, i)
  {
  }

  /** A slot from which the scan does not go on. */
  lemma StateIdleL(T: Text, seed: seq<int>, P: Plan, ptr: seq<int>, cells: seq<int>, SA: seq<int>, D: seq<int>,
                   d: int, i: int, SA': seq<int>)
    requires StateL(T, seed, P, ptr, cells, SA, D, d, i) && 0 <= i < |T| && i < |SA| && SA[i] <= 0
    requires SA' == if SA[i] < 0 then SA[i := Not(SA[i])] else SA
    ensures |cells| == |SA| && cells[i] <= 0
    ensures StateL(T, seed, P, AdvancedL(T, ptr, cells, i), ScannedL(T, ptr, cells, i), SA', D, d, i + 1)
  {
    hide StateL, LPlan, SPlan, FromLms, IsS, IsLms, CellsL, PointersL, TallyL, CounterL, FlagL, SeededPlan, ReadL, KeptL, NoneFromL;
    StatePartsL(T, seed, P, ptr, cells, SA, D, d, i);
    MarkedAt(T, P, cells, SA, i);
    ReadSlotL(T, P, cells, i);
    ReadIdleL(T, P, cells, i);
    ScanL(T, P, ptr, cells, i);
    TallyIdleL(T, P, D, i);
    CounterStepL(T, P, i);
    EntryBelow(T, P, P.occ[i]);
    if cells[i] < 0 { MarkedIdleL(T, P, cells, SA, i); }
    StateIsL(T, seed, P, AdvancedL(T, ptr, cells, i), ScannedL(T, ptr, cells, i), SA', D, d, i + 1);
  }

  lemma EntryBelow(T: Text, P: Plan, z: int)
    requires 0 < P.lo && (z == -1 || P.lo < z)
    ensures ReadL(T, z) < 0 ==> ReadL(T, z) < -1
  {
  }

  lemma MarkedIdleL(T: Text, P: Plan, cells: seq<int>, SA: seq<int>, i: int)
    requires Shape(T, P) && MarkedL(T, P, cells, SA) && 0 <= i < |T| && |SA| == |cells| && cells[i] < -1
    ensures MarkedL(T, P, cells[i := Not(cells[i])], SA[i := Not(SA[i])])
  {
    hide FlagL;
  }

  /** Put the L suffix j at the pointer of its bucket; mark it if its key was last used at
      another value of the counter. */
  method PlaceL2(T: Text, SA: array<int>, B: array<int>, D: array<int>, c1: nat, b: int, j: nat, d: int, ghost ptr: seq<int>)
    returns (b': int, ghost flag: bool)
    requires 0 < j < |T| && T[j] < B.Length && KeyL(T, j) < D.Length && SA != B && SA != D && B != D
    requires Caches(B[..], ptr, c1, b) && 0 <= ptr[T[j]] < SA.Length
    modifies SA, B, D
    ensures Caches(B[..], ptr[T[j] := ptr[T[j]] + 1], T[j], b')
    ensures flag == (old(D[KeyL(T, j)]) != d) && D[..] == old(D[..])[KeyL(T, j) := d]
    ensures SA[..] == old(SA[..])[ptr[T[j]] := Mark(|T|, EntryL(T, j), flag)]
  {
    b' := SwitchBucket(B, c1, b, T[j], ptr);
    var x: int := j - 1;
    var t: int := 2 * T[j] + if T[x] < T[j] then 1 else 0;
    flag := D[t] != d;
    if D[t] != d {
      x := x + |T|;
      D[t] := d;
    }
    SA[b'] := if t % 2 == 1 then Not(x) else x;
    b' := b' + 1;
  }

  /** Scan one slot from the left. */
  method ScanSlot2L(T: Text, SA: array<int>, B: array<int>, D: array<int>, c1: nat, b: int, d: int, i: nat,
                    ghost seed: seq<int>, ghost P: Plan, ghost ptr: seq<int>, ghost cells: seq<int>)
    returns (c1': nat, b': int, d': int)
    requires i < |T| <= SA.Length && SA != B && SA != D && B != D && Caches(B[..], ptr, c1, b)
    requires StateL(T, seed, P, ptr, cells, SA[..], D[..], d, i)
    modifies SA, B, D
    ensures |cells| == SA.Length && Caches(B[..], AdvancedL(T, ptr, cells, i), c1', b')
    ensures StateL(T, seed, P, AdvancedL(T, ptr, cells, i), ScannedL(T, ptr, cells, i), SA[..], D[..], d', i + 1)
  {
    hide StateL, ScannedL, Mark, EntryL, CounterL, FlagL, LPlan, KeyL, IsS;
    c1', b', d' := c1, b, d;
    ghost var was, table := SA[..], D[..];
    var j := SA[i];
    if 0 < j {
      StateReadL(T, seed, P, ptr, cells, was, table, d, i);
      if |T| <= j {
        d' := d + 1;
        j := j - |T|;
      }
      ghost var flag;
      b', flag := PlaceL2(T, SA, B, D, c1, b, j, d', ptr);
      c1' := T[j];
      SA[i] := 0;
      StateMoveL(T, seed, P, ptr, cells, was, table, d, i, SA[..], D[..]);
    } else {
      if j < 0 { SA[i] := Not(j); }
      StateIdleL(T, seed, P, ptr, cells, was, table, d, i, SA[..]);
    }
  }

  lemma MarkedPlace(T: Text, P: Plan, cells: seq<int>, SA: seq<int>, r: int, v: int)
    requires Shape(T, P) && MarkedL(T, P, cells, SA) && 0 <= r < |T| && v != 0 && FlagL(T, P, r)
    ensures |SA| == |cells| && MarkedL(T, P, cells[r := v], SA[r := Mark(|T|, v, true)])
  {
    hide FlagL;
  }

  /** The scan starts with the last position, which is marked in any case. */
  lemma StateFirstL(T: Text, seed: seq<int>, P: Plan, ptr: seq<int>, cells: seq<int>, SA: seq<int>, D: seq<int>)
    requires SeededPlan(T, seed, P) && Shape(T, P) && SeedsPlaced(T, P, cells) && MarkedL(T, P, cells, SA)
    requires Starts(T, ptr, |ptr|) && Alphabet(T, |ptr|) && |D| == 2 * |ptr| && forall t :: 0 <= t < |D| ==> D[t] == 0
    ensures 0 < |T| - 1 && T[|T| - 1] < |ptr| && 0 <= ptr[T[|T| - 1]] < |T| <= |cells| == |SA|
    ensures var j, r := |T| - 1, ptr[T[|T| - 1]];
      StateL(T, seed, P, ptr[T[j] := r + 1], cells[r := EntryL(T, j)], SA[r := Mark(|T|, EntryL(T, j), true)], D, 0, 0)
  {
    hide SeededPlan, LPlan, SPlan, FromLms, IsS, CellsL, PointersL, MarkedL, SeedsPlaced, Starts, TallyL, FlagL, EntryL, CounterL, Start;
    PlanParts(T, seed, P);
    SeedFacts(T, P, cells);
    LastIsL(T, P);
    FirstL(T, P, ptr, cells);
    PointersLInit(T, P, ptr, |ptr|);
    NextSlotL(T, P, ptr, -1, |T| - 1);
    LastStartsClass(T, seed, P);
    EntryNotZero(T, P, |T| - 1);
    MarkedPlace(T, P, cells, SA, P.src[|T| - 1], EntryL(T, |T| - 1));
    TallyStartL(T, P, D);
    var j, r := |T| - 1, ptr[T[|T| - 1]];
    StateIsL(T, seed, P, ptr[T[j] := r + 1], cells[r := EntryL(T, j)], SA[r := Mark(|T|, EntryL(T, j), true)], D, 0, 0);
  }

  lemma MarkedTail(T: Text, P: Plan, cells: seq<int>, SA: seq<int>)
    requires Shape(T, P) && MarkedL(T, P, cells, SA)
    ensures |SA| == |cells| >= |T| && SA[|T|..] == cells[|T|..]
  {
  }

  lemma LastEntry(T: Text, n: int)
    requires n == |T| > 1
    ensures Mark(n, EntryL(T, n - 1), true) == if T[n - 2] < T[n - 1] then Not(n - 2 + n) else n - 2 + n
  {
  }

  lemma StateTailL(T: Text, seed: seq<int>, P: Plan, ptr: seq<int>, cells: seq<int>, SA: seq<int>, D: seq<int>, d: int, i: int)
    requires StateL(T, seed, P, ptr, cells, SA, D, d, i) && i < |T|
    ensures 0 <= i < |T| <= |cells| && |ScannedL(T, ptr, cells, i)| == |cells| && ScannedL(T, ptr, cells, i)[|T|..] == cells[|T|..]
    ensures |AdvancedL(T, ptr, cells, i)| == |ptr|
  {
    hide StateL, LPlan, SPlan, FromLms, CellsL, PointersL, MarkedL, TallyL, SeededPlan, ScannedL, IsS;
    StatePartsL(T, seed, P, ptr, cells, SA, D, d, i);
    ScanL(T, P, ptr, cells, i);
  }

  /** First scan: when it ends, the cells are those of LMSsort1, marked. */
  method SortL2(T: Text, SA: array<int>, B: array<int>, D: array<int>, ghost seed: seq<int>, ghost P: Plan, ghost cells0: seq<int>)
    returns (d: int, ghost ptr: seq<int>, ghost cells: seq<int>)
    requires |T| <= SA.Length && SA != B && SA != D && B != D
    requires Alphabet(T, B.Length) && Starts(T, B[..], B.Length) && D.Length == 2 * B.Length && forall t :: 0 <= t < D.Length ==> D[t] == 0
    requires SeededPlan(T, seed, P) && Shape(T, P) && SeedsPlaced(T, P, cells0) && MarkedL(T, P, cells0, SA[..])
    modifies SA, B, D
    ensures StateL(T, seed, P, ptr, cells, SA[..], D[..], d, |T|) && |ptr| == B.Length && |cells| == SA.Length
    ensures cells[|T|..] == old(SA[|T|..])
  {
    hide SeededPlan, MarkedL, SeedsPlaced, StateL, Starts, ScannedL, AdvancedL, Mark, EntryL, IsS;
    ptr, cells := B[..], cells0;
    ghost var rest := SA[|T|..];
    MarkedTail(T, P, cells, SA[..]);
    StateFirstL(T, seed, P, ptr, cells, SA[..], D[..]);
    var n := |T|;
    var j := n - 1;
    var c1 := T[j];
    var b := B[c1];
    j := j - 1;
    var t := if T[j] < c1 then 1 else 0;
    var x := j + n;
    LastEntry(T, n);
    SA[b] := if t == 1 then Not(x) else x;
    cells := cells[b := EntryL(T, n - 1)];
    ptr := ptr[c1 := b + 1];
    b := b + 1;
    d := 0;
    for i := 0 to n
      invariant Caches(B[..], ptr, c1, b) && |ptr| == B.Length
      invariant StateL(T, seed, P, ptr, cells, SA[..], D[..], d, i) && |cells| == SA.Length && cells[n..] == rest
    {
      StateTailL(T, seed, P, ptr, cells, SA[..], D[..], d, i);
      c1, b, d := ScanSlot2L(T, SA, B, D, c1, b, d, i, seed, P, ptr, cells);
      cells, ptr := ScannedL(T, ptr, cells, i), AdvancedL(T, ptr, cells, i);
    }
  }

  // ---- between the scans

  /** The marks of the first scan, of which only those of kept entries are left. */
  lemma ReadyToTurn(T: Text, seed: seq<int>, P: Plan, ptr: seq<int>, cells: seq<int>, SA: seq<int>, D: seq<int>, d: int)
    requires StateL(T, seed, P, ptr, cells, SA, D, d, |T|)
    ensures Shape(T, P) && Contiguous(KeepsL(T, P), LabelsL(T, P))
    ensures Turned(KeepsL(T, P), LabelsL(T, P), cells, SA, |T| - 1)
  {
    hide StateL, LPlan, SPlan, FromLms, IsS, SeededPlan, TallyL, CounterL, PointersL, KeptL, LabelsL, First, ReadL, Contiguous;
    StatePartsL(T, seed, P, ptr, cells, SA, D, d, |T|);
    ContiguousL(T, seed, P);
    var on, lab := KeepsL(T, P), LabelsL(T, P);
    forall r | 0 <= r < |T|
      ensures 0 <= cells[r] < |T| && (on[r] <==> cells[r] > 0)
      ensures SA[r] == cells[r] + if First(on, lab, r) then |T| else 0
    {
      KeptRange(T, P.occ[r]);
      KindsApart(T, P, r);
      FirstOn(on, lab, r);
    }
  }

  lemma KeptRange(T: Text, z: int)
    ensures 0 <= KeptL(T, z) && (KeptL(T, z) > 0 ==> KeptL(T, z) < |T|)
    ensures |T| > 0 ==> KeptL(T, z) < |T|
  {
  }

  lemma FirstOn(on: seq<bool>, lab: seq<Label>, r: int)
    requires 0 <= r < |on| == |lab|
    ensures First(on, lab, r) ==> on[r]
  {
  }

  /** An entry kept for the second scan was not read to go on in the first. */
  lemma KindsApart(T: Text, P: Plan, r: int)
    requires Shape(T, P) && 0 <= r < |T| && FromLms(T, P)
    ensures KeptL(T, P.occ[r]) > 0 ==> (FlagL(T, P, r) <==> First(KeepsL(T, P), LabelsL(T, P), r))
  {
    hide LabelsL;
  }

  /** After the step the marks are those with which the second scan starts. */
  lemma TurnedMarks(T: Text, seed: seq<int>, P: Plan, cells: seq<int>, SA: seq<int>)
    requires SeededPlan(T, seed, P) && Shape(T, P) && CellsL(T, P, cells, |T|)
    requires Turned(KeepsL(T, P), LabelsL(T, P), cells, SA, -1)
    ensures MarkedS(T, P, cells, SA)
  {
    hide SeededPlan, LPlan, SPlan, FromLms, IsS, KeptL, LabelsL, Last, First;
    PlanParts(T, seed, P);
    forall r | 0 <= r < |T| ensures SA[r] == Mark(|T|, cells[r], cells[r] != 0 && FlagS(T, P, r)) {
      if cells[r] > 0 {
        SameMarks(T, seed, P, r);
      } else {
        LastOn(KeepsL(T, P), LabelsL(T, P), r);
      }
    }
  }

  lemma LastOn(on: seq<bool>, lab: seq<Label>, r: int)
    requires 0 <= r < |on| == |lab|
    ensures Last(on, lab, r) ==> on[r]
  {
  }

  /** SA holds the cells of LMSsort1, marked where a class ends. */
  ghost predicate MarkedS(T: Text, P: Plan, cells: seq<int>, SA: seq<int>)
    requires Shape(T, P)
  {
    && |SA| == |cells| >= |T| && SA[|T|..] == cells[|T|..]
    && forall r :: 0 <= r < |T| ==> SA[r] == Mark(|T|, cells[r], cells[r] != 0 && FlagS(T, P, r))
  }

  /** The last of a class of kept entries is the last among all entries that the second
      scan reads. */
  lemma SameMarks(T: Text, seed: seq<int>, P: Plan, r: int)
    requires SeededPlan(T, seed, P) && Shape(T, P) && 0 <= r < |T| && KeptL(T, P.occ[r]) > 0
    ensures FlagS(T, P, r) <==> Last(KeepsL(T, P), LabelsL(T, P), r)
  {
    hide SeededPlan, LPlan, SPlan, FromLms, IsS, KeptL, KeptS, ReadS, LabelOf, ReadLabel;
    PlanParts(T, seed, P);
    KeptSlot(T, P, r);
    forall c | r < c < |T| && LabelsS(T, P)[c] == LabelsS(T, P)[r] && ReadsS(T, P)[c]
      ensures KeepsL(T, P)[c] && LabelsL(T, P)[c] == LabelsL(T, P)[r]
    {
      SlotReadS(T, P, c);
      SlotReadS(T, P, r);
      SameLabelType(T, P.inv[c], P.inv[r]);
      ReadOfL(T, P, c);
      KeptSlot(T, P, c);
    }
    forall c | r < c < |T| && LabelsL(T, P)[c] == LabelsL(T, P)[r] && KeepsL(T, P)[c]
      ensures ReadsS(T, P)[c] && LabelsS(T, P)[c] == LabelsS(T, P)[r]
    {
      KeptSlot(T, P, c);
    }
  }

  /** A kept entry is the same in both arrangements. */
  lemma KeptSlot(T: Text, P: Plan, r: int)
    requires LPlan(T, P) && SPlan(T, P) && FromLms(T, P) && 0 <= r < |T| && KeptL(T, P.occ[r]) > 0
    ensures P.inv[r] == P.occ[r] && 0 <= P.inv[r] < |T| && IsL(T, P.inv[r])
    ensures ReadsS(T, P)[r] && !KeepsS(T, P)[r] && KeepsL(T, P)[r] && LabelsS(T, P)[r] == LabelsL(T, P)[r]
  {
    hide IsS, LContiguous, LOrdered, SContiguous, SOrdered, LabelOf;
    OccupantL(T, P, r);
    var z := P.occ[r];
    assert P.w[z] == P.src[z] == r && P.inv[P.w[z]] == z;
  }

  /** An L suffix from which the second scan goes on was kept by the first. */
  lemma ReadOfL(T: Text, P: Plan, c: int)
    requires LPlan(T, P) && SPlan(T, P) && FromLms(T, P) && 0 <= c < |T| && ReadsS(T, P)[c]
    requires 0 <= P.inv[c] < |T| && IsL(T, P.inv[c])
    ensures P.occ[c] == P.inv[c] && KeptL(T, P.occ[c]) > 0
  {
    hide IsS, LContiguous, LOrdered, SContiguous, SOrdered, LabelOf;
    OccupantS(T, P, c);
    var z := P.inv[c];
    assert InFirstPass(T, P.lo, z);
    assert P.w[z] == P.src[z] == c && P.occ[P.src[z]] == z;
  }

  // ---- second scan

  /** The state of the second scan before slot i is read; the counter starts from base. */
  ghost predicate StateS(T: Text, seed: seq<int>, P: Plan, ptr: seq<int>, cells: seq<int>, SA: seq<int>, D: seq<int>,
                         base: int, d: int, i: int) {
    && SeededPlan(T, seed, P) && -1 <= i < |T| <= |cells| && CellsS(T, P, cells, i) && PointersS(T, P, ptr, i)
    && MarkedS(T, P, cells, SA) && |D| == 2 * |ptr| && TallyS(T, P, D, base, i) && d == base + CounterS(T, P, i + 1)
  }

  lemma StatePartsS(T: Text, seed: seq<int>, P: Plan, ptr: seq<int>, cells: seq<int>, SA: seq<int>, D: seq<int>, base: int, d: int, i: int)
    requires StateS(T, seed, P, ptr, cells, SA, D, base, d, i)
    ensures LPlan(T, P) && SPlan(T, P) && FromLms(T, P) && Shape(T, P) && 0 < P.lo < |T| && SeededPlan(T, seed, P)
    ensures |T| <= |cells| == |SA| && -1 <= i < |T| && CellsS(T, P, cells, i) && PointersS(T, P, ptr, i) && Alphabet(T, |ptr|)
    ensures MarkedS(T, P, cells, SA) && |D| == 2 * |ptr| && TallyS(T, P, D, base, i) && d == base + CounterS(T, P, i + 1)
  {
    hide IsS, IsLms, LPlan, SPlan, SlotsFollow, SeedsOk, CellsS, TallyS, CounterS;
    PlanParts(T, seed, P);
    PointersAlphabet(T, P, ptr, i);
  }

  lemma StateIsS(T: Text, seed: seq<int>, P: Plan, ptr: seq<int>, cells: seq<int>, SA: seq<int>, D: seq<int>, base: int, d: int, i: int)
    requires SeededPlan(T, seed, P) && Shape(T, P) && -1 <= i < |T| <= |cells| && CellsS(T, P, cells, i) && PointersS(T, P, ptr, i)
    requires MarkedS(T, P, cells, SA) && |D| == 2 * |ptr| && TallyS(T, P, D, base, i) && d == base + CounterS(T, P, i + 1)
    ensures StateS(T, seed, P, ptr, cells, SA, D, base, d, i)
  {
  }

  lemma MarkedAtS(T: Text, P: Plan, cells: seq<int>, SA: seq<int>, r: int)
    requires Shape(T, P) && MarkedS(T, P, cells, SA) && 0 <= r < |T|
    ensures |SA| == |cells| && SA[r] == Mark(|T|, cells[r], cells[r] != 0 && FlagS(T, P, r))
  {
  }

  lemma CounterStepS(T: Text, P: Plan, i: int)
    requires Shape(T, P) && 0 <= i < |T|
    ensures ReadS(T, P.inv[i]) <= 0 ==> CounterS(T, P, i) == CounterS(T, P, i + 1)
    ensures ReadS(T, P.inv[i]) > 0 && KeptS(T, P.inv[i]) == 0 ==>
      CounterS(T, P, i) == CounterS(T, P, i + 1) + if FlagS(T, P, i) then 1 else 0
  {
    hide ReadS, KeptS, LabelsS;
  }

  lemma StateReadS(T: Text, seed: seq<int>, P: Plan, ptr: seq<int>, cells: seq<int>, SA: seq<int>, D: seq<int>, base: int, d: int, i: int)
    requires StateS(T, seed, P, ptr, cells, SA, D, base, d, i) && 0 <= i < |T| && i < |SA| && SA[i] > 0
    ensures Shape(T, P) && |cells| == |SA| && (SA[i] >= |T| <==> FlagS(T, P, i))
    ensures var j := if SA[i] >= |T| then SA[i] - |T| else SA[i];
      && j == cells[i] && 0 < P.lo <= j < |T| && IsS(T, j) && P.frm[j] == i && T[j] < |ptr| && KeyS(T, j) < |D|
      && ptr[T[j]] - 1 == P.w[j] && 0 <= P.w[j] < i
      && (D[KeyS(T, j)] != base + CounterS(T, P, i) <==> FlagS(T, P, P.w[j]))
    ensures base + CounterS(T, P, i) == d + if SA[i] >= |T| then 1 else 0
  {
    hide StateS, LPlan, SPlan, FromLms, IsS, IsLms, CellsS, PointersS, MarkedS, TallyS, CounterS, FlagS, SeededPlan, KeptS, ReadS;
    StatePartsS(T, seed, P, ptr, cells, SA, D, base, d, i);
    MarkedAtS(T, P, cells, SA, i);
    ReadSlotS(T, P, cells, i);
    ReadMeansS(T, P, cells, i);
    var j := cells[i];
    NextSlotS(T, P, ptr, i, j);
    CounterStepS(T, P, i);
    DecideS(T, seed, P, D, base, j, i);
  }

  lemma EntryNotZeroS(T: Text, P: Plan, j: int)
    requires FromLms(T, P) && 0 < P.lo <= j < |T| && IsS(T, j)
    ensures EntryS(T, j) != 0
  {
    LeftNeighbour(T, j);
  }

  lemma MarkedMoveS(T: Text, P: Plan, cells: seq<int>, SA: seq<int>, i: int, r: int, v: int)
    requires Shape(T, P) && MarkedS(T, P, cells, SA) && 0 <= i < |T| && 0 <= r < |T| && i != r && v != 0 && |SA| == |cells|
    ensures MarkedS(T, P, cells[r := v][i := 0], SA[r := Mark(|T|, v, FlagS(T, P, r))][i := 0])
  {
    hide FlagS;
  }

  lemma StateMoveS(T: Text, seed: seq<int>, P: Plan, ptr: seq<int>, cells: seq<int>, SA: seq<int>, D: seq<int>,
                   base: int, d: int, i: int, SA': seq<int>, D': seq<int>)
    requires StateS(T, seed, P, ptr, cells, SA, D, base, d, i) && 0 <= i < |T| && i < |SA| && SA[i] > 0
    requires |cells| == |SA| && Shape(T, P) && 0 < cells[i] < |T| && 0 <= P.w[cells[i]] < |T| && i != P.w[cells[i]]
    requires SA' == SA[P.w[cells[i]] := Mark(|T|, EntryS(T, cells[i]), FlagS(T, P, P.w[cells[i]]))][i := 0]
    requires KeyS(T, cells[i]) < |D| && D' == D[KeyS(T, cells[i]) := base + CounterS(T, P, i)]
    ensures StateS(T, seed, P, AdvancedS(T, ptr, cells, i), ScannedS(T, ptr, cells, i), SA', D', base, base + CounterS(T, P, i), i - 1)
  {
    hide StateS, LPlan, SPlan, FromLms, IsS, IsLms, CellsS, PointersS, TallyS, CounterS, FlagS, SeededPlan, EntryS;
    StatePartsS(T, seed, P, ptr, cells, SA, D, base, d, i);
    StateReadS(T, seed, P, ptr, cells, SA, D, base, d, i);
    var j := cells[i];
    ScanS(T, P, ptr, cells, i);
    TallyStepS(T, P, D, base, j, i);
    EntryNotZeroS(T, P, j);
    MarkedMoveS(T, P, cells, SA, i, P.w[j], EntryS(T, j));
    StateIsS(T, seed, P, AdvancedS(T, ptr, cells, i), ScannedS(T, ptr, cells, i), SA', D', base, base + CounterS(T, P, i), i - 1);
  }

  lemma StateIdleS(T: Text, seed: seq<int>, P: Plan, ptr: seq<int>, cells: seq<int>, SA: seq<int>, D: seq<int>, base: int, d: int, i: int)
    requires StateS(T, seed, P, ptr, cells, SA, D, base, d, i) && 0 <= i < |T| && i < |SA| && SA[i] <= 0
    ensures |cells| == |SA| && cells[i] <= 0
    ensures StateS(T, seed, P, AdvancedS(T, ptr, cells, i), ScannedS(T, ptr, cells, i), SA, D, base, d, i - 1)
  {
    hide StateS, LPlan, SPlan, FromLms, IsS, IsLms, CellsS, PointersS, TallyS, CounterS, FlagS, SeededPlan, ReadS,
         KeptS, NoneFromS, MarkedS;
    StatePartsS(T, seed, P, ptr, cells, SA, D, base, d, i);
    MarkedAtS(T, P, cells, SA, i);
    ReadSlotS(T, P, cells, i);
    ReadIdleS(T, P, cells, i);
    ScanS(T, P, ptr, cells, i);
    TallyIdleS(T, P, D, base, i);
    CounterStepS(T, P, i);
    StateIsS(T, seed, P, AdvancedS(T, ptr, cells, i), ScannedS(T, ptr, cells, i), SA, D, base, d, i - 1);
  }

  method PlaceS2(T: Text, SA: array<int>, B: array<int>, D: array<int>, c1: nat, b: int, j: nat, d: int, ghost ptr: seq<int>)
    returns (b': int, ghost flag: bool)
    requires 0 < j < |T| && T[j] < B.Length && KeyS(T, j) < D.Length && SA != B && SA != D && B != D
    requires Caches(B[..], ptr, c1, b) && 0 < ptr[T[j]] <= SA.Length
    modifies SA, B, D
    ensures Caches(B[..], ptr[T[j] := ptr[T[j]] - 1], T[j], b')
    ensures flag == (old(D[KeyS(T, j)]) != d) && D[..] == old(D[..])[KeyS(T, j) := d]
    ensures SA[..] == old(SA[..])[ptr[T[j]] - 1 := Mark(|T|, EntryS(T, j), flag)]
  {
    b' := SwitchBucket(B, c1, b, T[j], ptr);
    var x: int := j - 1;
    var t: int := 2 * T[j] + if T[x] > T[j] then 1 else 0;
    flag := D[t] != d;
    if D[t] != d {
      x := x + |T|;
      D[t] := d;
    }
    b' := b' - 1;
    SA[b'] := if t % 2 == 1 then Not(x + 1) else x;
  }

  /** Scan one slot from the right. */
  method ScanSlot2S(T: Text, SA: array<int>, B: array<int>, D: array<int>, c1: nat, b: int, d: int, i: nat, ghost base: int,
                    ghost seed: seq<int>, ghost P: Plan, ghost ptr: seq<int>, ghost cells: seq<int>)
    returns (c1': nat, b': int, d': int)
    requires i < |T| <= SA.Length && SA != B && SA != D && B != D && Caches(B[..], ptr, c1, b)
    requires StateS(T, seed, P, ptr, cells, SA[..], D[..], base, d, i)
    modifies SA, B, D
    ensures |cells| == SA.Length && Caches(B[..], AdvancedS(T, ptr, cells, i), c1', b')
    ensures StateS(T, seed, P, AdvancedS(T, ptr, cells, i), ScannedS(T, ptr, cells, i), SA[..], D[..], base, d', i - 1)
  {
    hide StateS, ScannedS, Mark, EntryS, CounterS, FlagS, LPlan, KeyS, IsS;
    c1', b', d' := c1, b, d;
    ghost var was, table := SA[..], D[..];
    var j := SA[i];
    if 0 < j {
      StateReadS(T, seed, P, ptr, cells, was, table, base, d, i);
      if |T| <= j {
        d' := d + 1;
        j := j - |T|;
      }
      ghost var flag;
      b', flag := PlaceS2(T, SA, B, D, c1, b, j, d', ptr);
      c1' := T[j];
      SA[i] := 0;
      StateMoveS(T, seed, P, ptr, cells, was, table, base, d, i, SA[..], D[..]);
    } else {
      StateIdleS(T, seed, P, ptr, cells, was, table, base, d, i);
    }
  }

  lemma StateTailS(T: Text, seed: seq<int>, P: Plan, ptr: seq<int>, cells: seq<int>, SA: seq<int>, D: seq<int>, base: int, d: int, i: int)
    requires StateS(T, seed, P, ptr, cells, SA, D, base, d, i) && 0 <= i
    ensures 0 <= i < |T| <= |cells| && |ScannedS(T, ptr, cells, i)| == |cells| && ScannedS(T, ptr, cells, i)[|T|..] == cells[|T|..]
    ensures |AdvancedS(T, ptr, cells, i)| == |ptr|
  {
    hide StateS, LPlan, SPlan, FromLms, CellsS, PointersS, MarkedS, TallyS, SeededPlan, ScannedS, IsS;
    StatePartsS(T, seed, P, ptr, cells, SA, D, base, d, i);
    ScanS(T, P, ptr, cells, i);
  }

  /** What LMSsort2 leaves: each LMS position flagged in its slot, marked if it is the last
      with its substring. */
  ghost predicate LmsMarked(T: Text, seed: seq<int>, P: Plan, cells: seq<int>, SA: seq<int>) {
    SeededPlan(T, seed, P) && LmsLeft(T, P, cells) && MarkedS(T, P, cells, SA)
  }

  lemma StateDoneS(T: Text, seed: seq<int>, P: Plan, ptr: seq<int>, cells: seq<int>, SA: seq<int>, D: seq<int>, base: int, d: int)
    requires StateS(T, seed, P, ptr, cells, SA, D, base, d, -1)
    ensures LmsMarked(T, seed, P, cells, SA)
  {
    hide LPlan, SPlan, IsS, SlotsFollow, SeedsOk, TallyS, CounterS, MarkedS, PointersS;
  }

  method SortS2(T: Text, SA: array<int>, B: array<int>, D: array<int>, base: int, ghost seed: seq<int>,
                ghost P: Plan, ghost ptr0: seq<int>, ghost cells0: seq<int>)
    returns (ghost cells: seq<int>)
    requires 0 < |T| <= SA.Length && 0 < B.Length && SA != B && SA != D && B != D && B[..] == ptr0
    requires StateS(T, seed, P, ptr0, cells0, SA[..], D[..], base, base, |T| - 1)
    modifies SA, B, D
    ensures LmsMarked(T, seed, P, cells, SA[..]) && |cells| == SA.Length && cells[|T|..] == cells0[|T|..]
  {
    hide StateS, ScannedS, AdvancedS, IsS, LmsMarked;
    ghost var ptr := ptr0;
    cells := cells0;
    StatePartsS(T, seed, P, ptr, cells, SA[..], D[..], base, base, |T| - 1);
    var i := |T| - 1;
    var d := base;
    var c1 := 0;
    var b := B[c1];
    while 0 <= i
      invariant -1 <= i < |T| && Caches(B[..], ptr, c1, b)
      invariant StateS(T, seed, P, ptr, cells, SA[..], D[..], base, d, i) && |cells| == SA.Length && cells[|T|..] == cells0[|T|..]
    {
      StateTailS(T, seed, P, ptr, cells, SA[..], D[..], base, d, i);
      c1, b, d := ScanSlot2S(T, SA, B, D, c1, b, d, i, base, seed, P, ptr, cells);
      cells, ptr := ScannedS(T, ptr, cells, i), AdvancedS(T, ptr, cells, i);
      i := i - 1;
    }
    StateDoneS(T, seed, P, ptr, cells, SA[..], D[..], base, d);
  }

  /** No cell of D is above the counter when the first scan ends. */
  lemma TallyBound(T: Text, seed: seq<int>, P: Plan, ptr: seq<int>, cells: seq<int>, SA: seq<int>, D: seq<int>, d: int)
    requires StateL(T, seed, P, ptr, cells, SA, D, d, |T|)
    ensures forall t :: 0 <= t < |D| ==> D[t] < d + 1
  {
    hide StateL, LPlan, SPlan, FromLms, IsS, SeededPlan, TallyL, CounterL, PointersL, CellsL, MarkedL;
    StatePartsL(T, seed, P, ptr, cells, SA, D, d, |T|);
    forall t | 0 <= t < |D| ensures D[t] < d + 1 { BoundL(T, P, D, t, |T|); }
  }

  /** The state with which the second scan starts. */
  lemma StateFirstS(T: Text, seed: seq<int>, P: Plan, ptr: seq<int>, cells: seq<int>, SA: seq<int>, D: seq<int>, base: int)
    requires 0 < |T| && SeededPlan(T, seed, P) && Shape(T, P) && CellsL(T, P, cells, |T|) && MarkedS(T, P, cells, SA)
    requires Ends(T, ptr, |ptr|) && Alphabet(T, |ptr|) && |D| == 2 * |ptr| && forall t :: 0 <= t < |D| ==> D[t] < base
    ensures StateS(T, seed, P, ptr, cells, SA, D, base, base, |T| - 1)
  {
    hide LPlan, SPlan, FromLms, IsS, SeededPlan, TallyS, CounterS, PointersS, CellsS, CellsL, MarkedS, Ends, StateS;
    PlanParts(T, seed, P);
    MarkedTailS(T, P, cells, SA);
    FirstS(T, P, ptr, cells);
    TallyStartS(T, P, D, base);
    StateIsS(T, seed, P, ptr, cells, SA, D, base, base, |T| - 1);
  }

  lemma MarkedTailS(T: Text, P: Plan, cells: seq<int>, SA: seq<int>)
    requires Shape(T, P) && MarkedS(T, P, cells, SA)
    ensures |SA| == |cells| >= |T| && SA[|T|..] == cells[|T|..]
  {
  }

  /** LMSsort2: from the marked seeds, the sorted LMS positions, marked by substring. */
  method LmsSort2(T: Text, SA: array<int>, C: array<int>, B: array<int>, D: array<int>, ghost seed: seq<int>,
                  ghost P: Plan, ghost cells0: seq<int>)
    returns (ghost cells: seq<int>)
    requires |T| <= SA.Length && SA != B && SA != C && SA != D && B != C && B != D && C != D && 0 < B.Length == C.Length
    requires Alphabet(T, B.Length) && Counts(T, C[..], C.Length) && D.Length == 2 * B.Length && forall t :: 0 <= t < D.Length ==> D[t] == 0
    requires SeededPlan(T, seed, P) && Shape(T, P) && SeedsPlaced(T, P, cells0) && MarkedL(T, P, cells0, SA[..])
    modifies SA, B, D
    ensures LmsMarked(T, seed, P, cells, SA[..]) && |cells| == SA.Length && SA[|T|..] == old(SA[|T|..])
  {
    hide SeededPlan, MarkedL, SeedsPlaced, StateL, StateS, IsS, LmsMarked, Turned, MarkedS, Contiguous, KeepsL,
         LabelsL, LPlan, SPlan, FromLms, CellsL;
    ghost var ptr, rest := B[..], SA[|T|..];
    PlanParts(T, seed, P);
    GetBuckets(T, C, B, B.Length, false);
    var d;
    d, ptr, cells := SortL2(T, SA, B, D, seed, P, cells0);
    ReadyToTurn(T, seed, P, ptr, cells, SA[..], D[..], d);
    TallyBound(T, seed, P, ptr, cells, SA[..], D[..], d);
    StatePartsL(T, seed, P, ptr, cells, SA[..], D[..], d, |T|);
    Turn(SA, |T|, KeepsL(T, P), LabelsL(T, P), cells);
    TurnedMarks(T, seed, P, cells, SA[..]);
    GetBuckets(T, C, B, B.Length, true);
    StateFirstS(T, seed, P, B[..], cells, SA[..], D[..], d + 1);
    cells := SortS2(T, SA, B, D, d + 1, seed, P, B[..], cells);
    MarkedTailOf(T, seed, P, cells, SA[..]);
  }

  lemma MarkedTailOf(T: Text, seed: seq<int>, P: Plan, cells: seq<int>, SA: seq<int>)
    requires LmsMarked(T, seed, P, cells, SA)
    ensures |SA| == |cells| >= |T| && SA[|T|..] == cells[|T|..]
  {
  }
}
