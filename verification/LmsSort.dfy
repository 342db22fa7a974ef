/** LMSsort1: the two scans of induced sorting, run from unsorted LMS positions, leave
    the LMS positions in the order of the substrings that start at them.  An entry here
    names the left neighbour of the suffix whose slot it is in, so that an entry is
    consumed by the scan that reads it; the LMS positions alone stay behind, flagged. */
module LmsSort {
  import opened Suffixes
  import opened Buckets
  import opened InducedOrder
  import opened InducedSlots
  import opened Passes

  /** Substring sorting starts from the leftmost LMS position. */
  ghost predicate FromLms(T: Text, P: Plan) {
    Shape(T, P) && P.lo < |T| && IsLms(T, P.lo)
  }

  ghost function EntryL(T: Text, x: int): int
    requires 0 < x < |T|
  {
    if T[x - 1] < T[x] then Not(x - 1) else x - 1
  }

  ghost function EntryS(T: Text, x: int): int
    requires 0 < x < |T|
  {
    if T[x - 1] > T[x] then Not(x) else x - 1
  }

  ghost function ReadL(T: Text, z: int): int {
    if !(0 < z < |T|) then 0 else if IsL(T, z) then EntryL(T, z) else z - 1
  }

  /** What the first scan leaves of an entry for the second. */
  ghost function KeptL(T: Text, z: int): int {
    if 0 < z < |T| && IsL(T, z) && T[z - 1] < T[z] then z - 1 else 0
  }

  ghost function CellL(T: Text, P: Plan, i: int, r: int): int
    requires Shape(T, P) && 0 <= r < |T|
  {
    var z := P.occ[r];
    if r < i then KeptL(T, z)
    else if 0 <= z < |T| && IsL(T, z) && P.frm[z] >= i then 0
    else ReadL(T, z)
  }

  ghost predicate CellsL(T: Text, P: Plan, SA: seq<int>, i: int)
    requires Shape(T, P)
  {
    |SA| >= |T| && forall r :: 0 <= r < |T| ==> SA[r] == CellL(T, P, i, r)
  }

  /** Each seed p is placed as p - 1; every other slot is 0. */
  ghost predicate SeedsPlaced(T: Text, P: Plan, SA: seq<int>)
    requires Shape(T, P)
  {
    |SA| >= |T| && forall r :: 0 <= r < |T| ==> SA[r] == if IsSeed(T, P.lo, P.occ[r]) then P.occ[r] - 1 else 0
  }

  lemma LeftNeighbour(T: Text, x: nat)
    requires 0 < x < |T|
    ensures IsL(T, x) ==> (IsS(T, x - 1) <==> T[x - 1] < T[x])
    ensures IsS(T, x) ==> (IsL(T, x - 1) <==> T[x - 1] > T[x])
  {
  }

  lemma StartL(T: Text, P: Plan, SA: seq<int>)
    requires LPlan(T, P) && FromLms(T, P) && SeedsPlaced(T, P, SA)
    ensures CellsL(T, P, SA, -1)
  {
    hide IsS;
    forall r | 0 <= r < |T| ensures SA[r] == CellL(T, P, -1, r) {
      var z := P.occ[r];
      if z != -1 { assert InFirstPass(T, P.lo, z); }
    }
  }

  lemma ReadSlotL(T: Text, P: Plan, SA: seq<int>, i: int)
    requires LPlan(T, P) && FromLms(T, P) && CellsL(T, P, SA, i) && 0 <= i < |T|
    ensures SA[i] == ReadL(T, P.occ[i])
    ensures P.occ[i] == -1 || (InFirstPass(T, P.lo, P.occ[i]) && P.lo < P.occ[i])
  {
    hide IsS;
    var z := P.occ[i];
    if z != -1 && IsL(T, z) {
      assert P.src[z] == i;
    }
  }

  lemma FactsL(T: Text, P: Plan, SA: seq<int>, i: int)
    requires LPlan(T, P) && FromLms(T, P) && CellsL(T, P, SA, i)
    ensures Shape(T, P) && 0 < P.lo && |SA| >= |T|
  {
  }

  lemma SeedFacts(T: Text, P: Plan, SA: seq<int>)
    requires LPlan(T, P) && FromLms(T, P) && SeedsPlaced(T, P, SA)
    ensures Shape(T, P) && 0 < P.lo < |T| && |SA| >= |T|
  {
  }

  /** A positive entry is the L suffix to be placed next. */
  lemma ReadMeansL(T: Text, P: Plan, SA: seq<int>, i: int)
    requires LPlan(T, P) && FromLms(T, P) && CellsL(T, P, SA, i) && 0 <= i < |T|
    requires SA[i] > 0
    ensures P.lo < SA[i] < |T| && IsL(T, SA[i]) && P.frm[SA[i]] == i && KeptL(T, P.occ[i]) == 0
  {
    hide IsS, IsLms, IsL, LPlan, CellsL, ReadL, KeptL, FromLms, NoneFromL;
    FactsL(T, P, SA, i);
    ReadSlotL(T, P, SA, i);
    EntryMeansL(T, P, P.occ[i]);
    InducedFromL(T, P, i, P.occ[i]);
  }

  /** Any other entry induces nothing. */
  lemma ReadIdleL(T: Text, P: Plan, SA: seq<int>, i: int)
    requires LPlan(T, P) && FromLms(T, P) && CellsL(T, P, SA, i) && 0 <= i < |T|
    requires SA[i] <= 0
    ensures NoneFromL(T, P, i) && KeptL(T, P.occ[i]) == if SA[i] < 0 then Not(SA[i]) else 0
  {
    hide IsS, IsLms, IsL, NoneFromL, LPlan, CellsL, ReadL, KeptL, FromLms;
    FactsL(T, P, SA, i);
    ReadSlotL(T, P, SA, i);
    EntryMeansL(T, P, P.occ[i]);
    InducedFromL(T, P, i, P.occ[i]);
  }

  lemma EntryMeansL(T: Text, P: Plan, z: int)
    requires FromLms(T, P) && (z == -1 || (InFirstPass(T, P.lo, z) && P.lo < z))
    ensures ReadL(T, z) > 0 ==> P.lo < ReadL(T, z) == z - 1 && IsL(T, z - 1) && KeptL(T, z) == 0
    ensures ReadL(T, z) <= 0 ==> z == -1 || !IsL(T, z - 1)
    ensures ReadL(T, z) <= 0 ==> KeptL(T, z) == if ReadL(T, z) < 0 then Not(ReadL(T, z)) else 0
  {
    if z != -1 { LeftNeighbour(T, z); }
  }

  lemma WriteL(T: Text, P: Plan, SA: seq<int>, SA': seq<int>, i: int, j: nat)
    requires LPlan(T, P) && FromLms(T, P) && CellsL(T, P, SA, i) && -1 <= i < |T|
    requires P.lo < j < |T| && IsL(T, j) && P.frm[j] == i
    requires |SA'| == |SA|
    requires forall r :: 0 <= r < |T| && r != i && r != P.src[j] ==> SA'[r] == SA[r]
    requires i < P.src[j] < |T| && SA'[P.src[j]] == EntryL(T, j)
    requires i >= 0 ==> SA'[i] == KeptL(T, P.occ[i])
    ensures CellsL(T, P, SA', i + 1)
  {
    hide IsS, LContiguous, LOrdered;
    assert InFirstPass(T, P.lo, j);
    forall r | 0 <= r < |T| ensures SA'[r] == CellL(T, P, i + 1, r) {
      var z := P.occ[r];
      if r > i && 0 <= z < |T| && IsL(T, z) && P.frm[z] == i {
        assert InFirstPass(T, P.lo, z);
        InducedOnceL(T, P, z, j);
      }
    }
  }

  lemma IdleL(T: Text, P: Plan, SA: seq<int>, SA': seq<int>, i: int)
    requires LPlan(T, P) && FromLms(T, P) && CellsL(T, P, SA, i) && 0 <= i < |T|
    requires NoneFromL(T, P, i)
    requires SA' == SA[i := KeptL(T, P.occ[i])]
    ensures CellsL(T, P, SA', i + 1)
  {
    hide IsS, LContiguous, LOrdered;
    forall r | 0 <= r < |T| ensures SA'[r] == CellL(T, P, i + 1, r) {
      var z := P.occ[r];
      if z != -1 { assert InFirstPass(T, P.lo, z); }
    }
  }

  ghost function ScannedL(T: Text, ptr: seq<int>, cells: seq<int>, i: int): seq<int>
    requires 0 <= i < |cells|
  {
    var j := cells[i];
    if j < 0 then cells[i := Not(j)]
    else if 0 < j < |T| && T[j] < |ptr| && 0 <= ptr[T[j]] < |cells| then cells[ptr[T[j]] := EntryL(T, j)][i := 0]
    else cells
  }

  ghost function AdvancedL(T: Text, ptr: seq<int>, cells: seq<int>, i: int): seq<int>
    requires 0 <= i < |cells|
  {
    var j := cells[i];
    if 0 < j < |T| && T[j] < |ptr| then ptr[T[j] := ptr[T[j]] + 1] else ptr
  }

  lemma LastIsL(T: Text, P: Plan)
    requires LPlan(T, P) && FromLms(T, P)
    ensures IsL(T, |T| - 1) && P.frm[|T| - 1] == -1 && P.lo < |T| - 1
  {
    FromOfL(T, P, |T| - 1);
  }

  lemma FirstL(T: Text, P: Plan, ptr: seq<int>, cells: seq<int>)
    requires LPlan(T, P) && FromLms(T, P) && SeedsPlaced(T, P, cells)
    requires Starts(T, ptr, |ptr|) && Alphabet(T, |ptr|)
    ensures 0 < |T| - 1 && 0 <= ptr[T[|T| - 1]] < |T| <= |cells|
    ensures CellsL(T, P, cells[ptr[T[|T| - 1]] := EntryL(T, |T| - 1)], 0)
    ensures PointersL(T, P, ptr[T[|T| - 1] := ptr[T[|T| - 1]] + 1], 0)
  {
    hide IsS, IsLms, IsL, Start, LPlan, CellsL, PointersL, SeedsPlaced, FromLms;
    SeedFacts(T, P, cells);
    LastIsL(T, P);
    var j := |T| - 1;
    StartL(T, P, cells);
    PointersLInit(T, P, ptr, |ptr|);
    NextSlotL(T, P, ptr, -1, j);
    StepPointersL(T, P, ptr, -1, j);
    WriteL(T, P, cells, cells[ptr[T[j]] := EntryL(T, j)], -1, j);
  }

  /** A positive entry names a suffix whose bucket pointer is inside the array. */
  ghost predicate FitsL(T: Text, ptr: seq<int>, cells: seq<int>, i: int)
    requires 0 <= i < |cells|
  {
    cells[i] > 0 ==> cells[i] < |T| && T[cells[i]] < |ptr| && 0 <= ptr[T[cells[i]]] < |cells|
  }

  lemma ScanMoveL(T: Text, P: Plan, ptr: seq<int>, cells: seq<int>, i: nat)
    requires LPlan(T, P) && FromLms(T, P) && i < |T| <= |cells| && CellsL(T, P, cells, i) && PointersL(T, P, ptr, i)
    requires cells[i] > 0
    ensures cells[i] < |T| && T[cells[i]] < |ptr| && i < ptr[T[cells[i]]] < |T|
    ensures CellsL(T, P, ScannedL(T, ptr, cells, i), i + 1)
    ensures PointersL(T, P, AdvancedL(T, ptr, cells, i), i + 1)
  {
    hide IsS, IsLms, IsL, Start, LPlan, CellsL, PointersL, KeptL, NoneFromL, FromLms;
    FactsL(T, P, cells, i);
    PointersAlphabet(T, P, ptr, i);
    var j := cells[i];
    ReadMeansL(T, P, cells, i);
    NextSlotL(T, P, ptr, i, j);
    StepPointersL(T, P, ptr, i, j);
    assert ScannedL(T, ptr, cells, i) == cells[P.src[j] := EntryL(T, j)][i := 0];
    assert AdvancedL(T, ptr, cells, i) == ptr[T[j] := P.src[j] + 1];
    WriteL(T, P, cells, ScannedL(T, ptr, cells, i), i, j);
  }

  lemma ScanIdleL(T: Text, P: Plan, ptr: seq<int>, cells: seq<int>, i: nat)
    requires LPlan(T, P) && FromLms(T, P) && i < |T| <= |cells| && CellsL(T, P, cells, i) && PointersL(T, P, ptr, i)
    requires cells[i] <= 0
    ensures CellsL(T, P, ScannedL(T, ptr, cells, i), i + 1)
    ensures PointersL(T, P, AdvancedL(T, ptr, cells, i), i + 1)
  {
    hide IsS, IsLms, IsL, Start, LPlan, CellsL, PointersL, KeptL, NoneFromL;
    ReadIdleL(T, P, cells, i);
    IdlePointersL(T, P, ptr, i);
    IdleL(T, P, cells, ScannedL(T, ptr, cells, i), i);
  }

  lemma ScanL(T: Text, P: Plan, ptr: seq<int>, cells: seq<int>, i: nat)
    requires LPlan(T, P) && FromLms(T, P) && i < |T| <= |cells| && CellsL(T, P, cells, i) && PointersL(T, P, ptr, i)
    ensures FitsL(T, ptr, cells, i)
    ensures |ScannedL(T, ptr, cells, i)| == |cells| && ScannedL(T, ptr, cells, i)[|T|..] == cells[|T|..]
    ensures CellsL(T, P, ScannedL(T, ptr, cells, i), i + 1)
    ensures PointersL(T, P, AdvancedL(T, ptr, cells, i), i + 1)
  {
    hide IsS, IsLms, IsL, Start, LPlan, CellsL, PointersL, FromLms;
    if cells[i] > 0 {
      ScanMoveL(T, P, ptr, cells, i);
    } else {
      ScanIdleL(T, P, ptr, cells, i);
    }
  }

  /** Put the L suffix j at the pointer of its bucket, in the form of its left neighbour. */
  method PlaceL(T: Text, SA: array<int>, B: array<int>, c1: nat, b: int, j: nat, ghost ptr: seq<int>) returns (b': int)
    requires 0 < j < |T| && T[j] < B.Length && SA != B
    requires Caches(B[..], ptr, c1, b) && 0 <= ptr[T[j]] < SA.Length
    modifies SA, B
    ensures Caches(B[..], ptr[T[j] := ptr[T[j]] + 1], T[j], b')
    ensures SA[..] == old(SA[..])[ptr[T[j]] := EntryL(T, j)]
  {
    b' := SwitchBucket(B, c1, b, T[j], ptr);
    SA[b'] := if T[j - 1] < T[j] then Not(j - 1) else j - 1;
    b' := b' + 1;
  }

  /** Scan one slot from the left. */
  method ScanSlotL(T: Text, SA: array<int>, B: array<int>, c1: nat, b: int, i: nat, ghost ptr: seq<int>)
    returns (c1': nat, b': int)
    requires i < SA.Length && SA != B && Caches(B[..], ptr, c1, b)
    requires FitsL(T, ptr, SA[..], i)
    modifies SA, B
    ensures Caches(B[..], AdvancedL(T, ptr, old(SA[..]), i), c1', b')
    ensures SA[..] == ScannedL(T, ptr, old(SA[..]), i)
  {
    c1', b' := c1, b;
    var j := SA[i];
    if 0 < j {
      b' := PlaceL(T, SA, B, c1, b, j, ptr);
      c1' := T[j];
      SA[i] := 0;
    } else if j < 0 {
      SA[i] := Not(j);
    }
  }

  method SortL(T: Text, SA: array<int>, B: array<int>, ghost P: Plan)
    requires |T| <= SA.Length && SA != B
    requires Alphabet(T, B.Length) && Starts(T, B[..], B.Length)
    requires LPlan(T, P) && FromLms(T, P) && SeedsPlaced(T, P, SA[..])
    modifies SA, B
    ensures CellsL(T, P, SA[..], |T|)
    ensures SA[|T|..] == old(SA[|T|..])
  {
    hide IsS, IsLms, IsL, Start, LPlan, CellsL, PointersL, SeedsPlaced, Starts, ScannedL, AdvancedL, EntryL, FromLms, FitsL;
    SeedFacts(T, P, SA[..]);
    ghost var ptr, cells, rest := B[..], SA[..], SA[|T|..];
    FirstL(T, P, ptr, cells);
    var n := |T|;
    var j := n - 1;
    var c1 := T[j];
    var b := PlaceL(T, SA, B, c1, B[c1], j, ptr);
    cells, ptr := SA[..], ptr[c1 := ptr[c1] + 1];
    for i := 0 to n
      invariant Caches(B[..], ptr, c1, b)
      invariant SA[..] == cells && cells[n..] == rest
      invariant CellsL(T, P, cells, i) && PointersL(T, P, ptr, i)
    {
      ScanL(T, P, ptr, cells, i);
      c1, b := ScanSlotL(T, SA, B, c1, b, i, ptr);
      cells, ptr := ScannedL(T, ptr, cells, i), AdvancedL(T, ptr, cells, i);
    }
  }

  // ---- second scan

  /** What a scanned slot keeps: the LMS positions, flagged. */
  ghost function KeptS(T: Text, z: int): int {
    if 0 < z < |T| && IsLms(T, z) then Not(z) else 0
  }

  ghost function ReadS(T: Text, z: int): int {
    if !(0 < z < |T|) then 0 else if IsL(T, z) then KeptL(T, z) else EntryS(T, z)
  }

  ghost function CellS(T: Text, P: Plan, i: int, r: int): int
    requires Shape(T, P) && 0 <= r < |T|
  {
    var z := P.inv[r];
    if r > i then KeptS(T, z)
    else if 0 <= z < |T| && IsS(T, z) && P.frm[z] <= i then 0
    else ReadS(T, z)
  }

  ghost predicate CellsS(T: Text, P: Plan, SA: seq<int>, i: int)
    requires Shape(T, P)
  {
    |SA| >= |T| && forall r :: 0 <= r < |T| ==> SA[r] == CellS(T, P, i, r)
  }

  lemma StartS(T: Text, P: Plan, SA: seq<int>)
    requires LPlan(T, P) && SPlan(T, P) && FromLms(T, P) && CellsL(T, P, SA, |T|)
    ensures CellsS(T, P, SA, |T| - 1)
  {
    hide IsS;
    forall r | 0 <= r < |T| ensures SA[r] == CellS(T, P, |T| - 1, r) {
      var z, y := P.inv[r], P.occ[r];
      assert SA[r] == KeptL(T, y);
      if 0 <= y && IsL(T, y) {
        assert P.src[y] == P.w[y] == r;
      }
      if 0 <= z && IsL(T, z) {
        assert InFirstPass(T, P.lo, z);
        assert P.w[z] == P.src[z] == r;
      }
    }
  }

  lemma FactsS(T: Text, P: Plan, SA: seq<int>, i: int)
    requires SPlan(T, P) && FromLms(T, P) && CellsS(T, P, SA, i)
    ensures Shape(T, P) && 0 < P.lo && |SA| >= |T|
  {
  }

  lemma ReadSlotS(T: Text, P: Plan, SA: seq<int>, i: int)
    requires SPlan(T, P) && FromLms(T, P) && CellsS(T, P, SA, i) && 0 <= i < |T|
    ensures SA[i] == ReadS(T, P.inv[i])
    ensures P.inv[i] == -1 || (P.lo <= P.inv[i] < |T| && P.w[P.inv[i]] == i)
  {
    hide IsS;
    var z := P.inv[i];
    if z != -1 { assert P.w[z] == i; }
  }

  lemma EntryMeansS(T: Text, P: Plan, z: int)
    requires FromLms(T, P) && (z == -1 || P.lo <= z < |T|)
    ensures ReadS(T, z) > 0 ==> P.lo <= ReadS(T, z) == z - 1 && IsS(T, z - 1) && KeptS(T, z) == 0
    ensures ReadS(T, z) <= 0 ==> (z == -1 || !IsS(T, z - 1)) && KeptS(T, z) == ReadS(T, z)
  {
    if z != -1 { LeftNeighbour(T, z); }
  }

  /** A positive entry is the S suffix to be placed next. */
  lemma ReadMeansS(T: Text, P: Plan, SA: seq<int>, i: int)
    requires SPlan(T, P) && FromLms(T, P) && CellsS(T, P, SA, i) && 0 <= i < |T|
    requires SA[i] > 0
    ensures P.lo <= SA[i] < |T| && IsS(T, SA[i]) && P.frm[SA[i]] == i && KeptS(T, P.inv[i]) == 0
  {
    hide IsS, IsLms, SPlan, CellsS, ReadS, KeptS, FromLms, NoneFromS;
    FactsS(T, P, SA, i);
    ReadSlotS(T, P, SA, i);
    EntryMeansS(T, P, P.inv[i]);
    InducedFromS(T, P, i, P.inv[i]);
  }

  /** Any other entry induces nothing. */
  lemma ReadIdleS(T: Text, P: Plan, SA: seq<int>, i: int)
    requires SPlan(T, P) && FromLms(T, P) && CellsS(T, P, SA, i) && 0 <= i < |T|
    requires SA[i] <= 0
    ensures NoneFromS(T, P, i) && KeptS(T, P.inv[i]) == SA[i]
  {
    hide IsS, IsLms, SPlan, CellsS, ReadS, KeptS, FromLms, NoneFromS;
    FactsS(T, P, SA, i);
    ReadSlotS(T, P, SA, i);
    EntryMeansS(T, P, P.inv[i]);
    InducedFromS(T, P, i, P.inv[i]);
  }

  lemma WriteS(T: Text, P: Plan, SA: seq<int>, i: int, j: nat)
    requires SPlan(T, P) && FromLms(T, P) && CellsS(T, P, SA, i) && 0 <= i < |T|
    requires P.lo <= j < |T| && IsS(T, j) && P.frm[j] == i && KeptS(T, P.inv[i]) == 0
    ensures 0 <= P.w[j] < i && CellsS(T, P, SA[P.w[j] := EntryS(T, j)][i := 0], i - 1)
  {
    hide IsS, SContiguous;
    var SA' := SA[P.w[j] := EntryS(T, j)][i := 0];
    forall r | 0 <= r < |T| ensures SA'[r] == CellS(T, P, i - 1, r) {
      var z := P.inv[r];
      if 0 <= z && IsS(T, z) && P.frm[z] == i { InducedOnceS(T, P, z, j); }
      assert P.inv[P.w[j]] == j;
    }
  }

  lemma IdleS(T: Text, P: Plan, SA: seq<int>, i: int)
    requires SPlan(T, P) && FromLms(T, P) && CellsS(T, P, SA, i) && 0 <= i < |T|
    requires NoneFromS(T, P, i)
    requires KeptS(T, P.inv[i]) == SA[i]
    ensures CellsS(T, P, SA, i - 1)
  {
    hide IsS, SContiguous;
    forall r | 0 <= r < |T| ensures SA[r] == CellS(T, P, i - 1, r) {
      var z := P.inv[r];
    }
  }

  ghost function ScannedS(T: Text, ptr: seq<int>, cells: seq<int>, i: int): seq<int>
    requires 0 <= i < |cells|
  {
    var j := cells[i];
    if 0 < j < |T| && T[j] < |ptr| && 0 < ptr[T[j]] <= |cells| then cells[ptr[T[j]] - 1 := EntryS(T, j)][i := 0] else cells
  }

  ghost function AdvancedS(T: Text, ptr: seq<int>, cells: seq<int>, i: int): seq<int>
    requires 0 <= i < |cells|
  {
    var j := cells[i];
    if 0 < j < |T| && T[j] < |ptr| then ptr[T[j] := ptr[T[j]] - 1] else ptr
  }

  /** A positive entry names a suffix whose bucket pointer is inside the array. */
  ghost predicate FitsS(T: Text, ptr: seq<int>, cells: seq<int>, i: int)
    requires 0 <= i < |cells|
  {
    cells[i] > 0 ==> cells[i] < |T| && T[cells[i]] < |ptr| && 0 < ptr[T[cells[i]]] <= |cells|
  }

  lemma ScanMoveS(T: Text, P: Plan, ptr: seq<int>, cells: seq<int>, i: nat)
    requires SPlan(T, P) && FromLms(T, P) && i < |T| <= |cells| && CellsS(T, P, cells, i) && PointersS(T, P, ptr, i)
    requires cells[i] > 0
    ensures cells[i] < |T| && T[cells[i]] < |ptr| && 0 < ptr[T[cells[i]]] <= i
    ensures CellsS(T, P, ScannedS(T, ptr, cells, i), i - 1)
    ensures PointersS(T, P, AdvancedS(T, ptr, cells, i), i - 1)
  {
    hide IsS, IsLms, IsL, Start, SPlan, CellsS, PointersS, KeptS, NoneFromS, FromLms;
    FactsS(T, P, cells, i);
    PointersAlphabet(T, P, ptr, i);
    var j := cells[i];
    ReadMeansS(T, P, cells, i);
    NextSlotS(T, P, ptr, i, j);
    StepPointersS(T, P, ptr, i, j);
    WriteS(T, P, cells, i, j);
    assert ptr[T[j]] - 1 == P.w[j];
    assert ScannedS(T, ptr, cells, i) == cells[P.w[j] := EntryS(T, j)][i := 0];
    assert AdvancedS(T, ptr, cells, i) == ptr[T[j] := P.w[j]];
  }

  lemma ScanIdleS(T: Text, P: Plan, ptr: seq<int>, cells: seq<int>, i: nat)
    requires SPlan(T, P) && FromLms(T, P) && i < |T| <= |cells| && CellsS(T, P, cells, i) && PointersS(T, P, ptr, i)
    requires cells[i] <= 0
    ensures CellsS(T, P, ScannedS(T, ptr, cells, i), i - 1)
    ensures PointersS(T, P, AdvancedS(T, ptr, cells, i), i - 1)
  {
    hide IsS, IsLms, IsL, Start, SPlan, CellsS, PointersS, KeptS, NoneFromS;
    ReadIdleS(T, P, cells, i);
    IdlePointersS(T, P, ptr, i);
    IdleS(T, P, cells, i);
  }

  lemma ScanS(T: Text, P: Plan, ptr: seq<int>, cells: seq<int>, i: nat)
    requires SPlan(T, P) && FromLms(T, P) && i < |T| <= |cells| && CellsS(T, P, cells, i) && PointersS(T, P, ptr, i)
    ensures FitsS(T, ptr, cells, i)
    ensures |ScannedS(T, ptr, cells, i)| == |cells| && ScannedS(T, ptr, cells, i)[|T|..] == cells[|T|..]
    ensures CellsS(T, P, ScannedS(T, ptr, cells, i), i - 1)
    ensures PointersS(T, P, AdvancedS(T, ptr, cells, i), i - 1)
  {
    hide IsS, IsLms, IsL, Start, SPlan, CellsS, PointersS, FromLms;
    if cells[i] > 0 {
      ScanMoveS(T, P, ptr, cells, i);
    } else {
      ScanIdleS(T, P, ptr, cells, i);
    }
  }

  lemma FirstS(T: Text, P: Plan, ptr: seq<int>, cells: seq<int>)
    requires LPlan(T, P) && SPlan(T, P) && FromLms(T, P) && CellsL(T, P, cells, |T|)
    requires Ends(T, ptr, |ptr|) && Alphabet(T, |ptr|)
    ensures CellsS(T, P, cells, |T| - 1) && PointersS(T, P, ptr, |T| - 1)
  {
    hide IsS, CellsL, CellsS;
    StartS(T, P, cells);
    PointersSInit(T, P, ptr, |ptr|);
  }

  method PlaceS(T: Text, SA: array<int>, B: array<int>, c1: nat, b: int, j: nat, ghost ptr: seq<int>) returns (b': int)
    requires 0 < j < |T| && T[j] < B.Length && SA != B
    requires Caches(B[..], ptr, c1, b) && 0 < ptr[T[j]] <= SA.Length
    modifies SA, B
    ensures Caches(B[..], ptr[T[j] := ptr[T[j]] - 1], T[j], b')
    ensures SA[..] == old(SA[..])[ptr[T[j]] - 1 := EntryS(T, j)]
  {
    b' := SwitchBucket(B, c1, b, T[j], ptr);
    b' := b' - 1;
    SA[b'] := if T[j - 1] > T[j] then Not(j) else j - 1;
  }

  /** Scan one slot from the right. */
  method ScanSlotS(T: Text, SA: array<int>, B: array<int>, c1: nat, b: int, i: nat, ghost ptr: seq<int>)
    returns (c1': nat, b': int)
    requires i < SA.Length && SA != B && Caches(B[..], ptr, c1, b)
    requires FitsS(T, ptr, SA[..], i)
    modifies SA, B
    ensures Caches(B[..], AdvancedS(T, ptr, old(SA[..]), i), c1', b')
    ensures SA[..] == ScannedS(T, ptr, old(SA[..]), i)
  {
    c1', b' := c1, b;
    var j := SA[i];
    if 0 < j {
      b' := PlaceS(T, SA, B, c1, b, j, ptr);
      c1' := T[j];
      SA[i] := 0;
    }
  }

  method SortS(T: Text, SA: array<int>, B: array<int>, ghost P: Plan)
    requires |T| <= SA.Length && SA != B && 0 < B.Length
    requires Alphabet(T, B.Length) && Ends(T, B[..], B.Length)
    requires LPlan(T, P) && SPlan(T, P) && FromLms(T, P) && CellsL(T, P, SA[..], |T|)
    modifies SA, B
    ensures CellsS(T, P, SA[..], -1)
    ensures SA[|T|..] == old(SA[|T|..])
  {
    hide IsS, IsLms, IsL, Start, LPlan, SPlan, CellsL, CellsS, PointersS, Ends, ScannedS, AdvancedS, EntryS, FitsS, FromLms;
    FirstS(T, P, B[..], SA[..]);
    FactsS(T, P, SA[..], |T| - 1);
    var n := |T|;
    var i := n - 1;
    ghost var ptr, cells, rest := B[..], SA[..], SA[n..];
    var c1 := 0;
    var b := B[c1];
    while 0 <= i
      invariant -1 <= i < n
      invariant Caches(B[..], ptr, c1, b)
      invariant SA[..] == cells && cells[n..] == rest
      invariant CellsS(T, P, cells, i) && PointersS(T, P, ptr, i)
    {
      ScanS(T, P, ptr, cells, i);
      c1, b := ScanSlotS(T, SA, B, c1, b, i, ptr);
      cells, ptr := ScannedS(T, ptr, cells, i), AdvancedS(T, ptr, cells, i);
      i := i - 1;
    }
  }

  /** After both scans the slot of an LMS position holds it, flagged; all else is 0. */
  ghost predicate LmsLeft(T: Text, P: Plan, SA: seq<int>)
    requires Shape(T, P)
  {
    |SA| >= |T| && forall r :: 0 <= r < |T| ==> SA[r] == KeptS(T, P.inv[r])
  }

  method LmsSort1(T: Text, SA: array<int>, C: array<int>, B: array<int>, ghost P: Plan)
    requires |T| <= SA.Length && SA != B && SA != C && 0 < B.Length == C.Length
    requires Alphabet(T, B.Length) && (C != B ==> Counts(T, C[..], C.Length))
    requires LPlan(T, P) && SPlan(T, P) && FromLms(T, P) && SeedsPlaced(T, P, SA[..])
    modifies SA, B, C
    ensures LmsLeft(T, P, SA[..])
    ensures SA[|T|..] == old(SA[|T|..])
    ensures C != B ==> Counts(T, C[..], C.Length)
  {
    hide LPlan, SPlan, SeedsPlaced, CellsL, IsS;
    if C == B { GetCounts(T, C, C.Length); }
    GetBuckets(T, C, B, B.Length, false);
    SortL(T, SA, B, P);
    if C == B { GetCounts(T, C, C.Length); }
    GetBuckets(T, C, B, B.Length, true);
    SortS(T, SA, B, P);
  }
}
