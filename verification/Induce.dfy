/** induceSA and computeBWT: from the placed LMS suffixes, two scans put every suffix in
    its slot.  The second procedure differs only in what it leaves in a slot once read:
    the character left of the suffix instead of the suffix; bwt tells them apart. */
module Induce {
  import opened Suffixes
  import opened Ranking
  import opened Buckets
  import opened InducedOrder
  import opened InducedSlots
  import opened Passes

  /** The entry written for an L suffix: flagged when the suffix to its left is of type S. */
  ghost function EntryL(T: Text, x: int): int
    requires 0 <= x < |T|
  {
    if 0 < x && T[x - 1] < T[x] then Not(x) else x
  }

  /** The entry written for an S suffix: flagged when no S suffix is to its left. */
  ghost function EntryS(T: Text, bwt: bool, x: int): int
    requires 0 <= x < |T|
  {
    if bwt then (if 0 < x && T[x - 1] > T[x] then Not(T[x - 1]) else x)
    else (if x == 0 || T[x - 1] > T[x] then Not(x) else x)
  }

  /** What a slot finally holds for suffix z. */
  ghost function Final(T: Text, bwt: bool, z: int): int
    requires 0 <= z < |T|
  {
    if !bwt then z else if z == 0 then 0 else T[z - 1]
  }

  /** What the second scan leaves of the entry v it read. */
  ghost function FinalOf(T: Text, bwt: bool, v: int): int {
    if 0 < v then (if bwt && v <= |T| then T[v - 1] else v)
    else if bwt && v == 0 then 0
    else Not(v)
  }

  /** What a slot holds when the first scan reads it. */
  ghost function ReadL(T: Text, z: int): int {
    if !(0 <= z < |T|) then 0 else if IsL(T, z) then EntryL(T, z) else z
  }

  /** What the first scan leaves of the entry v it read. */
  ghost function KeptL(T: Text, bwt: bool, v: int): int {
    if !bwt then Not(v)
    else if 0 < v <= |T| then Not(T[v - 1])
    else if v < 0 then Not(v)
    else 0
  }

  /** What slot r holds before slot i is scanned from the left. */
  ghost function CellL(T: Text, P: Plan, bwt: bool, i: int, r: int): int
    requires Shape(T, P) && 0 <= r < |T|
  {
    var z := P.occ[r];
    if r < i then KeptL(T, bwt, ReadL(T, z))
    else if 0 <= z < |T| && IsL(T, z) && P.frm[z] >= i then 0
    else ReadL(T, z)
  }

  ghost predicate CellsL(T: Text, P: Plan, bwt: bool, SA: seq<int>, i: int)
    requires Shape(T, P)
  {
    |SA| >= |T| && forall r :: 0 <= r < |T| ==> SA[r] == CellL(T, P, bwt, i, r)
  }

  /** Only the seeds are placed: the state in which the first scan starts. */
  ghost predicate SeedsPlaced(T: Text, P: Plan, SA: seq<int>)
    requires Shape(T, P)
  {
    |SA| >= |T| && forall r :: 0 <= r < |T| ==> SA[r] == if IsSeed(T, P.lo, P.occ[r]) then P.occ[r] else 0
  }

  /** The type of a neighbour follows from one comparison. */
  lemma LeftNeighbour(T: Text, x: nat)
    requires 0 < x < |T|
    ensures IsL(T, x) ==> (IsS(T, x - 1) <==> T[x - 1] < T[x])
    ensures IsS(T, x) ==> (IsL(T, x - 1) <==> T[x - 1] > T[x])
  {
  }

  lemma StartL(T: Text, P: Plan, bwt: bool, SA: seq<int>)
    requires LPlan(T, P) && P.lo == 0 && SeedsPlaced(T, P, SA)
    ensures CellsL(T, P, bwt, SA, -1)
  {
    hide IsS;
    forall r | 0 <= r < |T| ensures SA[r] == CellL(T, P, bwt, -1, r) {
      var z := P.occ[r];
      if z != -1 { assert InFirstPass(T, P.lo, z); }
    }
  }

  /** Writing the entry of suffix j, induced from slot i, keeps all other cells. */
  lemma WriteL(T: Text, P: Plan, bwt: bool, SA: seq<int>, SA': seq<int>, i: int, j: nat)
    requires LPlan(T, P) && P.lo == 0 && CellsL(T, P, bwt, SA, i) && -1 <= i < |T|
    requires j < |T| && IsL(T, j) && P.frm[j] == i
    requires |SA'| == |SA|
    requires forall r :: 0 <= r < |T| && r != i && r != P.src[j] ==> SA'[r] == SA[r]
    requires i < P.src[j] < |T| && SA'[P.src[j]] == EntryL(T, j)
    requires i >= 0 ==> SA'[i] == KeptL(T, bwt, SA[i])
    ensures CellsL(T, P, bwt, SA', i + 1)
  {
    hide IsS, LContiguous, LOrdered;
    assert InFirstPass(T, P.lo, j);
    if i >= 0 { ReadSlotL(T, P, bwt, SA, i); }
    forall r | 0 <= r < |T| ensures SA'[r] == CellL(T, P, bwt, i + 1, r) {
      var z := P.occ[r];
      if r > i && 0 <= z < |T| && IsL(T, z) && P.frm[z] == i {
        InducedOnceL(T, P, z, j);
      }
    }
  }

  lemma IdleL(T: Text, P: Plan, bwt: bool, SA: seq<int>, SA': seq<int>, i: int)
    requires LPlan(T, P) && P.lo == 0 && CellsL(T, P, bwt, SA, i) && 0 <= i < |T|
    requires NoneFromL(T, P, i)
    requires SA' == SA[i := KeptL(T, bwt, SA[i])]
    ensures CellsL(T, P, bwt, SA', i + 1)
  {
    hide IsS, LContiguous, LOrdered;
    ReadSlotL(T, P, bwt, SA, i);
    forall r | 0 <= r < |T| ensures SA'[r] == CellL(T, P, bwt, i + 1, r) {
    }
  }

  /** The suffix in slot i was written before slot i is read. */
  lemma ReadSlotL(T: Text, P: Plan, bwt: bool, SA: seq<int>, i: int)
    requires LPlan(T, P) && P.lo == 0 && CellsL(T, P, bwt, SA, i) && 0 <= i < |T|
    ensures SA[i] == ReadL(T, P.occ[i])
    ensures P.occ[i] == -1 || InFirstPass(T, P.lo, P.occ[i])
  {
    hide IsS;
    var z := P.occ[i];
    if z != -1 && IsL(T, z) {
      assert P.src[z] == i;
    }
  }

  lemma PlanShape(T: Text, P: Plan)
    requires LPlan(T, P)
    ensures Shape(T, P)
  {
  }

  lemma FactsL(T: Text, P: Plan, bwt: bool, SA: seq<int>, i: int)
    requires LPlan(T, P) && CellsL(T, P, bwt, SA, i)
    ensures Shape(T, P) && |SA| >= |T|
  {
  }

  lemma SeedsLength(T: Text, P: Plan, SA: seq<int>)
    requires Shape(T, P) && SeedsPlaced(T, P, SA)
    ensures |SA| >= |T|
  {
  }

  /** Reading a positive entry j means that j - 1 is the L suffix induced from this slot. */
  lemma ReadMeansL(T: Text, P: Plan, bwt: bool, SA: seq<int>, i: int)
    requires LPlan(T, P) && P.lo == 0 && CellsL(T, P, bwt, SA, i) && 0 <= i < |T|
    requires SA[i] > 0
    ensures SA[i] < |T| && IsL(T, SA[i] - 1) && P.frm[SA[i] - 1] == i
  {
    hide IsS, IsLms, IsL, LPlan, CellsL, ReadL;
    FactsL(T, P, bwt, SA, i);
    ReadSlotL(T, P, bwt, SA, i);
    EntryMeansL(T, P, P.occ[i]);
    InducedFromL(T, P, i, P.occ[i]);
  }

  /** Any other entry induces nothing. */
  lemma ReadIdleL(T: Text, P: Plan, bwt: bool, SA: seq<int>, i: int)
    requires LPlan(T, P) && P.lo == 0 && CellsL(T, P, bwt, SA, i) && 0 <= i < |T|
    requires SA[i] <= 0
    ensures NoneFromL(T, P, i)
  {
    hide IsS, IsLms, IsL, LPlan, CellsL, ReadL, NoneFromL;
    FactsL(T, P, bwt, SA, i);
    ReadSlotL(T, P, bwt, SA, i);
    EntryMeansL(T, P, P.occ[i]);
    InducedFromL(T, P, i, P.occ[i]);
  }

  lemma EntryMeansL(T: Text, P: Plan, z: int)
    requires Shape(T, P) && (z == -1 || InFirstPass(T, P.lo, z))
    ensures ReadL(T, z) > 0 ==> 0 < z == ReadL(T, z) && IsL(T, z - 1)
    ensures ReadL(T, z) <= 0 ==> z <= 0 || !IsL(T, z - 1)
  {
    if z > 0 { LeftNeighbour(T, z); }
  }

  lemma LastIsL(T: Text, P: Plan)
    requires LPlan(T, P) && P.lo < |T|
    ensures IsL(T, |T| - 1) && P.frm[|T| - 1] == -1
  {
    FromOfL(T, P, |T| - 1);
  }

  /** The scan of one slot, on values: the entries after it, given those before. */
  ghost function ScannedL(T: Text, bwt: bool, ptr: seq<int>, cells: seq<int>, i: int): seq<int>
    requires 0 <= i < |cells|
  {
    var j := cells[i] - 1;
    var cells' := cells[i := KeptL(T, bwt, cells[i])];
    if 0 <= j < |T| && T[j] < |ptr| && 0 <= ptr[T[j]] < |cells| then cells'[ptr[T[j]] := EntryL(T, j)] else cells'
  }

  ghost function AdvancedL(T: Text, ptr: seq<int>, cells: seq<int>, i: int): seq<int>
    requires 0 <= i < |cells|
  {
    var j := cells[i] - 1;
    if 0 <= j < |T| && T[j] < |ptr| then ptr[T[j] := ptr[T[j]] + 1] else ptr
  }

  lemma FirstL(T: Text, P: Plan, bwt: bool, ptr: seq<int>, cells: seq<int>)
    requires 0 < |T| && LPlan(T, P) && P.lo == 0 && SeedsPlaced(T, P, cells)
    requires Starts(T, ptr, |ptr|) && Alphabet(T, |ptr|)
    ensures 0 <= ptr[T[|T| - 1]] < |T|
    ensures CellsL(T, P, bwt, cells[ptr[T[|T| - 1]] := EntryL(T, |T| - 1)], 0)
    ensures PointersL(T, P, ptr[T[|T| - 1] := ptr[T[|T| - 1]] + 1], 0)
  {
    hide IsS, IsLms, IsL, Start, LPlan, CellsL, PointersL, SeedsPlaced;
    PlanShape(T, P);
    SeedsLength(T, P, cells);
    var j := |T| - 1;
    StartL(T, P, bwt, cells);
    PointersLInit(T, P, ptr, |ptr|);
    LastIsL(T, P);
    NextSlotL(T, P, ptr, -1, j);
    StepPointersL(T, P, ptr, -1, j);
    WriteL(T, P, bwt, cells, cells[ptr[T[j]] := EntryL(T, j)], -1, j);
  }

  /** A positive entry is the right neighbour of a suffix whose bucket pointer is inside
      the array. */
  ghost predicate FitsL(T: Text, ptr: seq<int>, cells: seq<int>, i: int)
    requires 0 <= i < |cells|
  {
    cells[i] > 0 ==> cells[i] - 1 < |T| && T[cells[i] - 1] < |ptr| && 0 <= ptr[T[cells[i] - 1]] < |cells|
  }

  lemma ScannedMoveL(T: Text, bwt: bool, ptr: seq<int>, cells: seq<int>, i: nat, j: nat)
    requires i < |cells| && cells[i] == j + 1 && j < |T| && T[j] < |ptr| && 0 <= ptr[T[j]] < |cells|
    ensures ScannedL(T, bwt, ptr, cells, i) == cells[i := KeptL(T, bwt, cells[i])][ptr[T[j]] := EntryL(T, j)]
    ensures AdvancedL(T, ptr, cells, i) == ptr[T[j] := ptr[T[j]] + 1]
  {
  }

  lemma ScanMoveL(T: Text, P: Plan, bwt: bool, ptr: seq<int>, cells: seq<int>, i: nat)
    requires LPlan(T, P) && P.lo == 0 && i < |T| <= |cells| && CellsL(T, P, bwt, cells, i) && PointersL(T, P, ptr, i)
    requires cells[i] > 0
    ensures cells[i] - 1 < |T| && T[cells[i] - 1] < |ptr| && i < ptr[T[cells[i] - 1]] < |T|
    ensures CellsL(T, P, bwt, ScannedL(T, bwt, ptr, cells, i), i + 1)
    ensures PointersL(T, P, AdvancedL(T, ptr, cells, i), i + 1)
  {
    hide IsS, IsLms, IsL, Start, LPlan, CellsL, PointersL, NoneFromL, ScannedL, AdvancedL, EntryL;
    PlanShape(T, P);
    PointersAlphabet(T, P, ptr, i);
    var j := cells[i] - 1;
    ReadMeansL(T, P, bwt, cells, i);
    NextSlotL(T, P, ptr, i, j);
    StepPointersL(T, P, ptr, i, j);
    ScannedMoveL(T, bwt, ptr, cells, i, j);
    WriteL(T, P, bwt, cells, ScannedL(T, bwt, ptr, cells, i), i, j);
  }

  lemma ScanIdleL(T: Text, P: Plan, bwt: bool, ptr: seq<int>, cells: seq<int>, i: nat)
    requires LPlan(T, P) && P.lo == 0 && i < |T| <= |cells| && CellsL(T, P, bwt, cells, i) && PointersL(T, P, ptr, i)
    requires cells[i] <= 0
    ensures CellsL(T, P, bwt, ScannedL(T, bwt, ptr, cells, i), i + 1)
    ensures PointersL(T, P, AdvancedL(T, ptr, cells, i), i + 1)
  {
    hide IsS, IsLms, IsL, Start, LPlan, CellsL, PointersL, NoneFromL;
    ReadIdleL(T, P, bwt, cells, i);
    IdlePointersL(T, P, ptr, i);
    assert ScannedL(T, bwt, ptr, cells, i) == cells[i := KeptL(T, bwt, cells[i])];
    IdleL(T, P, bwt, cells, ScannedL(T, bwt, ptr, cells, i), i);
  }

  lemma ScanL(T: Text, P: Plan, bwt: bool, ptr: seq<int>, cells: seq<int>, i: nat)
    requires LPlan(T, P) && P.lo == 0 && i < |T| <= |cells| && CellsL(T, P, bwt, cells, i) && PointersL(T, P, ptr, i)
    ensures FitsL(T, ptr, cells, i)
    ensures |ScannedL(T, bwt, ptr, cells, i)| == |cells| && ScannedL(T, bwt, ptr, cells, i)[|T|..] == cells[|T|..]
    ensures CellsL(T, P, bwt, ScannedL(T, bwt, ptr, cells, i), i + 1)
    ensures PointersL(T, P, AdvancedL(T, ptr, cells, i), i + 1)
  {
    hide IsS, IsLms, IsL, Start, LPlan, CellsL, PointersL;
    if cells[i] > 0 {
      ScanMoveL(T, P, bwt, ptr, cells, i);
    } else {
      ScanIdleL(T, P, bwt, ptr, cells, i);
    }
  }

  /** Write the entry of the L suffix j at the pointer of its bucket, and advance it. */
  method PlaceL(T: Text, SA: array<int>, B: array<int>, c1: nat, b: int, j: nat, ghost ptr: seq<int>) returns (b': int)
    requires j < |T| && T[j] < B.Length && SA != B
    requires Caches(B[..], ptr, c1, b) && 0 <= ptr[T[j]] < SA.Length
    modifies SA, B
    ensures Caches(B[..], ptr[T[j] := ptr[T[j]] + 1], T[j], b')
    ensures SA[..] == old(SA[..])[ptr[T[j]] := EntryL(T, j)]
  {
    b' := SwitchBucket(B, c1, b, T[j], ptr);
    SA[b'] := if 0 < j && T[j - 1] < T[j] then Not(j) else j;
    b' := b' + 1;
  }

  /** induceSA: scan one slot from the left. */
  method ScanSlotL(T: Text, SA: array<int>, B: array<int>, c1: nat, b: int, i: nat, ghost ptr: seq<int>)
    returns (c1': nat, b': int)
    requires i < SA.Length && SA != B && Caches(B[..], ptr, c1, b) && FitsL(T, ptr, SA[..], i)
    modifies SA, B
    ensures Caches(B[..], AdvancedL(T, ptr, old(SA[..]), i), c1', b')
    ensures SA[..] == ScannedL(T, false, ptr, old(SA[..]), i)
  {
    c1', b' := c1, b;
    var j := SA[i];
    SA[i] := Not(j);
    if 0 < j {
      j := j - 1;
      b' := PlaceL(T, SA, B, c1, b, j, ptr);
      c1' := T[j];
    }
  }

  /** computeBWT: the same, leaving the flagged character left of a suffix that was read. */
  method ScanBwtL(T: Text, SA: array<int>, B: array<int>, c1: nat, b: int, i: nat, ghost ptr: seq<int>)
    returns (c1': nat, b': int)
    requires i < SA.Length && SA != B && Caches(B[..], ptr, c1, b) && FitsL(T, ptr, SA[..], i)
    modifies SA, B
    ensures Caches(B[..], AdvancedL(T, ptr, old(SA[..]), i), c1', b')
    ensures SA[..] == ScannedL(T, true, ptr, old(SA[..]), i)
  {
    c1', b' := c1, b;
    var j := SA[i];
    if 0 < j {
      j := j - 1;
      SA[i] := Not(T[j]);
      b' := PlaceL(T, SA, B, c1, b, j, ptr);
      c1' := T[j];
    } else if j != 0 {
      SA[i] := Not(j);
    }
  }

  /** First scan: place all L suffixes, left to right. */
  method InduceL(T: Text, SA: array<int>, B: array<int>, bwt: bool, ghost P: Plan)
    requires 0 < |T| <= SA.Length && SA != B
    requires Alphabet(T, B.Length) && Starts(T, B[..], B.Length)
    requires LPlan(T, P) && P.lo == 0 && SeedsPlaced(T, P, SA[..])
    modifies SA, B
    ensures CellsL(T, P, bwt, SA[..], |T|)
    ensures SA[|T|..] == old(SA[|T|..])
  {
    hide IsS, IsLms, IsL, Start, LPlan, CellsL, PointersL, SeedsPlaced, Starts, ScannedL, AdvancedL, EntryL, FitsL;
    PlanShape(T, P);
    var n := |T|;
    var j := n - 1;
    var c1 := T[j];
    ghost var ptr, cells, rest := B[..], SA[..], SA[n..];
    FirstL(T, P, bwt, ptr, cells);
    var b := PlaceL(T, SA, B, c1, B[c1], j, ptr);
    cells, ptr := SA[..], ptr[c1 := ptr[c1] + 1];
    for i := 0 to n
      invariant Caches(B[..], ptr, c1, b)
      invariant SA[..] == cells && cells[n..] == rest
      invariant CellsL(T, P, bwt, cells, i) && PointersL(T, P, ptr, i)
    {
      ScanL(T, P, bwt, ptr, cells, i);
      if bwt {
        c1, b := ScanBwtL(T, SA, B, c1, b, i, ptr);
      } else {
        c1, b := ScanSlotL(T, SA, B, c1, b, i, ptr);
      }
      cells, ptr := ScannedL(T, bwt, ptr, cells, i), AdvancedL(T, ptr, cells, i);
    }
  }

  // ---- second scan

  /** Every slot of the arrangement is taken. */
  lemma EverySlotTaken(T: Text, P: Plan)
    requires SPlan(T, P) && P.lo == 0
    ensures forall r :: 0 <= r < |T| ==> 0 <= P.inv[r] < |T| && P.w[P.inv[r]] == r
  {
    hide IsS;
    forall x, y | 0 <= x < y < |P.w| ensures P.w[x] != P.w[y] {
      assert P.inv[P.w[x]] == x && P.inv[P.w[y]] == y;
    }
    Pigeonhole(P.w);
    forall r | 0 <= r < |T| ensures 0 <= P.inv[r] < |T| && P.w[P.inv[r]] == r {
      assert r in P.w;
      var x :| 0 <= x < |P.w| && P.w[x] == r;
      assert P.inv[P.w[x]] == x;
    }
  }

  /** What slot r holds before slot i is scanned from the right: scanned slots are
      final; below, an S suffix is present as soon as the suffix it is induced from
      was scanned, and a slot not yet written may hold anything. */
  ghost predicate CellS(T: Text, P: Plan, bwt: bool, SA: seq<int>, i: int, r: int)
    requires Shape(T, P) && 0 <= r < |T| <= |SA|
  {
    var z := P.inv[r];
    && 0 <= z < |T|
    && (r > i ==> SA[r] == Final(T, bwt, z))
    && (r <= i && IsL(T, z) ==> SA[r] == KeptL(T, bwt, EntryL(T, z)))
    && (r <= i && IsS(T, z) && P.frm[z] > i ==> SA[r] == EntryS(T, bwt, z))
  }

  ghost predicate CellsS(T: Text, P: Plan, bwt: bool, SA: seq<int>, i: int)
    requires Shape(T, P)
  {
    |SA| >= |T| && forall r {:trigger CellS(T, P, bwt, SA, i, r)} :: 0 <= r < |T| ==> CellS(T, P, bwt, SA, i, r)
  }

  lemma StartS(T: Text, P: Plan, bwt: bool, SA: seq<int>)
    requires LPlan(T, P) && SPlan(T, P) && P.lo == 0 && CellsL(T, P, bwt, SA, |T|)
    ensures CellsS(T, P, bwt, SA, |T| - 1)
  {
    EverySlotTaken(T, P);
    hide IsS;
    var i := |T| - 1;
    forall r | 0 <= r < |T| ensures CellS(T, P, bwt, SA, i, r) {
      var z := P.inv[r];
      if IsL(T, z) {
        assert InFirstPass(T, P.lo, z);
        assert P.w[z] == P.src[z] == r;
        assert SA[r] == CellL(T, P, bwt, |T|, r);
      }
    }
  }

  lemma FactsS(T: Text, P: Plan, bwt: bool, SA: seq<int>, i: int)
    requires SPlan(T, P) && CellsS(T, P, bwt, SA, i)
    ensures Shape(T, P) && |SA| >= |T|
  {
  }

  lemma ReadSlotS(T: Text, P: Plan, bwt: bool, SA: seq<int>, i: int)
    requires SPlan(T, P) && P.lo == 0 && CellsS(T, P, bwt, SA, i) && 0 <= i < |T|
    ensures 0 <= P.inv[i] < |T| && P.w[P.inv[i]] == i
    ensures SA[i] == if IsL(T, P.inv[i]) then KeptL(T, bwt, EntryL(T, P.inv[i])) else EntryS(T, bwt, P.inv[i])
  {
    EverySlotTaken(T, P);
    hide IsS;
    assert CellS(T, P, bwt, SA, i, i);
  }

  /** The suffix in slot i was written before slot i is read; its entry is positive
      exactly when an S suffix is induced from it. */
  lemma ReadMeansS(T: Text, P: Plan, bwt: bool, SA: seq<int>, i: int)
    requires SPlan(T, P) && P.lo == 0 && CellsS(T, P, bwt, SA, i) && 0 <= i < |T|
    requires SA[i] > 0
    ensures SA[i] == P.inv[i] < |T| && IsS(T, SA[i] - 1) && P.frm[SA[i] - 1] == i
    ensures FinalOf(T, bwt, SA[i]) == Final(T, bwt, P.inv[i])
  {
    hide IsS, IsLms, SPlan, CellsS, EntryL, EntryS;
    FactsS(T, P, bwt, SA, i);
    ReadSlotS(T, P, bwt, SA, i);
    EntryMeansS(T, bwt, P.inv[i], SA[i]);
    InducedFromS(T, P, i, P.inv[i]);
  }

  lemma ReadIdleS(T: Text, P: Plan, bwt: bool, SA: seq<int>, i: int)
    requires SPlan(T, P) && P.lo == 0 && CellsS(T, P, bwt, SA, i) && 0 <= i < |T|
    requires SA[i] <= 0
    ensures NoneFromS(T, P, i) && 0 <= P.inv[i] < |T| && FinalOf(T, bwt, SA[i]) == Final(T, bwt, P.inv[i])
  {
    hide IsS, IsLms, SPlan, CellsS, EntryL, EntryS, NoneFromS;
    FactsS(T, P, bwt, SA, i);
    ReadSlotS(T, P, bwt, SA, i);
    EntryMeansS(T, bwt, P.inv[i], SA[i]);
    InducedFromS(T, P, i, P.inv[i]);
  }

  lemma EntryMeansS(T: Text, bwt: bool, z: nat, v: int)
    requires z < |T| && v == if IsL(T, z) then KeptL(T, bwt, EntryL(T, z)) else EntryS(T, bwt, z)
    ensures FinalOf(T, bwt, v) == Final(T, bwt, z)
    ensures v > 0 ==> v == z && IsS(T, z - 1)
    ensures v <= 0 ==> z == 0 || !IsS(T, z - 1)
    ensures bwt ==> (v == 0 <==> z == 0)
  {
    if z > 0 { LeftNeighbour(T, z); }
  }

  ghost function ScannedS(T: Text, bwt: bool, ptr: seq<int>, cells: seq<int>, i: int): seq<int>
    requires 0 <= i < |cells|
  {
    var j := cells[i] - 1;
    var cells' := cells[i := FinalOf(T, bwt, cells[i])];
    if 0 <= j < |T| && T[j] < |ptr| && 0 < ptr[T[j]] <= |cells| then cells'[ptr[T[j]] - 1 := EntryS(T, bwt, j)] else cells'
  }

  ghost function AdvancedS(T: Text, ptr: seq<int>, cells: seq<int>, i: int): seq<int>
    requires 0 <= i < |cells|
  {
    var j := cells[i] - 1;
    if 0 <= j < |T| && T[j] < |ptr| then ptr[T[j] := ptr[T[j]] - 1] else ptr
  }

  lemma WriteCellS(T: Text, P: Plan, bwt: bool, SA: seq<int>, i: int, j: nat, r: int)
    requires SPlan(T, P) && P.lo == 0 && 0 <= i < |T| <= |SA| && 0 <= r < |T| && CellS(T, P, bwt, SA, i, r)
    requires j < |T| && IsS(T, j) && P.frm[j] == i
    requires 0 <= P.inv[i] < |T| && FinalOf(T, bwt, SA[i]) == Final(T, bwt, P.inv[i])
    ensures 0 <= P.w[j] < i && CellS(T, P, bwt, SA[i := FinalOf(T, bwt, SA[i])][P.w[j] := EntryS(T, bwt, j)], i - 1, r)
  {
    hide IsS, SContiguous, Final, FinalOf, EntryS, EntryL, KeptL;
    var z := P.inv[r];
    if IsS(T, z) && P.frm[z] == i { InducedOnceS(T, P, z, j); }
    assert P.inv[P.w[j]] == j;
  }

  lemma WriteS(T: Text, P: Plan, bwt: bool, SA: seq<int>, i: int, j: nat)
    requires SPlan(T, P) && P.lo == 0 && CellsS(T, P, bwt, SA, i) && 0 <= i < |T|
    requires j < |T| && IsS(T, j) && P.frm[j] == i
    requires 0 <= P.inv[i] < |T| && FinalOf(T, bwt, SA[i]) == Final(T, bwt, P.inv[i])
    ensures 0 <= P.w[j] < i && CellsS(T, P, bwt, SA[i := FinalOf(T, bwt, SA[i])][P.w[j] := EntryS(T, bwt, j)], i - 1)
  {
    hide IsS, SPlan, CellS, Final, FinalOf, EntryS;
    FactsS(T, P, bwt, SA, i);
    WriteCellS(T, P, bwt, SA, i, j, i);
    var SA' := SA[i := FinalOf(T, bwt, SA[i])][P.w[j] := EntryS(T, bwt, j)];
    var h := i - 1;
    forall r | 0 <= r < |T| ensures CellS(T, P, bwt, SA', h, r) {
      WriteCellS(T, P, bwt, SA, i, j, r);
    }
  }

  lemma IdleS(T: Text, P: Plan, bwt: bool, SA: seq<int>, i: int)
    requires SPlan(T, P) && P.lo == 0 && CellsS(T, P, bwt, SA, i) && 0 <= i < |T|
    requires NoneFromS(T, P, i)
    requires 0 <= P.inv[i] < |T| && FinalOf(T, bwt, SA[i]) == Final(T, bwt, P.inv[i])
    ensures CellsS(T, P, bwt, SA[i := FinalOf(T, bwt, SA[i])], i - 1)
  {
    hide IsS, SContiguous;
    var SA' := SA[i := FinalOf(T, bwt, SA[i])];
    var h := i - 1;
    forall r | 0 <= r < |T| ensures CellS(T, P, bwt, SA', h, r) {
      assert CellS(T, P, bwt, SA, i, r);
    }
  }

  /** A positive entry is the right neighbour of a suffix whose bucket pointer is inside
      the array. */
  ghost predicate FitsS(T: Text, ptr: seq<int>, cells: seq<int>, i: int)
    requires 0 <= i < |cells|
  {
    cells[i] > 0 ==> cells[i] - 1 < |T| && T[cells[i] - 1] < |ptr| && 0 < ptr[T[cells[i] - 1]] <= |cells|
  }

  lemma ScannedMoveS(T: Text, bwt: bool, ptr: seq<int>, cells: seq<int>, i: nat, j: nat)
    requires i < |cells| && cells[i] == j + 1 && j < |T| && T[j] < |ptr| && 0 < ptr[T[j]] <= |cells|
    ensures ScannedS(T, bwt, ptr, cells, i) == cells[i := FinalOf(T, bwt, cells[i])][ptr[T[j]] - 1 := EntryS(T, bwt, j)]
    ensures AdvancedS(T, ptr, cells, i) == ptr[T[j] := ptr[T[j]] - 1]
  {
  }

  lemma ScanMoveS(T: Text, P: Plan, bwt: bool, ptr: seq<int>, cells: seq<int>, i: nat)
    requires SPlan(T, P) && P.lo == 0 && i < |T| <= |cells| && CellsS(T, P, bwt, cells, i) && PointersS(T, P, ptr, i)
    requires cells[i] > 0
    ensures cells[i] - 1 < |T| && T[cells[i] - 1] < |ptr| && 0 < ptr[T[cells[i] - 1]] <= i
    ensures CellsS(T, P, bwt, ScannedS(T, bwt, ptr, cells, i), i - 1)
    ensures PointersS(T, P, AdvancedS(T, ptr, cells, i), i - 1)
  {
    hide IsS, IsLms, IsL, Start, SPlan, CellsS, PointersS, NoneFromS, ScannedS, AdvancedS, EntryS;
    FactsS(T, P, bwt, cells, i);
    PointersAlphabet(T, P, ptr, i);
    var j := cells[i] - 1;
    ReadMeansS(T, P, bwt, cells, i);
    NextSlotS(T, P, ptr, i, j);
    StepPointersS(T, P, ptr, i, j);
    ScannedMoveS(T, bwt, ptr, cells, i, j);
    WriteS(T, P, bwt, cells, i, j);
  }

  lemma ScanIdleS(T: Text, P: Plan, bwt: bool, ptr: seq<int>, cells: seq<int>, i: nat)
    requires SPlan(T, P) && P.lo == 0 && i < |T| <= |cells| && CellsS(T, P, bwt, cells, i) && PointersS(T, P, ptr, i)
    requires cells[i] <= 0
    ensures CellsS(T, P, bwt, ScannedS(T, bwt, ptr, cells, i), i - 1)
    ensures PointersS(T, P, AdvancedS(T, ptr, cells, i), i - 1)
  {
    hide IsS, IsLms, IsL, Start, SPlan, CellsS, PointersS, NoneFromS;
    ReadIdleS(T, P, bwt, cells, i);
    IdlePointersS(T, P, ptr, i);
    IdleS(T, P, bwt, cells, i);
  }

  lemma ScanS(T: Text, P: Plan, bwt: bool, ptr: seq<int>, cells: seq<int>, i: nat)
    requires SPlan(T, P) && P.lo == 0 && i < |T| <= |cells| && CellsS(T, P, bwt, cells, i) && PointersS(T, P, ptr, i)
    ensures FitsS(T, ptr, cells, i)
    ensures |ScannedS(T, bwt, ptr, cells, i)| == |cells| && ScannedS(T, bwt, ptr, cells, i)[|T|..] == cells[|T|..]
    ensures CellsS(T, P, bwt, ScannedS(T, bwt, ptr, cells, i), i - 1)
    ensures PointersS(T, P, AdvancedS(T, ptr, cells, i), i - 1)
  {
    hide IsS, IsLms, IsL, Start, SPlan, CellsS, PointersS;
    if cells[i] > 0 {
      ScanMoveS(T, P, bwt, ptr, cells, i);
    } else {
      ScanIdleS(T, P, bwt, ptr, cells, i);
    }
  }

  /** All slots are final: the suffix array, or the characters left of its suffixes. */
  ghost predicate Arranged(T: Text, P: Plan, bwt: bool, SA: seq<int>)
    requires Shape(T, P)
  {
    |SA| >= |T| && forall r :: 0 <= r < |T| ==> 0 <= P.inv[r] < |T| && SA[r] == Final(T, bwt, P.inv[r])
  }

  lemma DoneS(T: Text, P: Plan, bwt: bool, SA: seq<int>)
    requires Shape(T, P) && CellsS(T, P, bwt, SA, -1)
    ensures Arranged(T, P, bwt, SA)
  {
    forall r | 0 <= r < |T| ensures 0 <= P.inv[r] < |T| && SA[r] == Final(T, bwt, P.inv[r]) {
      assert CellS(T, P, bwt, SA, -1, r);
    }
  }

  lemma FirstS(T: Text, P: Plan, bwt: bool, ptr: seq<int>, cells: seq<int>)
    requires LPlan(T, P) && SPlan(T, P) && P.lo == 0 && CellsL(T, P, bwt, cells, |T|)
    requires Ends(T, ptr, |ptr|) && Alphabet(T, |ptr|)
    ensures Shape(T, P) && CellsS(T, P, bwt, cells, |T| - 1) && PointersS(T, P, ptr, |T| - 1)
    ensures 0 < |T| ==> 0 <= P.w[0] < |T|
  {
    hide IsS, CellsL, CellsS;
    StartS(T, P, bwt, cells);
    PointersSInit(T, P, ptr, |ptr|);
  }

  /** Only the entry of the first suffix is 0 when computeBWT reads it. */
  lemma ReadsZero(T: Text, P: Plan, SA: seq<int>, i: int)
    requires SPlan(T, P) && P.lo == 0 && CellsS(T, P, true, SA, i) && 0 <= i < |T| <= |SA|
    ensures SA[i] == 0 <==> P.w[0] == i
  {
    hide IsS, IsLms, CellsS, EntryL, EntryS, SContiguous, SOrdered, KeptL;
    ReadSlotS(T, P, true, SA, i);
    EntryMeansS(T, true, P.inv[i], SA[i]);
    assert P.inv[P.w[0]] == 0;
  }

  method PlaceS(T: Text, SA: array<int>, B: array<int>, c1: nat, b: int, bwt: bool, j: nat, ghost ptr: seq<int>) returns (b': int)
    requires j < |T| && T[j] < B.Length && SA != B
    requires Caches(B[..], ptr, c1, b) && 0 < ptr[T[j]] <= SA.Length
    modifies SA, B
    ensures Caches(B[..], ptr[T[j] := ptr[T[j]] - 1], T[j], b')
    ensures SA[..] == old(SA[..])[ptr[T[j]] - 1 := EntryS(T, bwt, j)]
  {
    b' := SwitchBucket(B, c1, b, T[j], ptr);
    b' := b' - 1;
    if bwt {
      SA[b'] := if 0 < j && T[j - 1] > T[j] then Not(T[j - 1]) else j;
    } else {
      SA[b'] := if j == 0 || T[j - 1] > T[j] then Not(j) else j;
    }
  }

  /** induceSA: scan one slot from the right. */
  method ScanSlotS(T: Text, SA: array<int>, B: array<int>, c1: nat, b: int, i: nat, ghost ptr: seq<int>)
    returns (c1': nat, b': int)
    requires i < SA.Length && SA != B && Caches(B[..], ptr, c1, b) && FitsS(T, ptr, SA[..], i)
    modifies SA, B
    ensures Caches(B[..], AdvancedS(T, ptr, old(SA[..]), i), c1', b')
    ensures SA[..] == ScannedS(T, false, ptr, old(SA[..]), i)
  {
    c1', b' := c1, b;
    var j := SA[i];
    if 0 < j {
      j := j - 1;
      b' := PlaceS(T, SA, B, c1, b, false, j, ptr);
      c1' := T[j];
    } else {
      SA[i] := Not(j);
    }
  }

  /** computeBWT: the same, leaving the character left of a suffix that was read; first
      tells that the suffix of the whole text was met. */
  method ScanBwtS(T: Text, SA: array<int>, B: array<int>, c1: nat, b: int, i: nat, ghost ptr: seq<int>)
    returns (c1': nat, b': int, first: bool)
    requires i < SA.Length && SA != B && Caches(B[..], ptr, c1, b) && FitsS(T, ptr, SA[..], i)
    modifies SA, B
    ensures Caches(B[..], AdvancedS(T, ptr, old(SA[..]), i), c1', b')
    ensures SA[..] == ScannedS(T, true, ptr, old(SA[..]), i)
    ensures first <==> old(SA[i]) == 0
  {
    c1', b', first := c1, b, false;
    var j := SA[i];
    if 0 < j {
      j := j - 1;
      SA[i] := T[j];
      b' := PlaceS(T, SA, B, c1, b, true, j, ptr);
      c1' := T[j];
    } else if j != 0 {
      SA[i] := Not(j);
    } else {
      first := true;
    }
  }

  /** Second scan: place all S suffixes, right to left, and remove every flag. */
  method InduceS(T: Text, SA: array<int>, B: array<int>, bwt: bool, ghost P: Plan) returns (pidx: int)
    requires 0 < |T| <= SA.Length && SA != B && 0 < B.Length
    requires Alphabet(T, B.Length) && Ends(T, B[..], B.Length)
    requires LPlan(T, P) && SPlan(T, P) && P.lo == 0 && CellsL(T, P, bwt, SA[..], |T|)
    modifies SA, B
    ensures Arranged(T, P, bwt, SA[..])
    ensures pidx == if bwt then P.w[0] else -1
    ensures SA[|T|..] == old(SA[|T|..])
  {
    hide IsS, IsLms, IsL, Start, LPlan, SPlan, CellsL, CellsS, PointersS, Ends, ScannedS, AdvancedS, EntryS, FitsS, Arranged;
    FirstS(T, P, bwt, B[..], SA[..]);
    var n := |T|;
    var i := n - 1;
    pidx := -1;
    ghost var ptr, cells, rest := B[..], SA[..], SA[n..];
    var c1 := 0;
    var b := B[c1];
    while 0 <= i
      invariant -1 <= i < n
      invariant Caches(B[..], ptr, c1, b)
      invariant SA[..] == cells && cells[n..] == rest
      invariant CellsS(T, P, bwt, cells, i) && PointersS(T, P, ptr, i)
      invariant pidx == if bwt && P.w[0] > i then P.w[0] else -1
    {
      ScanS(T, P, bwt, ptr, cells, i);
      if bwt {
        ReadsZero(T, P, cells, i);
        var first;
        c1, b, first := ScanBwtS(T, SA, B, c1, b, i, ptr);
        if first { pidx := i; }
      } else {
        c1, b := ScanSlotS(T, SA, B, c1, b, i, ptr);
      }
      cells, ptr := ScannedS(T, bwt, ptr, cells, i), AdvancedS(T, ptr, cells, i);
      i := i - 1;
    }
    DoneS(T, P, bwt, SA[..]);
  }

  /** Counts may have to be taken again, when both tables share an array. */
  method TwoScans(T: Text, SA: array<int>, C: array<int>, B: array<int>, bwt: bool, ghost P: Plan) returns (pidx: int)
    requires 0 < |T| <= SA.Length && SA != B && SA != C && 0 < B.Length == C.Length
    requires Alphabet(T, B.Length) && (C != B ==> Counts(T, C[..], C.Length))
    requires LPlan(T, P) && SPlan(T, P) && P.lo == 0 && SeedsPlaced(T, P, SA[..])
    modifies SA, B, C
    ensures Arranged(T, P, bwt, SA[..])
    ensures pidx == if bwt then P.w[0] else -1
    ensures SA[|T|..] == old(SA[|T|..])
  {
    hide LPlan, SPlan, SeedsPlaced, CellsL, Arranged;
    if C == B { GetCounts(T, C, C.Length); }
    GetBuckets(T, C, B, B.Length, false);
    InduceL(T, SA, B, bwt, P);
    if C == B { GetCounts(T, C, C.Length); }
    GetBuckets(T, C, B, B.Length, true);
    pidx := InduceS(T, SA, B, bwt, P);
  }

  /** The suffix array itself. */
  method InduceSA(T: Text, SA: array<int>, C: array<int>, B: array<int>, ghost P: Plan)
    requires 0 < |T| <= SA.Length && SA != B && SA != C && 0 < B.Length == C.Length
    requires Alphabet(T, B.Length) && (C != B ==> Counts(T, C[..], C.Length))
    requires LPlan(T, P) && SPlan(T, P) && P.lo == 0 && SeedsPlaced(T, P, SA[..])
    modifies SA, B, C
    ensures forall r :: 0 <= r < |T| ==> SA[r] == P.inv[r]
    ensures SA[|T|..] == old(SA[|T|..])
  {
    var _ := TwoScans(T, SA, C, B, false, P);
  }

  /** The Burrows-Wheeler transform: the result is the slot of the whole text. */
  method ComputeBWT(T: Text, SA: array<int>, C: array<int>, B: array<int>, ghost P: Plan) returns (pidx: int)
    requires 0 < |T| <= SA.Length && SA != B && SA != C && 0 < B.Length == C.Length
    requires Alphabet(T, B.Length) && (C != B ==> Counts(T, C[..], C.Length))
    requires LPlan(T, P) && SPlan(T, P) && P.lo == 0 && SeedsPlaced(T, P, SA[..])
    modifies SA, B, C
    ensures 0 <= pidx < |T| && P.inv[pidx] == 0
    ensures forall r :: 0 <= r < |T| && r != pidx ==> 0 < P.inv[r] < |T| && SA[r] == T[P.inv[r] - 1]
    ensures SA[|T|..] == old(SA[|T|..])
  {
    pidx := TwoScans(T, SA, C, B, true, P);
    OnlyOneFirst(T, P);
  }

  lemma OnlyOneFirst(T: Text, P: Plan)
    requires SPlan(T, P) && P.lo == 0 && 0 < |T|
    ensures 0 <= P.w[0] < |T| && P.inv[P.w[0]] == 0
    ensures forall r :: 0 <= r < |T| && P.inv[r] == 0 ==> r == P.w[0]
  {
    hide IsS;
  }
}
