/** Second part of LMSpostproc1: measure the LMS substrings and give each a name, from
    the sorted list at the front of the array. */
module Naming {
  import opened Suffixes
  import opened Ranking
  import opened InducedOrder
  import opened InducedSlots
  import opened Passes
  import opened LmsSort
  import opened LmsNames
  import opened LmsScan
  import opened Compaction

  /** s lists the LMS positions of T, each once, in induced order. */
  ghost predicate SortedLms(T: Text, seed: seq<int>, s: seq<int>)
    requires |seed| == |T|
  {
    && (forall a :: 0 <= a < |s| ==> 0 <= s[a] < |T| && IsLms(T, s[a]))
    && (forall p :: 0 <= p < |T| && IsLms(T, p) ==> p in s)
    && (forall a, b :: 0 <= a < b < |s| ==> s[a] != s[b] && Before(T, seed, s[a], s[b]))
  }

  /** s lists, in slot order, the LMS positions whose slots are below i. */
  ghost predicate ListsSlots(T: Text, P: Plan, s: seq<int>, i: int)
    requires Shape(T, P)
  {
    && (forall a :: 0 <= a < |s| ==> P.lo <= s[a] < |T| && IsLms(T, s[a]) && P.w[s[a]] < i)
    && (forall a, b :: 0 <= a < b < |s| ==> P.w[s[a]] < P.w[s[b]])
    && (forall p :: P.lo <= p < |T| && IsLms(T, p) && P.w[p] < i ==> p in s)
  }

  lemma ListAppend(T: Text, P: Plan, s: seq<int>, i: nat, z: int)
    requires SPlan(T, P) && ListsSlots(T, P, s, i)
    requires P.lo <= z < |T| && IsLms(T, z) && P.w[z] == i
    ensures ListsSlots(T, P, s + [z], i + 1)
  {
    hide IsS, IsLms, SContiguous, SOrdered;
    var s' := s + [z];
    forall p | P.lo <= p < |T| && IsLms(T, p) && P.w[p] < i + 1 ensures p in s' {
      if P.w[p] == i { assert P.inv[P.w[p]] == p && P.inv[P.w[z]] == z; assert s'[|s|] == p; } else { assert p in s; }
    }
  }

  lemma KeptMeans(T: Text, z: int)
    ensures KeptS(T, z) < 0 ==> 0 < z < |T| && IsLms(T, z) && Not(KeptS(T, z)) == z
    ensures KeptS(T, z) >= 0 && 0 < z < |T| ==> !IsLms(T, z)
  {
  }

  lemma ListSkip(T: Text, P: Plan, s: seq<int>, i: nat)
    requires SPlan(T, P) && i < |T| && ListsSlots(T, P, s, i)
    requires P.inv[i] != -1 ==> !IsLms(T, P.inv[i])
    ensures ListsSlots(T, P, s, i + 1)
  {
    hide IsS, IsLms, SContiguous, SOrdered;
    forall p | P.lo <= p < |T| && IsLms(T, p) && P.w[p] < i + 1 ensures p in s {
      assert P.inv[P.w[p]] == p;
    }
  }

  lemma ListSlot(T: Text, P: Plan, s: seq<int>, i: nat, z: int)
    requires SPlan(T, P) && 0 < P.lo && i < |T| && z == P.inv[i] && ListsSlots(T, P, s, i)
    ensures ListsSlots(T, P, if KeptS(T, z) < 0 then s + [Not(KeptS(T, z))] else s, i + 1)
  {
    KeptMeans(T, z);
    if z != -1 { assert P.w[z] == i; }
    hide IsS, IsLms, SPlan, KeptS, ListsSlots;
    if KeptS(T, z) < 0 {
      ListAppend(T, P, s, i, z);
    } else {
      ListSkip(T, P, s, i);
    }
  }

  /** The flagged entries of the first slots, in terms of the plan. */
  lemma {:induction false} FlaggedSlots(T: Text, P: Plan, SA: seq<int>, i: nat)
    requires SPlan(T, P) && FromLms(T, P) && LmsLeft(T, P, SA) && i <= |T|
    ensures ListsSlots(T, P, Flagged(SA[..i]), i)
  {
    hide IsS, SContiguous, SOrdered;
    if i > 0 {
      FlaggedSlots(T, P, SA, i - 1);
      FlaggedStep(SA, i - 1);
      ListSlot(T, P, Flagged(SA[..i - 1]), i - 1, P.inv[i - 1]);
      hide ListsSlots, SlotsInverse;
      assert SA[i - 1] == KeptS(T, P.inv[i - 1]);
      if SA[i - 1] >= 0 { assert Flagged(SA[..i]) == Flagged(SA[..i - 1]); }
    }
  }

  /** Compacting what LMSsort1 leaves gives the sorted list of LMS positions. */
  lemma FlaggedAreSorted(T: Text, seed: seq<int>, P: Plan, SA: seq<int>)
    requires |seed| == |T| && SPlan(T, P) && FromLms(T, P) && LmsLeft(T, P, SA) && SlotsFollow(T, seed, P)
    requires forall p :: 0 <= p < |T| && IsLms(T, p) ==> P.lo <= p
    ensures SortedLms(T, seed, Flagged(SA[..|T|]))
  {
    FlaggedSlots(T, P, SA, |T|);
    hide IsS, SContiguous, SOrdered, Before;
    var s := Flagged(SA[..|T|]);
    forall p | 0 <= p < |T| && IsLms(T, p) ensures p in s {
      assert P.w[p] < |T|;
    }
  }

  /** Lists without repetition and with the same elements have the same length. */
  lemma SameElements(a: seq<int>, b: seq<int>)
    requires forall i, j :: 0 <= i < j < |a| ==> a[i] != a[j]
    requires forall i, j :: 0 <= i < j < |b| ==> b[i] != b[j]
    requires forall x :: x in a <==> x in b
    ensures |a| == |b|
  {
    var A := Elements(a);
    var B := Elements(b);
    forall i | 0 <= i < |a| ensures a[i] in B { assert a[i] in a; }
    forall i | 0 <= i < |b| ensures b[i] in A { assert b[i] in b; }
    DistinctInSet(a, B);
    DistinctInSet(b, A);
  }

  lemma {:induction false} Elements(s: seq<int>) returns (X: set<int>)
    ensures |X| <= |s| && forall x :: x in X <==> x in s
  {
    if s == [] {
      X := {};
    } else {
      var Y := Elements(s[1..]);
      assert s == [s[0]] + s[1..];
      X := Y + {s[0]};
    }
  }

  lemma SortedLmsLength(T: Text, seed: seq<int>, s: seq<int>)
    requires |seed| == |T| && SortedLms(T, seed, s)
    ensures |s| == |LmsFrom(T, 0)|
  {
    LmsFromElements(T, 0);
    hide IsS, IsLms;
    var l := LmsFrom(T, 0);
    forall x | x in s ensures x in l {}
    forall x | x in l ensures x in s {}
    SameElements(s, l);
  }

  // ---- the value area: one cell for the position p at p / 2

  /** The cell for positions 2d and 2d + 1, of which at most one is LMS. */
  ghost function AreaCell(T: Text, F: seq<int>, d: int): int
    requires |F| == |T| && 0 <= d
  {
    if 2 * d < |T| && IsLms(T, 2 * d) then F[2 * d]
    else if 2 * d + 1 < |T| && IsLms(T, 2 * d + 1) then F[2 * d + 1]
    else 0
  }

  /** From slot m on, the array holds the value F[p] of every LMS position p at m + p / 2,
      and 0 elsewhere. */
  ghost predicate Area(T: Text, cells: seq<int>, m: nat, F: seq<int>)
    requires |F| == |T|
  {
    m <= |T| <= |cells| && forall d :: 0 <= d < |T| - m ==> cells[m + d] == AreaCell(T, F, d)
  }

  lemma CellOf(T: Text, F: seq<int>, p: nat)
    requires |F| == |T| && p < |T| && IsLms(T, p)
    ensures AreaCell(T, F, p / 2) == F[p]
  {
    if p % 2 == 1 { assert 2 * (p / 2) == p - 1; }
  }

  lemma CellFits(T: Text, m: nat, p: nat)
    requires p < |T| && IsLms(T, p) && 2 * m <= |T|
    ensures m + p / 2 < |T|
  {
    LmsApart(T, p, p);
  }

  /** Only slots from m to n differ. */
  ghost predicate OutsideKept(before: seq<int>, after: seq<int>, m: int, n: int) {
    |before| == |after| && 0 <= m <= n <= |before| && before[..m] == after[..m] && before[n..] == after[n..]
  }

  lemma OutsideWrite(before: seq<int>, cells: seq<int>, m: nat, n: nat, r: nat, v: int)
    requires OutsideKept(before, cells, m, n) && m <= r < n
    ensures OutsideKept(before, cells[r := v], m, n)
  {
  }

  /** Changing the value of one LMS position changes its cell only. */
  lemma AreaWrite(T: Text, cells: seq<int>, m: nat, F: seq<int>, p: nat, v: int)
    requires |F| == |T| && Area(T, cells, m, F) && p < |T| && IsLms(T, p) && 2 * m <= |T|
    ensures m + p / 2 < |T|
    ensures Area(T, cells[m + p / 2 := v], m, F[p := v])
  {
    CellFits(T, m, p);
    CellOf(T, F[p := v], p);
    hide IsS;
    var F', cells' := F[p := v], cells[m + p / 2 := v];
    forall d | 0 <= d < |T| - m ensures cells'[m + d] == AreaCell(T, F', d) {
      if d != p / 2 {
        assert 2 * d != p && 2 * d + 1 != p;
        assert cells[m + d] == AreaCell(T, F, d);
      }
    }
  }

  lemma AreaRead(T: Text, cells: seq<int>, m: nat, F: seq<int>, p: nat)
    requires |F| == |T| && Area(T, cells, m, F) && p < |T| && IsLms(T, p) && 2 * m <= |T|
    ensures m + p / 2 < |T| && cells[m + p / 2] == F[p]
  {
    CellFits(T, m, p);
    CellOf(T, F, p);
    hide IsS, IsLms;
    assert cells[m + p / 2] == AreaCell(T, F, p / 2);
  }

  /** Store the length of every LMS substring. */
  method StoreLengths(T: Text, SA: array<int>, m: nat) returns (ghost F: seq<int>)
    requires 0 < |T| <= SA.Length && 2 * m <= |T|
    requires forall r :: m <= r < |T| ==> SA[r] == 0
    modifies SA
    ensures |F| == |T| && Area(T, SA[..], m, F)
    ensures forall p :: 0 <= p < |T| && IsLms(T, p) ==> F[p] == SubLength(T, p)
    ensures OutsideKept(old(SA[..]), SA[..], m, |T|)
  {
    hide IsS, IsLms, Area, SubLength, OutsideKept;
    var n := |T|;
    ghost var cells, before, last := SA[..], SA[..], n;
    F := EmptyArea(T, cells, m);
    LastPositionIsL(T);
    var j := n - 1;
    var i := SkipL(T, n - 1);
    NoLmsInL(T, i, n - 1);
    while 0 <= i
      invariant -1 <= i < n && (i >= 0 ==> IsS(T, i))
      invariant j == if last == n then n - 1 else last
      invariant Measured(T, F, i, last)
      invariant Area(T, cells, m, F) && SA[..] == cells && OutsideKept(before, cells, m, n)
    {
      ghost var from := i;
      i := SkipS(T, i);
      OneLmsInS(T, i, from);
      if 0 <= i {
        MeasureOne(T, F, i, from, last);
        AreaWrite(T, cells, m, F, i + 1, j - i);
        OutsideWrite(before, cells, m, n, m + (i + 1) / 2, j - i);
        SA[m + (i + 1) / 2] := j - i;
        cells, F := SA[..], F[i + 1 := j - i];
        j, last, from := i + 1, i + 1, i;
        i := SkipL(T, i);
        NoLmsInL(T, i, from);
      } else {
        MeasureNone(T, F, from, last);
      }
    }
  }

  lemma EmptyArea(T: Text, cells: seq<int>, m: nat) returns (F: seq<int>)
    requires m <= |T| <= |cells| && forall r :: m <= r < |T| ==> cells[r] == 0
    ensures |F| == |T| && Area(T, cells, m, F) && OutsideKept(cells, cells, m, |T|)
  {
    hide IsS, IsLms;
    F := seq(|T|, _ => 0);
  }

  /** The lengths of all LMS substrings right of i are known; last is the leftmost of
      these positions. */
  ghost predicate Measured(T: Text, F: seq<int>, i: int, last: int) {
    && -1 <= i < last <= |T| == |F| && (last == |T| || IsLms(T, last))
    && (forall p :: i < p < last ==> !IsLms(T, p))
    && (forall p :: i < p < |T| && IsLms(T, p) ==> F[p] == SubLength(T, p))
  }

  lemma MeasureNone(T: Text, F: seq<int>, from: int, last: int)
    requires Measured(T, F, from, last) && 0 <= from
    requires !IsLms(T, 0) && forall p :: 0 < p <= from ==> !IsLms(T, p)
    ensures Measured(T, F, -1, last)
  {
    hide IsS, IsLms;
  }

  lemma MeasureOne(T: Text, F: seq<int>, i: nat, from: int, last: int)
    requires Measured(T, F, from, last) && i < from < |T|
    requires IsLms(T, i + 1) && forall p :: i + 1 < p <= from ==> !IsLms(T, p)
    ensures Measured(T, F[i + 1 := (if last == |T| then |T| - 1 else last) - i], i, i + 1)
  {
    hide IsS, IsLms;
    NextIs(T, i + 1, last);
    var F' := F[i + 1 := (if last == |T| then |T| - 1 else last) - i];
    forall p | i < p < |T| && IsLms(T, p) ensures F'[p] == SubLength(T, p) {
      if p > i + 1 { assert p > from; }
    }
  }

  lemma {:induction false} NextIs(T: Text, p: nat, q: nat)
    requires p < q <= |T| && (q == |T| || IsLms(T, q))
    requires forall x :: p < x < q ==> !IsLms(T, x)
    ensures NextLms(T, p) == q
    decreases |T| - p
  {
    if p + 1 < q { NextIs(T, p + 1, q); }
  }

  // ---- names

  /** nm names the first positions of the sorted list s, from 1 up to name: names do not
      decrease, and two positions share one exactly when their substrings agree. */
  ghost predicate GoodNames(T: Text, s: seq<int>, nm: seq<int>, name: int) {
    && |nm| <= |s| && 0 <= name <= |nm| && (nm != [] ==> name > 0)
    && (forall x :: 0 <= x < |s| ==> 0 <= s[x] < |T|)
    && (forall x :: 0 <= x < |nm| ==> 1 <= nm[x] <= name)
    && (forall x, y :: 0 <= x < y < |nm| ==> nm[x] <= nm[y])
    && (forall x, y :: 0 <= x < y < |nm| ==> (nm[x] == nm[y] <==> SameSub(T, s[x], s[y])))
    && (name == |nm| ==> forall x, y :: 0 <= x < y < |nm| ==> nm[x] < nm[y])
  }

  /** All positions of the list may be compared in the induced order. */
  ghost predicate SortedFrom(T: Text, lo: nat, seed: seq<int>, s: seq<int>) {
    && |seed| == |T| && SeedsOk(T, lo, seed) && SortedLms(T, seed, s)
    && forall a :: 0 <= a < |s| ==> lo <= s[a] && s[a] + 1 < |T|
  }

  /** The name given last belongs to a position whose agreement with the next one decides
      whether that one needs a new name. */
  lemma AgreesWithNamed(T: Text, lo: nat, seed: seq<int>, s: seq<int>, nm: seq<int>, name: int, a: nat, x: nat)
    requires SortedFrom(T, lo, seed, s) && GoodNames(T, s, nm, name) && |nm| < |s|
    requires a < |nm| && nm[a] == name && x < |nm|
    ensures SameSub(T, s[x], s[|nm|]) <==> nm[x] == name && SameSub(T, s[a], s[|nm|])
  {
    hide IsS, IsLms, Before, SeedsOk, SameSub;
    var p, q := s[|nm|], s[a];
    if SameSub(T, s[x], p) {
      if x < a {
        SameSubConvex(T, lo, seed, s[x], q, p);
        SameSubSymmetric(T, s[x], q);
        SameSubTransitive(T, q, s[x], p);
      } else if x > a {
        assert nm[a] <= nm[x];
        SameSubTransitive(T, q, s[x], p);
      }
    }
    if nm[x] == name && SameSub(T, q, p) {
      if x < a {
        SameSubTransitive(T, s[x], q, p);
      } else if a < x {
        SameSubSymmetric(T, q, s[x]);
        SameSubTransitive(T, s[x], q, p);
      }
    }
  }

  lemma NameAgain(T: Text, s: seq<int>, nm: seq<int>, name: int)
    requires GoodNames(T, s, nm, name) && 0 < |nm| < |s|
    requires forall x :: 0 <= x < |nm| ==> (SameSub(T, s[x], s[|nm|]) <==> nm[x] == name)
    requires name in nm
    ensures GoodNames(T, s, nm + [name], name)
  {
    hide SameSub;
    var nm' := nm + [name];
    forall x, y | 0 <= x < y < |nm'| ensures nm'[x] <= nm'[y] && (nm'[x] == nm'[y] <==> SameSub(T, s[x], s[y])) {
      if y < |nm| { assert nm[x] <= nm[y]; }
    }
  }

  lemma NameAnew(T: Text, s: seq<int>, nm: seq<int>, name: int)
    requires GoodNames(T, s, nm, name) && |nm| < |s|
    requires forall x :: 0 <= x < |nm| ==> !SameSub(T, s[x], s[|nm|])
    ensures GoodNames(T, s, nm + [name + 1], name + 1)
  {
    hide SameSub;
    var nm' := nm + [name + 1];
    forall x, y | 0 <= x < y < |nm'| ensures nm'[x] <= nm'[y] && (nm'[x] == nm'[y] <==> SameSub(T, s[x], s[y])) {
      if y < |nm| { assert nm[x] <= nm[y]; }
    }
  }

  lemma NameNext(T: Text, lo: nat, seed: seq<int>, s: seq<int>, nm: seq<int>, name: int, a: nat)
    requires SortedFrom(T, lo, seed, s) && GoodNames(T, s, nm, name) && |nm| < |s|
    requires nm != [] ==> a < |nm| && nm[a] == name
    ensures nm != [] && SameSub(T, s[a], s[|nm|]) ==> GoodNames(T, s, nm + [name], name)
    ensures nm == [] || !SameSub(T, s[a], s[|nm|]) ==> GoodNames(T, s, nm + [name + 1], name + 1)
  {
    forall x | 0 <= x < |nm|
      ensures SameSub(T, s[x], s[|nm|]) <==> nm[x] == name && SameSub(T, s[a], s[|nm|])
    {
      AgreesWithNamed(T, lo, seed, s, nm, name, a, x);
    }
    hide SortedFrom, SameSub, GoodNames;
    if nm != [] && SameSub(T, s[a], s[|nm|]) { NameAgain(T, s, nm, name); } else { NameAnew(T, s, nm, name); }
  }

  method SameStretch(T: Text, p: nat, q: nat, len: nat) returns (same: bool)
    requires p + len <= |T| && q + len <= |T|
    ensures same <==> T[p..p + len] == T[q..q + len]
  {
    var j := 0;
    while j < len && T[p + j] == T[q + j]
      invariant 0 <= j <= len && T[p..p + j] == T[q..q + j]
    {
      assert T[p..p + j + 1] == T[p..p + j] + [T[p + j]] && T[q..q + j + 1] == T[q..q + j] + [T[q + j]];
      j := j + 1;
    }
    same := j == len;
    if j < len {
      assert T[p..p + len][j] != T[q..q + len][j];
    }
  }

  /** F holds the names of the positions named so far and the lengths of the others. */
  ghost predicate PartlyNamed(T: Text, s: seq<int>, nm: seq<int>, F: seq<int>) {
    && |F| == |T| && |nm| <= |s| && (forall x :: 0 <= x < |s| ==> 0 <= s[x] < |T|)
    && (forall x :: 0 <= x < |nm| ==> F[s[x]] == nm[x])
    && (forall x :: |nm| <= x < |s| ==> F[s[x]] == SubLength(T, s[x]))
  }

  lemma NameOne(T: Text, lo: nat, seed: seq<int>, s: seq<int>, nm: seq<int>, F: seq<int>, v: int)
    requires SortedFrom(T, lo, seed, s) && PartlyNamed(T, s, nm, F) && |nm| < |s|
    ensures PartlyNamed(T, s, nm + [v], F[s[|nm|] := v])
  {
    hide IsS, IsLms, Before, SeedsOk, SubLength;
    var i, nm', F' := |nm|, nm + [v], F[s[|nm|] := v];
    forall x | 0 <= x < |nm'| ensures F'[s[x]] == nm'[x] {
      if x < i { assert s[x] != s[i]; }
    }
    forall x | |nm'| <= x < |s| ensures F'[s[x]] == SubLength(T, s[x]) {
      assert s[i] != s[x];
    }
  }

  lemma NamesBegin(T: Text, lo: nat, seed: seq<int>, s: seq<int>)
    requires SortedFrom(T, lo, seed, s)
    ensures GoodNames(T, s, [], 0)
  {
  }

  lemma KeptFront(before: seq<int>, cells: seq<int>, m: nat, n: nat, i: nat)
    requires OutsideKept(before, cells, m, n) && i < m
    ensures cells[i] == before[i]
  {
    assert before[..m][i] == cells[..m][i];
  }

  /** What the naming loop reads at the next position of the list, and which name follows. */
  lemma NamingStep(T: Text, lo: nat, seed: seq<int>, s: seq<int>, nm: seq<int>, name: int, a: nat, F: seq<int>, cells: seq<int>, m: nat)
    requires SortedFrom(T, lo, seed, s) && GoodNames(T, s, nm, name) && |nm| < |s|
    requires nm != [] ==> a < |nm| && nm[a] == name
    requires PartlyNamed(T, s, nm, F) && 2 * m <= |T| && Area(T, cells, m, F)
    ensures var p := s[|nm|]; 0 <= p < |T| && IsLms(T, p) && m + p / 2 < |T| && cells[m + p / 2] == SubLength(T, p) && 0 < SubLength(T, p) && p + SubLength(T, p) <= |T|
    ensures nm == [] ==> GoodNames(T, s, [name + 1], name + 1)
    ensures nm != [] ==>
      var p, q := s[|nm|], s[a];
      && 0 <= q < |T| && q + SubLength(T, q) <= |T|
      && if SubLength(T, p) == SubLength(T, q) && q + SubLength(T, q) < |T| && T[p..p + SubLength(T, p)] == T[q..q + SubLength(T, p)]
         then GoodNames(T, s, nm + [name], name) else GoodNames(T, s, nm + [name + 1], name + 1)
  {
    hide IsS, IsLms, Before, SeedsOk, SubLength, SameSub, GoodNames, Area;
    var p := s[|nm|];
    AreaRead(T, cells, m, F, p);
    SubLengthFits(T, p);
    NameNext(T, lo, seed, s, nm, name, a);
    if nm != [] {
      NamingTest(T, lo, seed, s[a], p);
    } else {
      assert nm + [name + 1] == [name + 1];
    }
  }

  /** The positions named so far have their names in the value area, the others their
      lengths. */
  ghost predicate NamesStored(T: Text, s: seq<int>, nm: seq<int>, name: int, F: seq<int>, m: nat, before: seq<int>, cells: seq<int>) {
    && |s| == m && GoodNames(T, s, nm, name)
    && PartlyNamed(T, s, nm, F) && Area(T, cells, m, F)
    && OutsideKept(before, cells, m, |T|)
  }

  /** The state of the naming loop: q, of length qlen, is the position named last. */
  ghost predicate NamingState(T: Text, lo: nat, seed: seq<int>, s: seq<int>, nm: seq<int>, name: int, q: int, qlen: int,
                              F: seq<int>, cells: seq<int>, m: nat, before: seq<int>)
  {
    && NamesStored(T, s, nm, name, F, m, before, cells)
    && before[..m] == s && SortedFrom(T, lo, seed, s) && 2 * m <= |T|
    && if nm == [] then qlen == 0 && name == 0 else exists a :: 0 <= a < |nm| && nm[a] == name && q == s[a] && qlen == SubLength(T, q)
  }

  /** The test of the loop: the next substring equals the one named last. */
  ghost predicate Repeats(T: Text, p: int, plen: int, q: int, qlen: int) {
    && plen == qlen && q + plen < |T| && 0 <= p && 0 <= q && 0 <= plen && p + plen <= |T|
    && T[p..p + plen] == T[q..q + plen]
  }

  lemma NamingRead(T: Text, lo: nat, seed: seq<int>, s: seq<int>, nm: seq<int>, name: int, q: int, qlen: int,
                   F: seq<int>, cells: seq<int>, m: nat, before: seq<int>)
    requires NamingState(T, lo, seed, s, nm, name, q, qlen, F, cells, m, before) && |nm| < |s|
    ensures |nm| < |cells| && cells[|nm|] == s[|nm|]
    ensures name >= 0 && 0 <= s[|nm|] < |T| && m + s[|nm|] / 2 < |T| <= |cells|
    ensures 0 < cells[m + s[|nm|] / 2] && s[|nm|] + cells[m + s[|nm|] / 2] <= |T|
    ensures nm != [] ==> q >= 0
  {
    hide IsS, IsLms, Before, SeedsOk, SameSub;
    var p := s[|nm|];
    KeptFront(before, cells, m, |T|, |nm|);
    AreaRead(T, cells, m, F, p);
    SubLengthFits(T, p);
  }

  lemma NamingMove(T: Text, lo: nat, seed: seq<int>, s: seq<int>, nm: seq<int>, name: int, q: int, qlen: int,
                   F: seq<int>, cells: seq<int>, m: nat, before: seq<int>, name': int, q': int, qlen': int)
    requires NamingState(T, lo, seed, s, nm, name, q, qlen, F, cells, m, before) && |nm| < |s|
    requires 0 <= s[|nm|] < |T| && m + s[|nm|] / 2 < |T| <= |cells|
    requires if Repeats(T, s[|nm|], cells[m + s[|nm|] / 2], q, qlen)
             then name' == name && q' == q && qlen' == qlen
             else name' == name + 1 && q' == s[|nm|] && qlen' == cells[m + s[|nm|] / 2]
    ensures |F| == |T|
    ensures NamesStored(T, s, nm + [name'], name', F[s[|nm|] := name'], m, before, cells[m + s[|nm|] / 2 := name'])
    ensures NamingState(T, lo, seed, s, nm + [name'], name', q', qlen', F[s[|nm|] := name'], cells[m + s[|nm|] / 2 := name'], m, before)
  {
    hide IsS, IsLms, Before, SeedsOk, SubLength, SameSub, GoodNames, Area, SortedFrom;
    var p, a := s[|nm|], 0;
    if nm != [] { a :| 0 <= a < |nm| && nm[a] == name && q == s[a] && qlen == SubLength(T, q); }
    NamingStep(T, lo, seed, s, nm, name, a, F, cells, m);
    NameOne(T, lo, seed, s, nm, F, name');
    AreaWrite(T, cells, m, F, p, name');
    OutsideWrite(before, cells, m, |T|, m + p / 2, name');
    var nm' := nm + [name'];
    assert nm == [] ==> nm' == [name'];
    assert nm'[|nm|] == name';
    assert nm != [] ==> nm'[a] == nm[a];
  }

  /** Whether the next substring gets a new name. */
  method Differs(T: Text, p: nat, plen: nat, q: int, qlen: nat) returns (diff: bool)
    requires 0 < plen && p + plen <= |T| && (qlen > 0 ==> q >= 0)
    ensures diff <==> !Repeats(T, p, plen, q, qlen)
  {
    diff := true;
    if plen == qlen && q + plen < |T| {
      var same := SameStretch(T, p, q, plen);
      diff := !same;
    }
  }

  /** Name position p, of which the cell holds the length. */
  method NamePosition(T: Text, SA: array<int>, m: nat, p: nat, name: nat, q: nat, qlen: nat) returns (name': nat, q': nat, qlen': nat)
    requires p < |T| && m + p / 2 < SA.Length && 0 < SA[m + p / 2] && p + SA[m + p / 2] <= |T|
    modifies SA
    ensures if Repeats(T, p, old(SA[m + p / 2]), q, qlen)
            then name' == name && q' == q && qlen' == qlen
            else name' == name + 1 && q' == p && qlen' == old(SA[m + p / 2])
    ensures SA[..] == old(SA[..])[m + p / 2 := name']
  {
    name', q', qlen' := name, q, qlen;
    var plen := SA[m + p / 2];
    var diff := Differs(T, p, plen, q, qlen);
    if diff {
      name', q', qlen' := name + 1, p, plen;
    }
    SA[m + p / 2] := name';
  }

  /** Give every substring its name, in sorted order. */
  method NameSubstrings(T: Text, SA: array<int>, m: nat, ghost lo: nat, ghost seed: seq<int>, ghost s: seq<int>, ghost F0: seq<int>)
    returns (name: nat, ghost nm: seq<int>, ghost F: seq<int>)
    requires |T| <= SA.Length && 2 * m <= |T| && SA[..m] == s
    requires SortedFrom(T, lo, seed, s)
    requires PartlyNamed(T, s, [], F0) && Area(T, SA[..], m, F0)
    modifies SA
    ensures |nm| == m && NamesStored(T, s, nm, name, F, m, old(SA[..]), SA[..])
  {
    ghost var cells, before := SA[..], SA[..];
    F, nm, name := F0, [], 0;
    var q: nat, qlen: nat := |T|, 0;
    NamesBegin(T, lo, seed, s);
    assert NamingState(T, lo, seed, s, nm, name, q, qlen, F, cells, m, before);
    hide NamingState, NamesStored, SortedFrom, Repeats;
    for i := 0 to m
      invariant |nm| == i && SA[..] == cells && NamesStored(T, s, nm, name, F, m, before, cells)
      invariant NamingState(T, lo, seed, s, nm, name, q, qlen, F, cells, m, before)
    {
      NamingRead(T, lo, seed, s, nm, name, q, qlen, F, cells, m, before);
      var p := SA[i];
      ghost var name0, q0, qlen0 := name, q, qlen;
      name, q, qlen := NamePosition(T, SA, m, p, name, q, qlen);
      NamingMove(T, lo, seed, s, nm, name0, q0, qlen0, F, cells, m, before, name, q, qlen);
      cells, F, nm := SA[..], F[p := name], nm + [name];
    }
  }
}
