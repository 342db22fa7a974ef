/** sais_main and sais: the linear-time suffix array construction, in place. */
module Sais {
  import opened Suffixes
  import opened Buckets
  import opened InducedOrder
  import opened InducedSlots
  import Induce
  import LmsSort
  import opened LmsNames
  import opened Compaction
  import opened Naming
  import opened Seeding
  import opened Placement
  import opened NameString
  import opened LmsFlags
  import LmsSort2
  import opened SeedMarks
  import opened MarkedNaming

  /** The plan for a seeding reads the seeds where they were put. */
  lemma PlanForSeeds(T: Text, lo: nat, seed: seq<int>, cells: seq<int>, d: int) returns (P: Plan)
    requires SeedsOk(T, lo, seed) && Seeded(T, lo, seed, cells, d)
    ensures P.lo == lo && LPlan(T, P) && SPlan(T, P) && |seed| == |T| && SlotsFollow(T, seed, P)
    ensures |cells| >= |T| && forall r :: 0 <= r < |T| ==> cells[r] == if IsSeed(T, lo, P.occ[r]) then P.occ[r] - d else 0
    ensures forall p :: IsSeed(T, lo, p) ==> P.src[p] == seed[p]
  {
    P := MakePlan(T, lo, seed);
    forall r | 0 <= r < |T| ensures cells[r] == if IsSeed(T, lo, P.occ[r]) then P.occ[r] - d else 0 {
      SeedCell(T, P, seed, cells, d, r);
    }
  }

  lemma SeedCell(T: Text, P: Plan, seed: seq<int>, cells: seq<int>, d: int, r: nat)
    requires Shape(T, P) && SourcesInverse(T, P) && Seeded(T, P.lo, seed, cells, d) && r < |T|
    requires forall p :: IsSeed(T, P.lo, p) ==> P.src[p] == seed[p]
    ensures cells[r] == if IsSeed(T, P.lo, P.occ[r]) then P.occ[r] - d else 0
  {
    SeedsRange(T, P.lo);
    hide IsS, IsLms, IsL;
    var q := P.occ[r];
    if cells[r] != 0 {
      assert InFirstPass(T, P.lo, cells[r] + d);
    }
    if IsSeed(T, P.lo, q) {
      assert InFirstPass(T, P.lo, q);
      assert P.src[q] == r;
    }
  }

  /** With the seeds in suffix order, the arrangement is the suffix array. */
  lemma ArrangementIsSuffixArray(T: Text, seed: seq<int>, P: Plan)
    requires SPlan(T, P) && P.lo == 0 && SeedsInOrder(T, seed) && SlotsFollow(T, seed, P)
    ensures IsSuffixArray(T, P.inv)
  {
    Induce.EverySlotTaken(T, P);
    hide IsS, IsLms, SContiguous, SOrdered, Less, Before;
    forall x | 0 <= x < |T| ensures x in P.inv { assert P.inv[P.w[x]] == x; }
    forall r, s | 0 <= r < s < |P.inv| ensures Less(T, P.inv[r], P.inv[s]) {
      assert P.w[P.inv[r]] < P.w[P.inv[s]];
      BeforeIsLess(T, 0, seed, P.inv[r], P.inv[s]);
    }
  }

  // ---- names

  /** The name string: names in text order, from 0. */
  ghost predicate NameStringOf(T: Text, F: seq<int>, R: Text) {
    && |F| == |T| && |R| == |LmsFrom(T, 0)|
    && forall a :: 0 <= a < |R| ==> LmsFrom(T, 0)[a] < |T| && R[a] == F[LmsFrom(T, 0)[a]] - 1
  }

  /** What the names given to two LMS positions say about them. */
  lemma NamesCompare(T: Text, lo: nat, seed: seq<int>, s: seq<int>, nm: seq<int>, name: int, F: seq<int>, p: nat, q: nat)
    requires SortedFrom(T, lo, seed, s) && |nm| == |s| && GoodNames(T, s, nm, name) && PartlyNamed(T, s, nm, F)
    requires p < |T| && q < |T| && IsLms(T, p) && IsLms(T, q) && p != q
    ensures 1 <= F[p] <= name
    ensures F[p] == F[q] ==> SameSub(T, p, q)
    ensures F[p] < F[q] ==> Less(T, p, q)
  {
    hide IsS, IsLms, Before, SeedsOk, SameSub, SubLength, Less;
    var a :| 0 <= a < |s| && s[a] == p;
    var b :| 0 <= b < |s| && s[b] == q;
    if a < b {
      if nm[a] != nm[b] { DifferentIsLess(T, lo, seed, p, q); }
    } else {
      if nm[a] == nm[b] { SameSubSymmetric(T, q, p); }
    }
  }

  lemma NameOfLms(T: Text, lo: nat, seed: seq<int>, s: seq<int>, nm: seq<int>, name: int, F: seq<int>, p: nat)
    requires SortedFrom(T, lo, seed, s) && |nm| == |s| && GoodNames(T, s, nm, name) && PartlyNamed(T, s, nm, F)
    requires p < |T| && IsLms(T, p)
    ensures 1 <= F[p] <= name
  {
    hide IsS, IsLms, Before, SeedsOk, SameSub, SubLength, Less;
    var a :| 0 <= a < |s| && s[a] == p;
  }

  lemma NamesAreOk(T: Text, lo: nat, seed: seq<int>, s: seq<int>, nm: seq<int>, name: int, F: seq<int>, R: Text)
    requires SortedFrom(T, lo, seed, s) && |nm| == |s| && GoodNames(T, s, nm, name) && PartlyNamed(T, s, nm, F)
    requires NameStringOf(T, F, R)
    ensures NamesOk(T, R) && Alphabet(R, name)
  {
    hide IsS, IsLms, SameSub, Less, GoodNames, PartlyNamed, SortedFrom;
    var lms := LmsFrom(T, 0);
    LmsFromElements(T, 0);
    forall a | 0 <= a < |R| ensures R[a] < name { NameOfLms(T, lo, seed, s, nm, name, F, lms[a]); }
    forall a, b | 0 <= a < |R| && 0 <= b < |R| && a != b
      ensures (R[a] == R[b] ==> SameSub(T, lms[a], lms[b])) && (R[a] < R[b] ==> Less(T, lms[a], lms[b]))
    {
      NamesCompare(T, lo, seed, s, nm, name, F, lms[a], lms[b]);
    }
  }

  /** If all names differ, the sorted list already is in suffix order. */
  lemma UniqueNames(T: Text, lo: nat, seed: seq<int>, s: seq<int>, nm: seq<int>, name: int)
    requires SortedFrom(T, lo, seed, s) && |nm| == |s| == name && GoodNames(T, s, nm, name)
    ensures LmsInOrder(T, s)
  {
    hide IsS, IsLms, Before, SeedsOk, SameSub, Less;
    forall a, b | 0 <= a < b < |s| ensures Less(T, s[a], s[b]) {
      assert nm[a] < nm[b];
      DifferentIsLess(T, lo, seed, s[a], s[b]);
    }
  }

  /** The sorted name string, read through the LMS positions, is the list in suffix order. */
  lemma MappedInOrder(T: Text, R: Text, SR: seq<int>, t: seq<int>)
    requires NamesOk(T, R) && IsSuffixArray(R, SR) && |t| == |SR|
    requires forall a :: 0 <= a < |t| ==> 0 <= SR[a] < |R| && t[a] == LmsFrom(T, 0)[SR[a]]
    ensures LmsInOrder(T, t)
  {
    LmsFromElements(T, 0);
    ReducedOrder(T, R, SR);
    hide IsS, IsLms, Less, SameSub;
    var lms := LmsFrom(T, 0);
    forall p | 0 <= p < |T| && IsLms(T, p) ensures p in t {
      var a :| 0 <= a < |lms| && lms[a] == p;
      assert a in SR;
      var r :| 0 <= r < |SR| && SR[r] == a;
      assert t[r] == p;
    }
  }

  lemma ListBounds(T: Text, lo: nat, seed: seq<int>, s: seq<int>)
    requires |seed| == |T| && SeedsOk(T, lo, seed) && SortedLms(T, seed, s)
    requires forall p :: 0 <= p < |T| && IsLms(T, p) ==> lo <= p
    ensures SortedFrom(T, lo, seed, s)
  {
    hide IsS, Before, SeedsOk;
    forall a | 0 <= a < |s| ensures lo <= s[a] && s[a] + 1 < |T| { LmsApart(T, s[a], s[a]); }
  }

  // ---- the construction

  /** What LMSsort1 leaves for LMSpostproc1. */
  ghost predicate SubstringsSorted(T: Text, lo: nat, seed: seq<int>, P: Plan, cells: seq<int>, m: nat) {
    && |T| <= |cells| && 0 < m == |LmsFrom(T, 0)| && |seed| == |T| && P.lo == lo
    && SPlan(T, P) && LmsSort.FromLms(T, P) && SlotsFollow(T, seed, P) && SeedsOk(T, lo, seed)
    && LmsSort.LmsLeft(T, P, cells) && forall p :: 0 <= p < |T| && IsLms(T, p) ==> lo <= p
  }

  /** What the second part of the substring sort leaves: the names in the value area. */
  ghost predicate SubstringsNamed(T: Text, lo: nat, seed: seq<int>, s: seq<int>, nm: seq<int>, name: int,
                                  F: seq<int>, cells: seq<int>, m: nat) {
    && |T| <= |cells| && 0 < m == |LmsFrom(T, 0)| == |s| == |nm| <= |T| && SortedFrom(T, lo, seed, s)
    && GoodNames(T, s, nm, name) && PartlyNamed(T, s, nm, F) && Area(T, cells, m, F)
  }

  lemma SubstringsNamedHolds(T: Text, lo: nat, seed: seq<int>, s: seq<int>, nm: seq<int>, name: int, F: seq<int>,
                             before: seq<int>, cells: seq<int>, m: nat)
    requires |T| <= |cells| && 0 < m == |LmsFrom(T, 0)| == |s| == |nm| <= |T| && SortedFrom(T, lo, seed, s)
    requires m <= |before| && before[..m] == s && NamesStored(T, s, nm, name, F, m, before, cells)
    ensures SubstringsNamed(T, lo, seed, s, nm, name, F, cells, m)
    ensures before[|T|..] == cells[|T|..] && cells[..m] == s
  {
    hide GoodNames, PartlyNamed, Area, SortedFrom;
  }

  lemma SortedIsFlagged(T: Text, lo: nat, seed: seq<int>, P: Plan, cells: seq<int>, m: nat)
    requires SubstringsSorted(T, lo, seed, P, cells, m)
    ensures 2 * m <= |T| <= |cells| && 0 < m < |T| && (forall r :: 0 <= r < |T| ==> cells[r] <= 0)
    ensures var s := Flagged(cells[..|T|]); |s| == m == |LmsFrom(T, 0)| && SortedFrom(T, lo, seed, s)
  {
    hide SPlan, SlotsFollow, SeedsOk, IsS, IsLms, SortedLms, SortedFrom, LmsSort.LmsLeft, LmsSort.FromLms;
    LeftIsFlagged(T, P, cells);
    FlaggedAreSorted(T, seed, P, cells);
    var s := Flagged(cells[..|T|]);
    SortedLmsLength(T, seed, s);
    ListBounds(T, lo, seed, s);
    LmsHalf(T);
  }

  /** LMSpostproc1: from the flagged entries, the sorted list and its names. */
  method LmsPostproc1(T: Text, SA: array<int>, m: nat, ghost lo: nat, ghost seed: seq<int>, ghost P: Plan)
    returns (name: nat, ghost s: seq<int>, ghost nm: seq<int>, ghost F: seq<int>)
    requires SubstringsSorted(T, lo, seed, P, SA[..], m)
    modifies SA
    ensures SubstringsNamed(T, lo, seed, s, nm, name, F, SA[..], m)
    ensures |T| <= SA.Length && m <= SA.Length && SA[..m] == s && SA[|T|..] == old(SA[|T|..])
  {
    hide SubstringsSorted, SubstringsNamed, SortedFrom, Area, NamesStored, OutsideKept, PartlyNamed;
    SortedIsFlagged(T, lo, seed, P, SA[..], m);
    ghost var rest := SA[|T|..];
    assert SA[..][..|T|] == SA[..|T|];
    s := Flagged(SA[..|T|]);
    Compact(SA, |T|, m);
    ghost var cells := SA[..];
    ghost var F0 := StoreLengths(T, SA, m);
    KeptParts(cells, SA[..], m, |T|);
    LengthsReady(T, lo, seed, s, F0);
    ghost var before := SA[..];
    name, nm, F := NameSubstrings(T, SA, m, lo, seed, s, F0);
    SubstringsNamedHolds(T, lo, seed, s, nm, name, F, before, SA[..], m);
  }

  /** What LMSsort2 leaves for LMSpostproc2. */
  ghost predicate SubstringsMarked(T: Text, lo: nat, seed: seq<int>, P: Plan, cells: seq<int>, SA: seq<int>, m: nat) {
    && LmsSort2.LmsMarked(T, seed, P, cells, SA) && P.lo == lo && 0 < m == |LmsFrom(T, 0)|
    && forall p :: 0 <= p < |T| && IsLms(T, p) ==> lo <= p
  }

  lemma MarkedIsSorted(T: Text, lo: nat, seed: seq<int>, P: Plan, cells: seq<int>, SA: seq<int>, m: nat)
    requires SubstringsMarked(T, lo, seed, P, cells, SA, m)
    ensures 2 * m <= |T| <= |SA| == |cells| && 0 < m < |T| && m == |LmsFrom(T, 0)| && (forall r :: 0 <= r < |T| ==> SA[r] <= 0)
    ensures var s, g := Flagged(cells[..|T|]), Flagged(SA[..|T|]);
      && |s| == m == |g| && SortedFrom(T, lo, seed, s) && MarkedList(T, s, g)
      && GoodNames(T, s, NameList(T, s), NameAt(T, s, m) - 1) && Marks(g, |T|) == NameAt(T, s, m) - 1
  {
    hide SPlan, SlotsFollow, SeedsOk, IsS, IsLms, SortedLms, SortedFrom, LmsSort.LmsLeft, LmsSort.FromLms,
         LmsSort2.LmsMarked, MarkedList, GoodNames, NameAt, Marks, SeededPlan;
    MarkedParts(T, seed, P, cells, SA);
    CompactedMarks(T, seed, P, cells, SA);
    var s, g := Flagged(cells[..|T|]), Flagged(SA[..|T|]);
    SortedLmsLength(T, seed, s);
    ListBounds(T, lo, seed, s);
    LmsHalf(T);
    NamesFromMarks(T, lo, seed, s);
    MarksCount(T, s, g);
  }

  lemma MarkedNamed(T: Text, lo: nat, seed: seq<int>, s: seq<int>, name: int, F: seq<int>, before: seq<int>, cells: seq<int>, m: nat)
    requires 0 < m == |LmsFrom(T, 0)| == |s| <= |T| && SortedFrom(T, lo, seed, s) && GoodNames(T, s, NameList(T, s), name)
    requires NamesDown(T, s, F, before, cells, m, 0)
    ensures SubstringsNamed(T, lo, seed, s, NameList(T, s), name, F, cells, m)
    ensures |T| <= |before| == |cells| && before[|T|..] == cells[|T|..]
  {
    hide GoodNames, PartlyNamed, Area, SortedFrom, NamesDown, NameList;
    NamesDownDone(T, s, F, before, cells, m);
    AreaSize(T, cells, m, F);
  }

  lemma AreaSize(T: Text, cells: seq<int>, m: nat, F: seq<int>)
    requires |F| == |T| && Area(T, cells, m, F)
    ensures m <= |T| <= |cells|
  {
  }

  /** LMSpostproc2: from the marked entries, the names if some repeat, else the sorted list. */
  method LmsPostproc2(T: Text, SA: array<int>, m: nat, ghost lo: nat, ghost seed: seq<int>, ghost P: Plan, ghost cells: seq<int>)
    returns (name: nat, ghost s: seq<int>, ghost nm: seq<int>, ghost F: seq<int>)
    requires SubstringsMarked(T, lo, seed, P, cells, SA[..], m)
    modifies SA
    ensures name < m ==> SubstringsNamed(T, lo, seed, s, nm, name, F, SA[..], m)
    ensures name >= m ==> |s| == m <= SA.Length && SA[..m] == s && LmsInOrder(T, s)
    ensures |T| <= SA.Length && SA[|T|..] == old(SA[|T|..])
  {
    hide SubstringsMarked, SubstringsNamed, SortedFrom, MarkedList, NameAt, NamesDown, GoodNames, Marks, LmsInOrder, NameList, IsS;
    MarkedIsSorted(T, lo, seed, P, cells, SA[..], m);
    ghost var rest := SA[|T|..];
    assert SA[..][..|T|] == SA[..|T|];
    s := Flagged(cells[..|T|]);
    ghost var g := Flagged(SA[..|T|]);
    nm, F := NameList(T, s), [];
    name := CompactMarks(SA, |T|, m);
    if name < m {
      ghost var before := SA[..];
      F := StoreNames(T, SA, m, name, lo, seed, s, g);
      MarkedNamed(T, lo, seed, s, name, F, before, SA[..], m);
    } else {
      TailOfTail(SA[..], m, |T|);
      UnsetMarks(T, SA, m, s, g);
      TailOfTail(SA[..], m, |T|);
      NameCount(T, s, nm, name);
      UniqueNames(T, lo, seed, s, nm, name);
    }
  }

  lemma NameCount(T: Text, s: seq<int>, nm: seq<int>, name: int)
    requires GoodNames(T, s, nm, name)
    ensures name <= |nm|
  {
  }

  lemma LeftIsFlagged(T: Text, P: Plan, cells: seq<int>)
    requires LmsSort.FromLms(T, P) && LmsSort.LmsLeft(T, P, cells)
    ensures |cells| >= |T| && forall r :: 0 <= r < |T| ==> cells[r] <= 0
  {
  }

  lemma KeptParts(before: seq<int>, after: seq<int>, m: nat, n: nat)
    requires OutsideKept(before, after, m, n)
    ensures m <= n <= |before| == |after| && before[..m] == after[..m] && before[n..] == after[n..]
  {
  }

  lemma LengthsReady(T: Text, lo: nat, seed: seq<int>, s: seq<int>, F: seq<int>)
    requires SortedFrom(T, lo, seed, s) && |F| == |T|
    requires forall p :: 0 <= p < |T| && IsLms(T, p) ==> F[p] == SubLength(T, p)
    ensures PartlyNamed(T, s, [], F)
  {
  }

  lemma GatherReady(T: Text, lo: nat, seed: seq<int>, s: seq<int>, nm: seq<int>, name: int, F: seq<int>, cells: seq<int>, m: nat)
    requires SubstringsNamed(T, lo, seed, s, nm, name, F, cells, m)
    ensures |F| == |T| <= |cells| && Area(T, cells, m, F) && 0 < m == |LmsFrom(T, 0)| && 2 * m <= |T| && name > 0
    ensures forall p :: 0 <= p < |T| && IsLms(T, p) ==> F[p] > 0
  {
    hide IsS, IsLms, Area, GoodNames, PartlyNamed, SortedFrom;
    LmsHalf(T);
    NamePositive(T, s, nm, name, F);
    forall p | 0 <= p < |T| && IsLms(T, p) ensures F[p] > 0 { NameOfLms(T, lo, seed, s, nm, name, F, p); }
  }

  lemma NamePositive(T: Text, s: seq<int>, nm: seq<int>, name: int, F: seq<int>)
    requires GoodNames(T, s, nm, name) && nm != [] && PartlyNamed(T, s, nm, F)
    ensures name > 0 && |F| == |T|
  {
  }

  lemma NamesNatural(T: Text, F: seq<int>, cells: seq<int>, m: nat, base: nat)
    requires |F| == |T| && m == |LmsFrom(T, 0)| && base + m <= |cells|
    requires forall p :: 0 <= p < |T| && IsLms(T, p) ==> F[p] > 0
    requires forall a :: 0 <= a < m ==> LmsFrom(T, 0)[a] < |T| && cells[base + a] == F[LmsFrom(T, 0)[a]] - 1
    ensures var R := cells[base..base + m]; forall a :: 0 <= a < |R| ==> R[a] >= 0
  {
    hide IsS, IsLms;
    LmsFromElements(T, 0);
    var R := cells[base..base + m];
    forall a | 0 <= a < |R| ensures R[a] >= 0 {
      assert R[a] == cells[base + a] && IsLms(T, LmsFrom(T, 0)[a]);
    }
  }

  lemma NamesReady(T: Text, lo: nat, seed: seq<int>, s: seq<int>, nm: seq<int>, name: int, F: seq<int>, cells: seq<int>, m: nat, R: Text)
    requires SubstringsNamed(T, lo, seed, s, nm, name, F, cells, m) && |R| == m && NameStringOf(T, F, R)
    ensures NamesOk(T, R) && Alphabet(R, name)
  {
    hide IsS, IsLms, Area, GoodNames, PartlyNamed, SortedFrom, NamesOk, NameStringOf;
    NamesAreOk(T, lo, seed, s, nm, name, F, R);
  }

  lemma NamesUnique(T: Text, lo: nat, seed: seq<int>, s: seq<int>, nm: seq<int>, name: int, F: seq<int>, cells: seq<int>, m: nat)
    requires SubstringsNamed(T, lo, seed, s, nm, name, F, cells, m) && name >= m
    ensures LmsInOrder(T, s) && |s| == m
  {
    hide IsS, IsLms, Area, PartlyNamed, SortedFrom, LmsInOrder;
    UniqueNames(T, lo, seed, s, nm, name);
  }

  /** Gather the name string at the upper end of the array and sort it by a recursive call
      on the same array: the slots from m + newfs on, where it lies, are left alone. */
  method SortNames(T: Text, SA: array<int>, fs: nat, newfs: nat, m: nat, name: nat,
                   ghost lo: nat, ghost seed: seq<int>, ghost s: seq<int>, ghost nm: seq<int>, ghost F: seq<int>)
    returns (ghost R: Text, ghost SR: seq<int>)
    requires SubstringsNamed(T, lo, seed, s, nm, name, F, SA[..], m)
    requires |T| + fs <= SA.Length && |T| <= newfs + 2 * m <= |T| + fs
    modifies SA
    ensures 0 < m == |R| == |LmsFrom(T, 0)| && 2 * m <= |T| && NamesOk(T, R) && IsSuffixArray(R, SR) && SA[..m] == SR
    ensures SA[newfs + 2 * m..] == old(SA[newfs + 2 * m..])
    decreases |T|, 0
  {
    hide SubstringsNamed, Area, IsS, IsLms, NamesOk, IsSuffixArray;
    ghost var cells := SA[..];
    GatherReady(T, lo, seed, s, nm, name, F, cells, m);
    var base := m + newfs;
    GatherNames(T, SA, m, base, F);
    NamesNatural(T, F, SA[..], m, base);
    var RA: Text := SA[base..base + m];
    NamesReady(T, lo, seed, s, nm, name, F, cells, m, RA);
    TailOfTail(SA[..], base, base + m);
    var _, sr := SaisMain(RA, SA, newfs, name, false);
    TailOfTail(SA[..], base, base + m);
    R, SR := RA, sr;
  }

  /** Stage 2: solve the reduced problem, and turn its suffix array into the sorted list of
      LMS positions. */
  method SolveReduced(T: Text, SA: array<int>, fs: nat, newfs: nat, m: nat, name: nat,
                      ghost lo: nat, ghost seed: seq<int>, ghost s: seq<int>, ghost nm: seq<int>, ghost F: seq<int>)
    returns (ghost t: seq<int>)
    requires SubstringsNamed(T, lo, seed, s, nm, name, F, SA[..], m)
    requires |T| + fs <= SA.Length && |T| <= newfs + 2 * m <= |T| + fs
    modifies SA
    ensures |t| == m <= SA.Length && SA[..m] == t && LmsInOrder(T, t)
    ensures SA[newfs + 2 * m..] == old(SA[newfs + 2 * m..])
    decreases |T|, 1
  {
    hide SubstringsNamed, LmsInOrder, IsS, IsLms, NamesOk, IsSuffixArray;
    ghost var R, SR := SortNames(T, SA, fs, newfs, m, name, lo, seed, s, nm, F);
    SuffixArrayRange(R, SR);
    var base := m + newfs;
    PartsOfParts(SA[..], m, base, base + m);
    RefillPositions(T, SA, m, base);
    PartsOfParts(SA[..], m, base, base + m);
    MapBack(SA, m, base);
    PartsOfParts(SA[..], m, base, base + m);
    t := SA[..m];
    MappedInOrder(T, R, SR, t);
  }

  lemma TailOfTail(s: seq<int>, a: nat, b: nat)
    requires a <= b <= |s|
    ensures s[a..][b - a..] == s[b..]
  {
  }

  lemma PartsOfParts(s: seq<int>, m: nat, base: nat, end: nat)
    requires m <= base && base + m <= end <= |s|
    ensures s[..base][..m] == s[..m]
    ensures s[base + m..][end - base - m..] == s[end..] && s[m..][end - m..] == s[end..]
  {
  }

  lemma SuffixArrayRange(T: Text, SA: seq<int>)
    requires IsSuffixArray(T, SA)
    ensures |SA| == |T| && forall r :: 0 <= r < |SA| ==> 0 <= SA[r] < |T|
  {
  }

  /** Whether both bucket tables share one array, as the source decides from the alphabet
      size k and the free slots fs. */
  function SharedTables(k: nat, fs: nat): bool {
    if k <= 256 then false
    else if k <= fs then !(k <= fs - k) && !(k <= 1024)
    else true
  }

  /** Whether the substrings are sorted with counters and marks, as the source decides from
      the length n, the alphabet size k and the free slots fs. */
  function MarksSubstrings(n: nat, k: nat, fs: nat): bool
    requires k > 0
  {
    n <= 0x3fff_ffff && 2 <= n / k && (k <= 256 || (k <= fs && k <= fs - k && 2 * k <= fs - 2 * k))
  }

  /** What the seeding stage leaves when there are at least two LMS positions. */
  ghost predicate ReadyToSort(T: Text, seed: seq<int>, B: seq<int>, cells: seq<int>, lo: nat, b: int, m: nat) {
    && 1 < m == |LmsFrom(T, 0)| && lo < |T| && IsLms(T, lo) && SeedingState(T, seed, B, cells, lo, b)
    && forall x :: 0 <= x < lo ==> !IsLms(T, x)
  }

  lemma SortPlan(T: Text, seed: seq<int>, B: seq<int>, cells: seq<int>, lo: nat, b: int, m: nat) returns (P: Plan)
    requires ReadyToSort(T, seed, B, cells, lo, b, m)
    ensures LPlan(T, P) && SPlan(T, P) && P.lo == lo && LmsSort.FromLms(T, P) && LmsSort.SeedsPlaced(T, P, cells)
    ensures |seed| == |T| && SlotsFollow(T, seed, P) && SeedsOk(T, lo, seed) && 2 * m <= |T| && SeededPlan(T, seed, P)
  {
    hide IsS, IsLms, LPlan, SPlan, SlotsFollow, SeedsOk, Seeded, SeedingState;
    LmsHalf(T);
    SeedsSoFar(T, seed, B, cells, lo, b);
    SeededSoFar(T, seed, B, cells, lo, b);
    P := PlanForSeeds(T, lo, seed, cells, 1);
    PlanShape(T, P);
  }

  lemma PlanShape(T: Text, P: Plan)
    requires LPlan(T, P)
    ensures Shape(T, P)
  {
  }

  lemma SortedHolds(T: Text, seed: seq<int>, B: seq<int>, before: seq<int>, lo: nat, b: int, m: nat, P: Plan, cells: seq<int>)
    requires ReadyToSort(T, seed, B, before, lo, b, m)
    requires SPlan(T, P) && P.lo == lo && LmsSort.FromLms(T, P) && |seed| == |T| && SlotsFollow(T, seed, P) && SeedsOk(T, lo, seed)
    requires LmsSort.LmsLeft(T, P, cells) && |T| <= |cells|
    ensures SubstringsSorted(T, lo, seed, P, cells, m)
  {
    hide IsS, IsLms, SPlan, SlotsFollow, SeedsOk, SeedingState, LmsSort.LmsLeft;
  }

  lemma SeedingEnds(T: Text, seed: seq<int>, B: seq<int>, cells: seq<int>, lo: nat, b: int, m: nat)
    requires ReadyToSort(T, seed, B, cells, lo, b, m)
    ensures lo < |T| && SeededEnds(T, B, lo) && 0 < m == |LmsFrom(T, 0)| && forall p :: 0 <= p < |T| && IsLms(T, p) ==> lo <= p
  {
    hide IsS, IsLms, SeedingState;
    EndsOfSeeding(T, seed, B, cells, lo, b);
  }

  lemma SubstringsMarkedHolds(T: Text, lo: nat, seed: seq<int>, P: Plan, cells: seq<int>, SA: seq<int>, m: nat)
    requires LmsSort2.LmsMarked(T, seed, P, cells, SA) && P.lo == lo && 0 < m == |LmsFrom(T, 0)|
    requires forall p :: 0 <= p < |T| && IsLms(T, p) ==> lo <= p
    ensures SubstringsMarked(T, lo, seed, P, cells, SA, m)
  {
  }

  /** Stage 1: sort and name the LMS substrings, in one of the two ways. */
  method SortSubstrings(T: Text, SA: array<int>, fs: nat, C: array<int>, B: array<int>, m: nat, lo: nat, ghost b: int, ghost seed: seq<int>)
    returns (name: nat, ghost s: seq<int>, ghost nm: seq<int>, ghost F: seq<int>)
    requires |T| + fs <= SA.Length && SA != B && SA != C && 0 < B.Length == C.Length && Alphabet(T, B.Length)
    requires C != B ==> Counts(T, C[..], C.Length)
    requires ReadyToSort(T, seed, B[..], SA[..], lo, b, m)
    requires C == B <==> SharedTables(B.Length, fs)
    modifies SA, B, C
    ensures name < m ==> SubstringsNamed(T, lo, seed, s, nm, name, F, SA[..], m)
    ensures name >= m ==> |s| == m <= SA.Length && SA[..m] == s && LmsInOrder(T, s)
    ensures 2 * m <= |T| && SA[|T|..] == old(SA[|T|..]) && (C != B ==> Counts(T, C[..], C.Length))
  {
    hide ReadyToSort, LPlan, SPlan, SlotsFollow, SeedsOk, LmsSort.SeedsPlaced, LmsSort.FromLms, LmsSort.LmsLeft, SeededPlan, SeededEnds,
      SubstringsSorted, SubstringsNamed, SubstringsMarked, LmsSort2.LmsMarked, LmsSort2.MarkedL, LmsInOrder, Counts, IsS, IsLms, LmsFrom;
    var n, k := |T|, B.Length;
    ghost var before, table := SA[..], B[..];
    ghost var P := SortPlan(T, seed, B[..], SA[..], lo, b, m);
    if MarksSubstrings(n, k, fs) {
      var D := new int[2 * k];
      SeedingEnds(T, seed, B[..], SA[..], lo, b, m);
      PlanShape(T, P);
      MarkSeeds(T, SA, C, B, D, lo, seed, P);
      MarkedRest(T, P, before, SA[..]);
      ghost var cells := LmsSort2.LmsSort2(T, SA, C, B, D, seed, P, before);
      SubstringsMarkedHolds(T, lo, seed, P, cells, SA[..], m);
      name, s, nm, F := LmsPostproc2(T, SA, m, lo, seed, P, cells);
    } else {
      LmsSort.LmsSort1(T, SA, C, B, P);
      SortedHolds(T, seed, table, before, lo, b, m, P, SA[..]);
      name, s, nm, F := LmsPostproc1(T, SA, m, lo, seed, P);
      if name >= m { NamesUnique(T, lo, seed, s, nm, name, F, SA[..], m); }
    }
  }

  lemma MarkedRest(T: Text, P: Plan, cells: seq<int>, SA: seq<int>)
    requires Shape(T, P) && LmsSort2.MarkedL(T, P, cells, SA)
    ensures |SA| == |cells| >= |T| && SA[|T|..] == cells[|T|..]
  {
  }

  /** Stages 1 and 2: sort the LMS suffixes into the front of the array.  The result says
      whether the counts must be taken again, because the recursion reused their memory;
      otherwise the end of the free space, where the source keeps them, has not changed. */
  method SortLms(T: Text, SA: array<int>, fs: nat, C: array<int>, B: array<int>, m: nat, lo: nat, ghost b: int, ghost seed: seq<int>)
    returns (recount: bool, ghost t: seq<int>)
    requires |T| + fs <= SA.Length && SA != B && SA != C && 0 < B.Length == C.Length && Alphabet(T, B.Length)
    requires C != B ==> Counts(T, C[..], C.Length)
    requires ReadyToSort(T, seed, B[..], SA[..], lo, b, m)
    requires C == B <==> SharedTables(B.Length, fs)
    modifies SA, B, C
    ensures |t| == m && 2 * m <= |T| && SA[..m] == t && LmsInOrder(T, t)
    ensures if C == B then recount else Counts(T, C[..], C.Length)
    ensures SA[|T| + fs..] == old(SA[|T| + fs..])
    ensures 256 < B.Length <= fs && C != B && !recount ==> SA[|T| + fs - B.Length..] == old(SA[|T| + fs - B.Length..])
    decreases |T|, 2
  {
    hide ReadyToSort, SubstringsNamed, LmsInOrder, Counts, IsS, IsLms, LmsFrom;
    var n, k := |T|, B.Length;
    ghost var before := SA[..];
    var name, s, nm, F := SortSubstrings(T, SA, fs, C, B, m, lo, b, seed);
    TailOfTail(before, n, n + fs);
    TailOfTail(SA[..], n, n + fs);
    if k <= fs {
      TailOfTail(before, n, n + fs - k);
      TailOfTail(SA[..], n, n + fs - k);
    }
    recount := C == B;
    if name < m {
      GatherReady(T, lo, seed, s, nm, name, F, SA[..], m);
      var newfs := (n + fs) - m * 2;
      if C != B && 256 < k && k <= fs {
        if k + name <= newfs { newfs := newfs - k; } else { recount := true; }
      }
      TailOfTail(SA[..], newfs + 2 * m, n + fs);
      t := SolveReduced(T, SA, fs, newfs, m, name, lo, seed, s, nm, F);
      TailOfTail(SA[..], newfs + 2 * m, n + fs);
    } else {
      t := s;
    }
  }

  lemma ReadyHolds(T: Text, seed: seq<int>, B: seq<int>, cells: seq<int>, j: int, b: int, m: nat)
    requires m == |LmsFrom(T, 0)|
    requires m > 0 ==> 0 <= j && j + 1 < |T| && IsLms(T, j + 1) && SeedingState(T, seed, B, cells, j + 1, b)
    requires m > 0 ==> forall x :: 0 <= x < j + 1 ==> !IsLms(T, x)
    ensures m > 1 ==> ReadyToSort(T, seed, B, cells, j + 1, b, m)
  {
    hide IsS, IsLms, SeedingState;
  }

  lemma InduceReady(T: Text, P: Plan, cells: seq<int>)
    requires LPlan(T, P) && P.lo == 0 && |cells| >= |T|
    requires forall r :: 0 <= r < |T| ==> cells[r] == if IsSeed(T, 0, P.occ[r]) then P.occ[r] - 0 else 0
    ensures Shape(T, P) && Induce.SeedsPlaced(T, P, cells)
  {
    hide IsSeed;
  }

  /** With no LMS position at all there is nothing to place. */
  lemma NoSeeds(T: Text, seed: seq<int>, B: seq<int>, cells: seq<int>, b: int)
    requires 0 < |T| && SeedingState(T, seed, B, cells, |T|, b) && forall x :: 0 <= x < |T| ==> !IsLms(T, x)
    ensures SeedsOk(T, 0, seed) && Seeded(T, 0, seed, cells, 0) && SeedsInOrder(T, seed)
  {
    hide SeedingState, IsLms, SeedsOk;
    SeededSoFar(T, seed, B, cells, |T|, b);
    AdjacentIs(T, 0, |T|);
    SeedsComplete(T, seed, B, cells, |T|, b, 0);
  }

  /** A single LMS position goes to the slot kept for it. */
  lemma OneSeed(T: Text, seed: seq<int>, B: seq<int>, cells: seq<int>, last: nat, b: int)
    requires SeedingState(T, seed, B, cells, last, b) && last < |T| && IsLms(T, last) && |LmsFrom(T, 0)| == 1
    requires forall x :: 0 <= x < last ==> !IsLms(T, x)
    ensures 0 <= b < |T| <= |cells|
    ensures SeedsOk(T, 0, seed) && Seeded(T, 0, seed, cells[b := last], 0) && SeedsInOrder(T, seed)
  {
    hide SeedingState, IsS, SeedsOk;
    SeededSoFar(T, seed, B, cells, last, b);
    ReservedInBucket(T, seed, B, cells, last, b);
    AdjacentIs(T, 0, last);
    SeedsComplete(T, seed, B, cells, last, b, 0);
    LmsFromElements(T, 0);
    forall p | 0 <= p < |T| && IsLms(T, p) ensures p == last {
      assert p in LmsFrom(T, 0) && last in LmsFrom(T, 0);
    }
  }

  /** The output of computeBWT, for the suffix array sa: the character left of every
      suffix but that of the whole text, whose slot is pidx. */
  ghost predicate BwtCells(T: Text, sa: seq<int>, cells: seq<int>, pidx: int) {
    && |sa| == |T| <= |cells| && 0 <= pidx < |T| && sa[pidx] == 0
    && forall r :: 0 <= r < |T| && r != pidx ==> 0 < sa[r] < |T| && cells[r] == T[sa[r] - 1]
  }

  method SaisMain(T: Text, SA: array<int>, fs: nat, k: nat, isbwt: bool) returns (pidx: int, ghost sa: seq<int>)
    requires 0 < |T| && |T| + fs <= SA.Length && 0 < k && Alphabet(T, k)
    modifies SA
    ensures IsSuffixArray(T, sa)
    ensures if isbwt then BwtCells(T, sa, SA[..], pidx) else pidx == 0 && SA[..|T|] == sa
    ensures SA[|T| + fs..] == old(SA[|T| + fs..])
    decreases |T|, 3
  {
    hide Counts, Ends, Starts, LPlan, SPlan, SlotsFollow, SeedsOk, SeedingState, Seeded, ReadyToSort, LmsInOrder,
      SeedsInOrder, IsS, IsLms, Induce.SeedsPlaced, IsSuffixArray;
    var n := |T|;
    var C := new int[k];
    var B := C;
    if !SharedTables(k, fs) { B := new int[k]; }
    GetCounts(T, C, k);
    GetBuckets(T, C, B, k, true);
    var m, j, b, seed := SeedLms(T, SA, B);
    var recount := C == B;
    ghost var t: seq<int> := [];
    ReadyHolds(T, seed, B[..], SA[..], j, b, m);
    if m == 0 { NoSeeds(T, seed, B[..], SA[..], b); }
    if m == 1 { OneSeed(T, seed, B[..], SA[..], j + 1, b); }
    if 1 < m {
      recount, t := SortLms(T, SA, fs, C, B, m, j + 1, b, seed);
    } else if m == 1 {
      ghost var cells := SA[..];
      SA[b] := j + 1;
      assert SA[..] == cells[b := j + 1];
    }
    if recount { GetCounts(T, C, k); }
    if 1 < m {
      GetBuckets(T, C, B, k, true);
      seed := PlaceSorted(T, SA, B, m, t);
    }
    ghost var P := PlanForSeeds(T, 0, seed, SA[..], 0);
    InduceReady(T, P, SA[..]);
    ArrangementIsSuffixArray(T, seed, P);
    sa := P.inv;
    pidx := 0;
    if isbwt {
      pidx := Induce.ComputeBWT(T, SA, C, B, P);
    } else {
      Induce.InduceSA(T, SA, C, B, P);
      assert SA[..n] == P.inv;
    }
    assert SA[n + fs..] == SA[n..][fs..];
  }

  /** sais over bytes: T is sorted into SA[0..n], and an array of at most one slot needs
      no work. */
  method SuffixSort(T: Text, SA: array<int>)
    requires |T| <= SA.Length && Alphabet(T, 256)
    modifies SA
    ensures IsSuffixArray(T, SA[..|T|])
    ensures SA[|T|..] == old(SA[|T|..])
  {
    if |T| <= 1 {
      if |T| == 1 { SA[0] := 0; }
      assert |T| == 1 ==> SA[..|T|] == [0];
    } else {
      var _, _ := SaisMain(T, SA, 0, 256, false);
    }
  }

  /** U is the Burrows-Wheeler transform of T with primary index idx: row r of the sorted
      suffixes, the empty one first, gives the character left of its suffix, and row idx,
      the whole text, gives none. */
  ghost predicate IsBwt(T: Text, sa: seq<int>, U: seq<int>, idx: int) {
    && IsSuffixArray(T, sa) && |U| == |T| && 0 <= idx <= |T|
    && var rows := [|T|] + sa;
       && rows[idx] == 0
       && (forall r :: 0 <= r < idx ==> 0 < rows[r] <= |T| && U[r] == T[rows[r] - 1])
       && (forall r :: idx < r <= |T| ==> 0 < rows[r] <= |T| && U[r - 1] == T[rows[r] - 1])
  }

  /** sais_bwt over bytes, with work array A. */
  method BurrowsWheeler(T: Text, U: array<int>, A: array<int>) returns (idx: int, ghost sa: seq<int>)
    requires |T| == U.Length && |T| <= A.Length && A != U && Alphabet(T, 256)
    modifies U, A
    ensures IsBwt(T, sa, U[..], idx)
    ensures IsSuffixArray(T, sa) && |sa| == |T| && 0 <= idx <= |T| && ([|T|] + sa)[idx] == 0
    ensures forall r :: 0 <= r <= |T| && r != idx ==>
      0 < ([|T|] + sa)[r] <= |T| && U[if r < idx then r else r - 1] == T[([|T|] + sa)[r] - 1]
  {
    hide IsBwt, IsSuffixArray, BwtCells;
    var n := |T|;
    if n <= 1 {
      if n == 1 { U[0] := T[0]; }
      sa := if n == 1 then [0] else [];
      assert U[..] == if n == 1 then [T[0]] else [];
      TinyBwt(T, U[..]);
      BwtMeaning(T, sa, U[..], n);
      return n, sa;
    }
    var pidx: int;
    pidx, sa := SaisMain(T, A, 0, 256, true);
    PrimaryIndex(T, sa, A[..], pidx);
    CopyRows(T, U, A, pidx);
    idx := pidx + 1;
    BwtRows(T, sa, A[..], pidx, U[..]);
    BwtMeaning(T, sa, U[..], idx);
  }

  /** The last character, then the rows without the one of the whole text. */
  method CopyRows(T: Text, U: array<int>, A: array<int>, pidx: int)
    requires 1 < |T| == U.Length && |T| <= A.Length && A != U && 0 <= pidx < |T|
    modifies U
    ensures U[0] == T[|T| - 1]
    ensures forall r :: 0 <= r < pidx ==> U[r + 1] == A[r]
    ensures forall r :: pidx < r < |T| ==> U[r] == A[r]
  {
    var n := |T|;
    U[0] := T[n - 1];
    var i := 0;
    while i < pidx
      invariant 0 <= i <= pidx && U[0] == T[n - 1]
      invariant forall r :: 0 <= r < i ==> U[r + 1] == A[r]
    {
      U[i + 1] := A[i];
      i := i + 1;
    }
    i := i + 1;
    while i < n
      invariant pidx < i <= n && U[0] == T[n - 1]
      invariant forall r :: 0 <= r < pidx ==> U[r + 1] == A[r]
      invariant forall r :: pidx < r < i ==> U[r] == A[r]
    {
      U[i] := A[i];
      i := i + 1;
    }
  }

  lemma TinyBwt(T: Text, U: seq<int>)
    requires |T| <= 1 && U == if |T| == 1 then [T[0]] else []
    ensures IsBwt(T, if |T| == 1 then [0] else [], U, |T|)
  {
  }

  lemma PrimaryIndex(T: Text, sa: seq<int>, cells: seq<int>, pidx: int)
    requires BwtCells(T, sa, cells, pidx)
    ensures 0 <= pidx < |T| <= |cells|
  {
  }

  /** Row by row: the empty suffix comes first, row idx is the whole text, and every other row
      gives the character left of its suffix. */
  lemma BwtMeaning(T: Text, sa: seq<int>, U: seq<int>, idx: int)
    requires IsBwt(T, sa, U, idx)
    ensures IsSuffixArray(T, sa) && |sa| == |T| == |U| && 0 <= idx <= |T| && ([|T|] + sa)[idx] == 0
    ensures forall r :: 0 <= r <= |T| && r != idx ==>
      0 < ([|T|] + sa)[r] <= |T| && U[if r < idx then r else r - 1] == T[([|T|] + sa)[r] - 1]
  {
    assert |sa| == |T|;
    hide IsSuffixArray;
  }

  lemma BwtRows(T: Text, sa: seq<int>, cells: seq<int>, pidx: int, U: seq<int>)
    requires IsSuffixArray(T, sa) && BwtCells(T, sa, cells, pidx) && |U| == |T| && 1 < |T|
    requires U[0] == T[|T| - 1]
    requires forall r :: 0 <= r < pidx ==> U[r + 1] == cells[r]
    requires forall r :: pidx < r < |T| ==> U[r] == cells[r]
    ensures IsBwt(T, sa, U, pidx + 1)
  {
    hide IsSuffixArray;
    SuffixArrayRange(T, sa);
    var rows, idx := [|T|] + sa, pidx + 1;
    forall r | 0 <= r < idx ensures 0 < rows[r] <= |T| && U[r] == T[rows[r] - 1] {
      if r > 0 { assert rows[r] == sa[r - 1] && U[r - 1 + 1] == cells[r - 1]; }
    }
    forall r | idx < r <= |T| ensures 0 < rows[r] <= |T| && U[r - 1] == T[rows[r] - 1] {
      assert rows[r] == sa[r - 1];
    }
  }
}
