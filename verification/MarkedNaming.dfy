/** LMSpostproc2: names from the marks that LMSsort2 leaves, without comparing substrings. */
module MarkedNaming {
  import opened Suffixes
  import opened InducedOrder
  import opened InducedSlots
  import opened Passes
  import opened LmsSort
  import opened LmsNames
  import opened LmsLabels
  import opened Classes
  import opened LmsFlags
  import opened LmsFlagsS
  import opened LmsSort2
  import opened Compaction
  import opened Naming

  /** How many entries are marked. */
  ghost function Marks(g: seq<int>, n: int): nat {
    if g == [] then 0 else Marks(g[..|g| - 1], n) + if g[|g| - 1] >= n then 1 else 0
  }

  lemma MarksSnoc(g: seq<int>, x: int, n: int)
    ensures Marks(g + [x], n) == Marks(g, n) + if x >= n then 1 else 0
  {
    assert (g + [x])[..|g|] == g;
  }

  // ---- compaction

  /** Both loops of the compaction; the marks are counted, and kept. */
  method CompactMarks(SA: array<int>, n: nat, m: nat) returns (name: nat)
    requires n <= SA.Length && m == |Flagged(SA[..n])| && 0 < m < n
    requires forall r :: 0 <= r < n ==> SA[r] <= 0
    modifies SA
    ensures SA[..m] == Flagged(old(SA[..n])) && name == Marks(Flagged(old(SA[..n])), n)
    ensures forall r :: m <= r < n ==> SA[r] == 0
    ensures SA[n..] == old(SA[n..])
  {
    hide Flagged, Marks;
    ghost var s, rest := SA[..n], SA[n..];
    var i := 0;
    name := 0;
    FlaggedPrefix(s, 0);
    NothingFlagged(s, n);
    while SA[i] < 0
      invariant i < n && i <= m && SA[..i] == Flagged(s[..i]) && name == Marks(Flagged(s[..i]), n)
      invariant forall r :: i <= r < n ==> SA[r] == s[r]
      invariant SA[n..] == rest
      decreases n - i
    {
      FlaggedStep(s, i);
      FlaggedPrefix(s, i + 1);
      var j := Not(SA[i]);
      MarksSnoc(Flagged(s[..i]), j, n);
      if n <= j { name := name + 1; }
      SA[i] := j;
      assert SA[..i + 1] == SA[..i] + [SA[i]];
      i := i + 1;
    }
    FlaggedPrefix(s, i);
    if i < m {
      FlaggedStep(s, i);
      name := GatherMarks(SA, n, m, i, name, s);
    }
  }

  lemma NothingFlagged(s: seq<int>, n: int)
    ensures s[..0] == [] && Flagged([]) == [] && Marks([], n) == 0
  {
  }

  /** The second loop, from the first slot that is not flagged. */
  method GatherMarks(SA: array<int>, n: nat, m: nat, start: nat, name0: nat, ghost s: seq<int>) returns (name: nat)
    requires n == |s| <= SA.Length && m == |Flagged(s)| && start < m < |s|
    requires forall r :: 0 <= r < |s| ==> s[r] <= 0
    requires Gathered(SA[..], s, start, start + 1) && name0 == Marks(Flagged(s[..start + 1]), n)
    modifies SA
    ensures SA[..m] == Flagged(s) && name == Marks(Flagged(s), n)
    ensures forall r :: m <= r < |s| ==> SA[r] == 0
    ensures SA[|s|..] == old(SA[|s|..])
  {
    hide Flagged, Gathered, Marks;
    ghost var cells := SA[..];
    name := name0;
    var d, i := start, start + 1;
    while true
      invariant 0 <= d < m && d < i <= |s|
      invariant SA[..] == cells && cells[|s|..] == old(SA[|s|..])
      invariant Gathered(cells, s, d, i) && name == Marks(Flagged(s[..i]), n)
      decreases |s| - i
    {
      GatherMore(cells, s, d, i);
      GatherNext(cells, s, d, i);
      GatherStep(cells, s, d, i);
      FlaggedStep(s, i);
      assert s[i] >= 0 ==> Flagged(s[..i + 1]) == Flagged(s[..i]);
      var j := SA[i];
      if j < 0 {
        j := Not(j);
        MarksSnoc(Flagged(s[..i]), j, n);
        if n <= j { name := name + 1; }
        SA[d] := j;
        d := d + 1;
        SA[i] := 0;
        cells := cells[d - 1 := Not(s[i])][i := 0];
        if d == m { break; }
      }
      i := i + 1;
    }
    GatherMore(cells, s, d, i + 1);
    GatheredLength(cells, s, d, i + 1);
    FlaggedPrefix(s, i + 1);
  }

  lemma GatheredLength(cells: seq<int>, s: seq<int>, d: int, i: int)
    requires Gathered(cells, s, d, i)
    ensures 0 <= i <= |s| && |Flagged(s[..i])| == d
  {
  }

  // ---- what the marks mean

  ghost function AllOn(s: seq<int>): (on: seq<bool>)
    ensures |on| == |s|
  {
    seq(|s|, a => true)
  }

  ghost function LabelsOf(T: Text, s: seq<int>): (lab: seq<Label>)
    ensures |lab| == |s|
  {
    seq(|s|, a requires 0 <= a < |s| => if 0 <= s[a] < |T| then LabelOf(T, s[a]) else [])
  }

  /** The sorted list, with a mark on the last position of every class. */
  ghost predicate MarkedList(T: Text, s: seq<int>, g: seq<int>) {
    && |g| == |s| && (forall a :: 0 <= a < |s| ==> 0 <= s[a] < |T|)
    && forall a :: 0 <= a < |s| ==> g[a] == s[a] + if Last(AllOn(s), LabelsOf(T, s), a) then |T| else 0
  }

  /** The flagged entries, with and without marks. */
  ghost predicate SlotMarks(T: Text, P: Plan, s: seq<int>, g: seq<int>, i: int)
    requires Shape(T, P)
  {
    && |g| == |s|
    && forall a :: 0 <= a < |s| ==>
         && P.lo <= s[a] < |T| && IsLms(T, s[a]) && 0 <= P.w[s[a]] < i <= |T|
         && g[a] == s[a] + if FlagS(T, P, P.w[s[a]]) then |T| else 0
  }

  lemma {:induction false} FlaggedMarks(T: Text, seed: seq<int>, P: Plan, cells: seq<int>, SA: seq<int>, i: nat)
    requires LmsMarked(T, seed, P, cells, SA) && i <= |T|
    ensures Shape(T, P) && |cells| == |SA| >= |T| && SlotMarks(T, P, Flagged(cells[..i]), Flagged(SA[..i]), i)
  {
    hide FlagS, IsS, LPlan, SPlan, SlotsFollow, SeedsOk;
    MarkedParts(T, seed, P, cells, SA);
    if i > 0 {
      FlaggedMarks(T, seed, P, cells, SA, i - 1);
      FlaggedStep(cells, i - 1);
      FlaggedStep(SA, i - 1);
      MarkedSlot(T, seed, P, cells, SA, i - 1);
      SlotMarksStep(T, P, Flagged(cells[..i - 1]), Flagged(SA[..i - 1]), i - 1, Not(cells[i - 1]), Not(SA[i - 1]));
    }
  }

  lemma MarkedParts(T: Text, seed: seq<int>, P: Plan, cells: seq<int>, SA: seq<int>)
    requires LmsMarked(T, seed, P, cells, SA)
    ensures Shape(T, P) && |cells| == |SA| >= |T| && SPlan(T, P) && FromLms(T, P) && LmsLeft(T, P, cells) && SeededPlan(T, seed, P)
    ensures |seed| == |T| && SlotsFollow(T, seed, P) && SeedsOk(T, P.lo, seed)
  {
    hide IsS, LPlan, SPlan, SlotsFollow, SeedsOk;
  }

  lemma MarkedSlot(T: Text, seed: seq<int>, P: Plan, cells: seq<int>, SA: seq<int>, r: nat)
    requires LmsMarked(T, seed, P, cells, SA) && r < |T| && Shape(T, P) && |cells| == |SA| >= |T|
    ensures (SA[r] < 0 <==> cells[r] < 0) && cells[r] <= 0
    ensures cells[r] < 0 ==>
      var p := Not(cells[r]);
      P.lo <= p < |T| && IsLms(T, p) && P.w[p] == r && Not(SA[r]) == p + if FlagS(T, P, r) then |T| else 0
  {
    hide FlagS, IsS, LPlan, SContiguous, SOrdered, SlotsFollow, SeedsOk;
  }

  lemma SlotMarksStep(T: Text, P: Plan, s: seq<int>, g: seq<int>, i: nat, p: int, v: int)
    requires Shape(T, P) && i < |T| && SlotMarks(T, P, s, g, i)
    ensures SlotMarks(T, P, s, g, i + 1)
    ensures P.lo <= p < |T| && IsLms(T, p) && P.w[p] == i && v == (p + if FlagS(T, P, i) then |T| else 0) ==>
      SlotMarks(T, P, s + [p], g + [v], i + 1)
  {
    hide FlagS, IsS, IsLms;
  }

  /** A list of LMS positions in slot order. */
  lemma ListOrder(T: Text, seed: seq<int>, P: Plan, s: seq<int>, a: int, b: int)
    requires |seed| == |T| && SPlan(T, P) && SlotsFollow(T, seed, P) && SortedLms(T, seed, s)
    requires 0 <= a < |s| && 0 <= b < |s| && a != b && P.lo <= s[a] && P.lo <= s[b]
    ensures 0 <= s[a] < |T| && 0 <= s[b] < |T| && (P.w[s[a]] < P.w[s[b]] <==> a < b)
  {
    hide IsS, IsLms, Before, SContiguous, SOrdered;
    assert P.inv[P.w[s[a]]] == s[a] && P.inv[P.w[s[b]]] == s[b];
  }

  /** A mark says that no later position of the list has the same substring. */
  lemma MarkMeans(T: Text, seed: seq<int>, P: Plan, s: seq<int>, a: int)
    requires SeededPlan(T, seed, P) && SortedLms(T, seed, s) && 0 <= a < |s| && forall x :: 0 <= x < |s| ==> P.lo <= s[x]
    ensures 0 <= s[a] < |T| && Shape(T, P) && 0 <= P.w[s[a]] < |T|
    ensures FlagS(T, P, P.w[s[a]]) <==> Last(AllOn(s), LabelsOf(T, s), a)
  {
    hide SeededPlan, LPlan, SPlan, FromLms, SlotsFollow, IsS, SortedLms, LabelOf, KeptS, ReadS;
    PlanParts(T, seed, P);
    FollowParts(T, seed, P);
    ListedLms(T, seed, s);
    var p := s[a];
    KeptOfLms(T, P, p);
    forall c | P.w[p] < c < |T| && KeepsS(T, P)[c] && LabelsS(T, P)[c] == LabelsS(T, P)[P.w[p]]
      ensures !Last(AllOn(s), LabelsOf(T, s), a)
    {
      SlotReadS(T, P, c);
      LmsOfKept(T, P.inv[c]);
      var b :| 0 <= b < |s| && s[b] == P.inv[c];
      ListOrder(T, seed, P, s, a, b);
      assert AllOn(s)[b] && LabelsOf(T, s)[b] == LabelsOf(T, s)[a];
    }
    forall b | a < b < |s| && LabelsOf(T, s)[b] == LabelsOf(T, s)[a] ensures !FlagS(T, P, P.w[p]) {
      ListOrder(T, seed, P, s, a, b);
      KeptOfLms(T, P, s[b]);
    }
  }

  lemma FollowParts(T: Text, seed: seq<int>, P: Plan)
    requires SeededPlan(T, seed, P)
    ensures SlotsFollow(T, seed, P)
  {
  }

  lemma ListedLms(T: Text, seed: seq<int>, s: seq<int>)
    requires |seed| == |T| && SortedLms(T, seed, s)
    ensures forall a :: 0 <= a < |s| ==> 0 <= s[a] < |T| && IsLms(T, s[a])
    ensures forall p :: 0 <= p < |T| && IsLms(T, p) ==> p in s
  {
  }

  lemma KeptOfLms(T: Text, P: Plan, p: int)
    requires SPlan(T, P) && P.lo <= p < |T| && IsLms(T, p) && 0 <= p
    ensures 0 <= P.w[p] < |T| && KeepsS(T, P)[P.w[p]] && !ReadsS(T, P)[P.w[p]] && LabelsS(T, P)[P.w[p]] == LabelOf(T, p)
  {
    hide SContiguous, SOrdered, LabelOf;
    LeftNeighbour(T, p);
  }

  lemma LmsOfKept(T: Text, z: int)
    ensures KeptS(T, z) != 0 ==> 0 < z < |T| && IsLms(T, z)
  {
  }

  /** The compacted entries are the sorted list, marked. */
  lemma CompactedMarks(T: Text, seed: seq<int>, P: Plan, cells: seq<int>, SA: seq<int>)
    requires LmsMarked(T, seed, P, cells, SA) && forall p :: 0 <= p < |T| && IsLms(T, p) ==> P.lo <= p
    ensures |cells| == |SA| >= |T| && MarkedList(T, Flagged(cells[..|T|]), Flagged(SA[..|T|]))
    ensures |seed| == |T| && SortedLms(T, seed, Flagged(cells[..|T|]))
    ensures forall r :: 0 <= r < |T| ==> SA[r] <= 0
  {
    hide LmsMarked, SeededPlan, LPlan, SPlan, FromLms, SlotsFollow, SeedsOk, IsS, IsLms, SortedLms, FlagS, LmsLeft, Flagged, LabelsOf, Last;
    MarkedParts(T, seed, P, cells, SA);
    FlaggedMarks(T, seed, P, cells, SA, |T|);
    FlaggedAreSorted(T, seed, P, cells);
    var s, g := Flagged(cells[..|T|]), Flagged(SA[..|T|]);
    forall a | 0 <= a < |s| ensures g[a] == s[a] + if Last(AllOn(s), LabelsOf(T, s), a) then |T| else 0 {
      MarkMeans(T, seed, P, s, a);
    }
    forall r | 0 <= r < |T| ensures SA[r] <= 0 { NotPositive(T, seed, P, cells, SA, r); }
  }

  lemma NotPositive(T: Text, seed: seq<int>, P: Plan, cells: seq<int>, SA: seq<int>, r: nat)
    requires LmsMarked(T, seed, P, cells, SA) && r < |T|
    ensures |SA| >= |T| && SA[r] <= 0
  {
    hide FlagS, IsS, LPlan, SPlan, SlotsFollow, SeedsOk;
  }

  // ---- names

  /** Equal substrings are neighbours in the sorted list. */
  lemma ListContiguous(T: Text, lo: nat, seed: seq<int>, s: seq<int>)
    requires SortedFrom(T, lo, seed, s)
    ensures Contiguous(AllOn(s), LabelsOf(T, s))
  {
    hide IsS, IsLms, Before, SeedsOk, SameSub, LabelOf;
    var on, lab := AllOn(s), LabelsOf(T, s);
    forall a, b, c | 0 <= a < b < c < |on| && on[a] && on[b] && on[c] && lab[a] == lab[c] ensures lab[b] == lab[a] {
      SameLabel(T, s[a], s[c]);
      SameSubConvex(T, lo, seed, s[a], s[b], s[c]);
      SameLabel(T, s[a], s[b]);
    }
  }

  /** The name of the position at x in the list: how many classes there are up to its own. */
  ghost function NameAt(T: Text, s: seq<int>, x: int): int
    requires 0 <= x <= |s|
  {
    Lasts(AllOn(s), LabelsOf(T, s), 0) + 1 - Lasts(AllOn(s), LabelsOf(T, s), x)
  }

  ghost function NameList(T: Text, s: seq<int>): (nm: seq<int>)
    ensures |nm| == |s|
  {
    seq(|s|, x requires 0 <= x < |s| => NameAt(T, s, x))
  }

  lemma {:induction false} LastsRange(on: seq<bool>, lab: seq<Label>, i: int)
    requires 0 <= i <= |on| == |lab|
    ensures Lasts(on, lab, i) <= |on| - i && Lasts(on, lab, 0) <= i + Lasts(on, lab, i)
    decreases |on| - i
  {
    hide Last;
    if i < |on| { LastsRange(on, lab, i + 1); }
    LastsFromStart(on, lab, i);
  }

  lemma {:induction false} LastsFromStart(on: seq<bool>, lab: seq<Label>, i: int)
    requires 0 <= i <= |on| == |lab|
    ensures Lasts(on, lab, 0) <= i + Lasts(on, lab, i)
    decreases i
  {
    hide Last;
    if i > 0 { LastsFromStart(on, lab, i - 1); }
  }

  lemma NamesTell(T: Text, lo: nat, seed: seq<int>, s: seq<int>, x: int, y: int)
    requires SortedFrom(T, lo, seed, s) && 0 <= x < y < |s|
    ensures 0 <= s[x] < |T| && 0 <= s[y] < |T|
    ensures 1 <= NameAt(T, s, x) <= NameAt(T, s, y) <= NameAt(T, s, |s|) - 1
    ensures NameAt(T, s, x) == NameAt(T, s, y) <==> SameSub(T, s[x], s[y])
    ensures NameAt(T, s, |s|) - 1 == |s| ==> NameAt(T, s, x) < NameAt(T, s, y)
  {
    ListContiguous(T, lo, seed, s);
    hide IsS, IsLms, Before, SeedsOk, SameSub, LabelOf, Contiguous, Last;
    var on, lab := AllOn(s), LabelsOf(T, s);
    LastsTell(on, lab, x, y);
    LastsGrow(on, lab, 0, x);
    LastsRange(on, lab, x);
    LastsRange(on, lab, y);
    SameLabel(T, s[x], s[y]);
  }

  lemma NameRange(T: Text, lo: nat, seed: seq<int>, s: seq<int>, x: int)
    requires SortedFrom(T, lo, seed, s) && 0 <= x < |s|
    ensures 0 <= s[x] < |T| && 1 <= NameAt(T, s, x) <= NameAt(T, s, |s|) - 1 <= |s|
  {
    ListContiguous(T, lo, seed, s);
    hide IsS, IsLms, Before, SeedsOk, LabelOf, Contiguous, Last;
    var on, lab := AllOn(s), LabelsOf(T, s);
    LastsTell(on, lab, x, x);
    LastsGrow(on, lab, 0, x);
    LastsRange(on, lab, 0);
  }

  /** The names counted from the marks are good: ordered, equal exactly for equal substrings. */
  lemma NamesFromMarks(T: Text, lo: nat, seed: seq<int>, s: seq<int>)
    requires SortedFrom(T, lo, seed, s) && s != []
    ensures GoodNames(T, s, NameList(T, s), NameAt(T, s, |s|) - 1)
  {
    hide SortedFrom, NameAt, SameSub;
    var nm, name := NameList(T, s), NameAt(T, s, |s|) - 1;
    NameRange(T, lo, seed, s, 0);
    forall x | 0 <= x < |s| ensures 0 <= s[x] < |T| && 1 <= nm[x] <= name { NameRange(T, lo, seed, s, x); }
    forall x, y | 0 <= x < y < |nm|
      ensures nm[x] <= nm[y] && (nm[x] == nm[y] <==> SameSub(T, s[x], s[y])) && (name == |nm| ==> nm[x] < nm[y])
    {
      NamesTell(T, lo, seed, s, x, y);
    }
  }

  lemma {:induction false} MarksSoFar(T: Text, s: seq<int>, g: seq<int>, i: nat)
    requires MarkedList(T, s, g) && i <= |s|
    ensures Marks(g[..i], |T|) + Lasts(AllOn(s), LabelsOf(T, s), i) == Lasts(AllOn(s), LabelsOf(T, s), 0)
  {
    hide Last, LabelsOf;
    if i > 0 {
      MarksSoFar(T, s, g, i - 1);
      assert g[..i] == g[..i - 1] + [g[i - 1]];
      MarksSnoc(g[..i - 1], g[i - 1], |T|);
    }
  }

  /** The number of marks is the number of names. */
  lemma MarksCount(T: Text, s: seq<int>, g: seq<int>)
    requires MarkedList(T, s, g)
    ensures |g| == |s| && Marks(g, |T|) == NameAt(T, s, |s|) - 1
  {
    MarksSoFar(T, s, g, |s|);
    assert g[..|s|] == g;
  }

  /** The names of the positions from i on are stored. */
  ghost predicate NamesDown(T: Text, s: seq<int>, F: seq<int>, before: seq<int>, cells: seq<int>, m: nat, i: int) {
    && |s| == m && |F| == |T| && Area(T, cells, m, F) && OutsideKept(before, cells, m, |T|)
    && (forall x :: 0 <= x < |s| ==> 0 <= s[x] < |T|)
    && forall x :: 0 <= i <= x < |s| ==> F[s[x]] == NameAt(T, s, x)
  }

  lemma NamesDownStart(T: Text, lo: nat, seed: seq<int>, s: seq<int>, F: seq<int>, cells: seq<int>, m: nat)
    requires SortedFrom(T, lo, seed, s) && |s| == m && |F| == |T| && Area(T, cells, m, F) && OutsideKept(cells, cells, m, |T|)
    ensures NamesDown(T, s, F, cells, cells, m, m)
  {
  }

  lemma NamesDownStep(T: Text, lo: nat, seed: seq<int>, s: seq<int>, F: seq<int>, before: seq<int>, cells: seq<int>, m: nat, i: nat)
    requires SortedFrom(T, lo, seed, s) && NamesDown(T, s, F, before, cells, m, i + 1) && i < m && 2 * m <= |T|
    ensures 0 <= s[i] < |T| && m + s[i] / 2 < |T| <= |cells| && |F| == |T|
    ensures NamesDown(T, s, F[s[i] := NameAt(T, s, i)], before, cells[m + s[i] / 2 := NameAt(T, s, i)], m, i)
  {
    hide IsS, IsLms, Before, SeedsOk, NameAt, Area, OutsideKept;
    AreaWrite(T, cells, m, F, s[i], NameAt(T, s, i));
    OutsideKeptSize(before, cells, m, |T|);
    OutsideWrite(before, cells, m, |T|, m + s[i] / 2, NameAt(T, s, i));
  }

  lemma OutsideKeptSize(before: seq<int>, cells: seq<int>, m: nat, n: nat)
    requires OutsideKept(before, cells, m, n)
    ensures m <= n <= |cells| == |before|
  {
  }

  lemma MarkStep(T: Text, s: seq<int>, g: seq<int>, i: nat)
    requires MarkedList(T, s, g) && i < |s|
    ensures |g| == |s| && g[i] >= 0 && s[i] == (if g[i] >= |T| then g[i] - |T| else g[i])
    ensures NameAt(T, s, i) == NameAt(T, s, i + 1) - if g[i] >= |T| then 1 else 0
  {
    hide LabelsOf, Last;
  }

  /** Store the names, from the right. */
  method StoreNames(T: Text, SA: array<int>, m: nat, name: int, ghost lo: nat, ghost seed: seq<int>, ghost s: seq<int>, ghost g: seq<int>)
    returns (ghost F: seq<int>)
    requires 0 < |T| <= SA.Length && 2 * m <= |T| && |s| == m && SA[..m] == g
    requires SortedFrom(T, lo, seed, s) && MarkedList(T, s, g) && name == NameAt(T, s, m) - 1
    requires forall r :: m <= r < |T| ==> SA[r] == 0
    modifies SA
    ensures NamesDown(T, s, F, old(SA[..]), SA[..], m, 0)
  {
    hide SortedFrom, MarkedList, NameAt, NamesDown, Area, OutsideKept, IsS;
    ghost var before := SA[..];
    F := EmptyArea(T, SA[..], m);
    NamesDownStart(T, lo, seed, s, F, before, m);
    var i: int := m - 1;
    var d := name + 1;
    while 0 <= i
      invariant -1 <= i < m && d == NameAt(T, s, i + 1) && NamesDown(T, s, F, before, SA[..], m, i + 1)
    {
      ghost var cells := SA[..];
      NamesDownStep(T, lo, seed, s, F, before, cells, m, i);
      MarkStep(T, s, g, i);
      FrontKept(T, s, F, before, cells, m, i + 1, i);
      var j := SA[i];
      if |T| <= j {
        j := j - |T|;
        d := d - 1;
      }
      SA[m + j / 2] := d;
      F := F[s[i] := NameAt(T, s, i)];
      i := i - 1;
    }
  }

  lemma FrontKept(T: Text, s: seq<int>, F: seq<int>, before: seq<int>, cells: seq<int>, m: nat, k: int, i: nat)
    requires NamesDown(T, s, F, before, cells, m, k) && i < m <= |before|
    ensures i < |cells| && cells[i] == before[..m][i]
  {
    assert before[..m][i] == cells[..m][i];
  }

  lemma NamesDownDone(T: Text, s: seq<int>, F: seq<int>, before: seq<int>, cells: seq<int>, m: nat)
    requires NamesDown(T, s, F, before, cells, m, 0)
    ensures PartlyNamed(T, s, NameList(T, s), F) && |F| == |T| && Area(T, cells, m, F) && OutsideKept(before, cells, m, |T|)
  {
    hide NameAt;
  }

  /** Remove the marks. */
  method UnsetMarks(T: Text, SA: array<int>, m: nat, ghost s: seq<int>, ghost g: seq<int>)
    requires m <= SA.Length && SA[..m] == g && |s| == m && MarkedList(T, s, g)
    modifies SA
    ensures SA[..m] == s && SA[m..] == old(SA[m..])
  {
    hide MarkedList, NameAt;
    ghost var rest := SA[m..];
    for i := 0 to m
      invariant SA[..i] == s[..i] && SA[m..] == rest
      invariant forall x :: i <= x < m ==> SA[x] == g[x]
    {
      MarkStep(T, s, g, i);
      var j := SA[i];
      if |T| <= j {
        j := j - |T|;
        SA[i] := j;
      }
      assert SA[..i + 1] == SA[..i] + [s[i]] && s[..i + 1] == s[..i] + [s[i]];
    }
    assert s[..m] == s;
  }
}
