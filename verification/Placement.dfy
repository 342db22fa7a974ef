/** Stage 3 of sais_main, up to the induction: move the sorted LMS positions from the
    front of the array to the ends of their buckets, and clear every other slot. */
module Placement {
  import opened Suffixes
  import opened Ranking
  import opened Buckets
  import opened InducedOrder
  import opened InducedSlots
  import opened Seeding

  /** s lists the LMS positions of T, each once, in suffix order. */
  ghost predicate LmsInOrder(T: Text, s: seq<int>) {
    && (forall a :: 0 <= a < |s| ==> 0 <= s[a] < |T| && IsLms(T, s[a]))
    && (forall p :: 0 <= p < |T| && IsLms(T, p) ==> p in s)
    && (forall a, b :: 0 <= a < b < |s| ==> Less(T, s[a], s[b]))
  }

  /** The list s[i + 1..] is placed, in slots from j on; the rest is still in front. */
  ghost predicate Placed(T: Text, s: seq<int>, seed: seq<int>, cells: seq<int>, i: int, j: int) {
    && |seed| == |T| <= |cells| && -1 <= i < |s| && i < j <= |T|
    && (forall a :: 0 <= a <= i ==> cells[a] == s[a])
    && (forall a :: i < a < |s| ==> 0 <= s[a] < |T| && j <= seed[s[a]] < |T| && cells[seed[s[a]]] == s[a])
    && (forall a, b :: i < a < b < |s| ==> seed[s[a]] < seed[s[b]])
    && (forall r :: j <= r < |T| && cells[r] != 0 ==> IsSeed(T, 0, cells[r]) && seed[cells[r]] == r && cells[r] in s[i + 1..])
  }

  /** The slots given so far obey the bounds of their buckets. */
  ghost predicate InBuckets(T: Text, s: seq<int>, seed: seq<int>, i: int) {
    && |seed| == |T| && -1 <= i < |s|
    && (forall a :: i < a < |s| ==> 0 <= s[a] < |T|)
    && (forall a :: i < a < |s| ==>
          Start(T, T[s[a]] + 1) - |SeedsOf(T, 0, T[s[a]])| <= seed[s[a]] < Start(T, T[s[a]] + 1))
  }

  lemma OrderedDistinct(T: Text, s: seq<int>, a: nat, b: nat)
    requires LmsInOrder(T, s) && a < b < |s|
    ensures 0 <= s[a] < |T| && 0 <= s[b] < |T| && s[a] != s[b] && T[s[a]] <= T[s[b]]
  {
    LessIrreflexive(T, s[a]);
  }

  /** Everything up to entry i fits below the end of that entry's bucket. */
  lemma FrontFits(T: Text, s: seq<int>, i: nat)
    requires LmsInOrder(T, s) && i < |s|
    ensures i + 1 <= Start(T, T[s[i]] + 1) <= |T|
  {
    hide IsS, IsLms, Less;
    var X := CharsBelow(T, T[s[i]] + 1);
    var f := s[..i + 1];
    forall a | 0 <= a < |f| ensures f[a] in X {
      if a < i { OrderedDistinct(T, s, a, i); }
    }
    forall a, b | 0 <= a < b < |f| ensures f[a] != f[b] {
      OrderedDistinct(T, s, a, b);
    }
    DistinctInSet(f, X);
    StartAtMost(T, T[s[i]] + 1);
  }

  /** A run of entries with one character is no longer than the number of its seeds. */
  lemma RunFits(T: Text, s: seq<int>, i: nat, e: nat, c: int)
    requires LmsInOrder(T, s) && i <= e <= |s|
    requires forall a :: i <= a < e ==> 0 <= s[a] < |T| && T[s[a]] == c
    ensures e - i <= |SeedsOf(T, 0, c)|
  {
    var f := s[i..e];
    forall a | 0 <= a < |f| ensures f[a] in SeedsOf(T, 0, c) {
      EntryIsSeed(T, s, i + a);
    }
    forall a, b | 0 <= a < b < |f| ensures f[a] != f[b] {
      OrderedDistinct(T, s, i + a, i + b);
    }
    DistinctInSet(f, SeedsOf(T, 0, c));
  }

  /** One entry is placed below those placed before. */
  lemma PlaceStep(T: Text, s: seq<int>, seed: seq<int>, cells: seq<int>, i: nat, j: nat)
    requires Placed(T, s, seed, cells, i, j) && LmsInOrder(T, s) && i < j
    ensures 0 <= s[i] < |T|
    ensures Placed(T, s, seed[s[i] := j - 1], cells[j - 1 := s[i]], i - 1, j - 1)
  {
    hide IsS, Less, LmsInOrder;
    forall a | i < a < |s| ensures 0 <= s[i] < |T| && s[a] != s[i] { OrderedDistinct(T, s, i, a); }
    EntryIsSeed(T, s, i);
    var seed', cells' := seed[s[i] := j - 1], cells[j - 1 := s[i]];
    assert s[i..] == [s[i]] + s[i + 1..];
    forall r | j - 1 <= r < |T| && cells'[r] != 0
      ensures IsSeed(T, 0, cells'[r]) && seed'[cells'[r]] == r && cells'[r] in s[i..]
    {
      if r >= j {
        var a :| 0 <= a < |s[i + 1..]| && s[i + 1..][a] == cells[r];
        assert s[i + 1 + a] == cells[r];
      } else {
        assert s[i..][0] == s[i];
      }
    }
  }

  lemma EntryIsSeed(T: Text, s: seq<int>, i: nat)
    requires LmsInOrder(T, s) && i < |s|
    ensures IsSeed(T, 0, s[i])
  {
  }

  /** The slot of the next entry of a run is in its bucket, above the unread entries. */
  lemma RunSlot(T: Text, s: seq<int>, seed: seq<int>, i: nat, e: nat, c: int, j: int)
    requires LmsInOrder(T, s) && InBuckets(T, s, seed, i) && i < e <= |s|
    requires forall a :: i <= a < e ==> 0 <= s[a] < |T| && T[s[a]] == c
    requires j == Start(T, c + 1) - (e - 1 - i)
    ensures i < j && Start(T, c) <= j - 1 && 0 <= s[i] < |T|
    ensures InBuckets(T, s, seed[s[i] := j - 1], i - 1)
  {
    hide IsS, IsLms, Less, LmsInOrder, Start, SeedsOf;
    FrontFits(T, s, e - 1);
    RunFits(T, s, i, e, c);
    BucketRoom(T, 0, c);
    forall a | i < a < |s| ensures s[a] != s[i] { OrderedDistinct(T, s, i, a); }
  }

  lemma OneCharacter(T: Text, s: seq<int>, i: nat)
    requires LmsInOrder(T, s) && i < |s|
    ensures 0 <= s[i] < |T|
  {
  }

  lemma FrontEntry(T: Text, s: seq<int>, seed: seq<int>, cells: seq<int>, i: nat, j: int)
    requires Placed(T, s, seed, cells, i, j)
    ensures i < |s| && i < j <= |T| && |seed| == |T| <= |cells| && cells[i] == s[i]
  {
  }

  /** The inner loop: place the entries that share the character of entry start. */
  method PlaceRun(T: Text, SA: array<int>, start: nat, from: nat, ghost s: seq<int>, ghost seed0: seq<int>)
    returns (i: int, j: int, ghost seed: seq<int>)
    requires LmsInOrder(T, s) && InBuckets(T, s, seed0, start)
    requires Placed(T, s, seed0, SA[..], start, from)
    requires 0 <= s[start] < |T| && from == Start(T, T[s[start]] + 1)
    modifies SA
    ensures -1 <= i < start && InBuckets(T, s, seed, i) && Placed(T, s, seed, SA[..], i, j)
    ensures i >= 0 ==> 0 <= s[i] < |T| && Start(T, T[s[i]] + 1) <= j
    ensures SA[|T|..] == old(SA[|T|..])
  {
    hide IsS, IsLms, Less, LmsInOrder, Start, SeedsOf, InBuckets, Placed;
    FrontEntry(T, s, seed0, SA[..], start, from);
    ghost var cells, e, rest := SA[..], start + 1, SA[|T|..];
    var c := T[SA[start]];
    i, j, seed := start, from, seed0;
    while 0 <= i && T[SA[i]] == c
      invariant -1 <= i < e <= |s| && SA[..] == cells && cells[|T|..] == rest
      invariant InBuckets(T, s, seed, i) && Placed(T, s, seed, cells, i, j)
      invariant forall a :: i < a < e ==> 0 <= s[a] < |T| && T[s[a]] == c
      invariant 0 <= i ==> 0 <= s[i] < |T| && SA[i] == s[i]
      invariant j == Start(T, c + 1) - (e - 1 - i)
      invariant i < start ==> Start(T, c) <= j
    {
      RunSlot(T, s, seed, i, e, c, j);
      FrontEntry(T, s, seed, cells, i, j);
      PlaceStep(T, s, seed, cells, i, j);
      var p := SA[i];
      j := j - 1;
      SA[j] := p;
      cells, seed := cells[j := s[i]], seed[s[i] := j];
      i := i - 1;
      if 0 <= i {
        OneCharacter(T, s, i);
        FrontEntry(T, s, seed, cells, i, j);
      }
    }
    if 0 <= i {
      OrderedDistinct(T, s, i, start);
      StartMonotone(T, T[s[i]] + 1, c);
    }
  }

  /** Clearing the slots from q to j. */
  lemma FillKeeps(T: Text, s: seq<int>, seed: seq<int>, cells: seq<int>, cells': seq<int>, i: int, j: int, q: int)
    requires Placed(T, s, seed, cells, i, j) && i < q <= j && |cells'| == |cells|
    requires forall r :: 0 <= r < |cells| ==> cells'[r] == if q <= r < j then 0 else cells[r]
    ensures Placed(T, s, seed, cells', i, q)
  {
  }

  method ClearDown(SA: array<int>, q: nat, from: nat)
    requires q <= from <= SA.Length
    modifies SA
    ensures forall r :: 0 <= r < SA.Length ==> SA[r] == if q <= r < from then 0 else old(SA[r])
  {
    var j := from;
    while q < j
      invariant q <= j <= from
      invariant forall r :: 0 <= r < SA.Length ==> SA[r] == if j <= r < from then 0 else old(SA[r])
    {
      j := j - 1;
      SA[j] := 0;
    }
  }

  lemma PlacedStart(T: Text, s: seq<int>, seed: seq<int>, cells: seq<int>)
    requires LmsInOrder(T, s) && |seed| == |T| <= |cells| && 0 < |s| <= |T| && cells[..|s|] == s
    ensures Placed(T, s, seed, cells, |s| - 1, |T|) && InBuckets(T, s, seed, |s| - 1)
    ensures Start(T, T[s[|s| - 1]] + 1) <= |T|
  {
    StartAtMost(T, T[s[|s| - 1]] + 1);
    hide IsS, IsLms, Start;
    assert forall a :: 0 <= a < |s| ==> cells[..|s|][a] == cells[a];
  }

  /** The slots of seeds, once all are placed, order them as suffixes. */
  ghost predicate SeedsInOrder(T: Text, seed: seq<int>) {
    |seed| == |T| && forall p, q :: IsSeed(T, 0, p) && IsSeed(T, 0, q) && p != q ==> (seed[p] < seed[q] <==> Less(T, p, q))
  }

  lemma AllOrdered(T: Text, s: seq<int>, seed: seq<int>, cells: seq<int>, p: int, q: int)
    requires LmsInOrder(T, s) && Placed(T, s, seed, cells, -1, 0) && IsSeed(T, 0, p) && IsSeed(T, 0, q) && p != q
    ensures seed[p] != seed[q] && (seed[p] < seed[q] <==> Less(T, p, q))
  {
    hide IsS, Less, IsSeed;
    SeedsRange(T, 0);
    SeedIsEntry(T, s, p);
    SeedIsEntry(T, s, q);
    var a :| 0 <= a < |s| && s[a] == p;
    var b :| 0 <= b < |s| && s[b] == q;
    LessTotal(T, p, q);
  }

  lemma SeedIsEntry(T: Text, s: seq<int>, p: int)
    requires LmsInOrder(T, s) && IsSeed(T, 0, p)
    ensures p in s
  {
  }

  lemma SeedAt(T: Text, s: seq<int>, seed: seq<int>, cells: seq<int>, p: int)
    requires LmsInOrder(T, s) && Placed(T, s, seed, cells, -1, 0) && InBuckets(T, s, seed, -1) && IsSeed(T, 0, p)
    ensures 0 < p < |T| && 0 <= seed[p] < |T| && cells[seed[p]] == p
    ensures Start(T, T[p] + 1) - |SeedsOf(T, 0, T[p])| <= seed[p] < Start(T, T[p] + 1)
  {
    hide IsS, IsLms, Less, Start, SeedsOf, IsSeed, LmsInOrder;
    SeedsRange(T, 0);
    SeedIsEntry(T, s, p);
    var a :| 0 <= a < |s| && s[a] == p;
  }

  lemma PlacedSeedsOk(T: Text, s: seq<int>, seed: seq<int>, cells: seq<int>)
    requires LmsInOrder(T, s) && Placed(T, s, seed, cells, -1, 0) && InBuckets(T, s, seed, -1)
    ensures SeedsOk(T, 0, seed) && SeedsInOrder(T, seed)
  {
    hide IsS, IsLms, Less, Start, SeedsOf, IsSeed, LmsInOrder, Placed, InBuckets;
    PlacedBounds(T, s, seed, cells, -1, 0);
    SeedsRange(T, 0);
    forall p | IsSeed(T, 0, p)
      ensures Start(T, T[p] + 1) - |SeedsOf(T, 0, T[p])| <= seed[p] < Start(T, T[p] + 1)
    {
      SeedAt(T, s, seed, cells, p);
    }
    forall p, q | IsSeed(T, 0, p) && IsSeed(T, 0, q) && p != q
      ensures seed[p] != seed[q] && (seed[p] < seed[q] <==> Less(T, p, q))
    {
      AllOrdered(T, s, seed, cells, p, q);
    }
  }

  lemma PlacedSeeded(T: Text, s: seq<int>, seed: seq<int>, cells: seq<int>)
    requires LmsInOrder(T, s) && Placed(T, s, seed, cells, -1, 0) && InBuckets(T, s, seed, -1)
    ensures Seeded(T, 0, seed, cells, 0)
  {
    forall p | IsSeed(T, 0, p)
      ensures 0 <= seed[p] < |T| && cells[seed[p]] == p
    {
      SeedAt(T, s, seed, cells, p);
    }
  }

  /** Put all left-most S characters into their buckets. */
  method PlaceSorted(T: Text, SA: array<int>, B: array<int>, m: nat, ghost s: seq<int>) returns (ghost seed: seq<int>)
    requires 0 < m <= |T| <= SA.Length && SA != B && SA[..m] == s && LmsInOrder(T, s)
    requires Alphabet(T, B.Length) && Ends(T, B[..], B.Length)
    modifies SA
    ensures SeedsOk(T, 0, seed) && Seeded(T, 0, seed, SA[..], 0) && SeedsInOrder(T, seed)
    ensures SA[|T|..] == old(SA[|T|..])
  {
    hide IsS, IsLms, Less, LmsInOrder, Start, SeedsOf, InBuckets, Placed, SeedsInOrder, SeedsOk, Seeded;
    ghost var rest := SA[|T|..];
    seed := seq(|T|, _ => 0);
    PlacedStart(T, s, seed, SA[..]);
    var i, j := m - 1, |T|;
    OneCharacter(T, s, i);
    while 0 <= i
      invariant -1 <= i < m
      invariant InBuckets(T, s, seed, i) && Placed(T, s, seed, SA[..], i, j)
      invariant i >= 0 ==> 0 <= s[i] < |T| && Start(T, T[s[i]] + 1) <= j
      invariant SA[|T|..] == rest
      decreases i
    {
      FrontEntry(T, s, seed, SA[..], i, j);
      FrontFits(T, s, i);
      var q := B[T[SA[i]]];
      ghost var cells := SA[..];
      ClearDown(SA, q, j);
      FillKeeps(T, s, seed, cells, SA[..], i, j, q);
      i, j, seed := PlaceRun(T, SA, i, q, s, seed);
    }
    PlacedBounds(T, s, seed, SA[..], i, j);
    ghost var cells := SA[..];
    ClearDown(SA, 0, j);
    FillKeeps(T, s, seed, cells, SA[..], i, j, 0);
    PlacedSeedsOk(T, s, seed, SA[..]);
    PlacedSeeded(T, s, seed, SA[..]);
  }

  lemma PlacedBounds(T: Text, s: seq<int>, seed: seq<int>, cells: seq<int>, i: int, j: int)
    requires Placed(T, s, seed, cells, i, j)
    ensures -1 <= i < j <= |T| == |seed| <= |cells|
  {
  }
}
