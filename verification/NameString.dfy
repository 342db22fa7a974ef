/** Stage 2 of sais_main, without the recursive call itself: the names are gathered, in
    text order, in the last slots of the same array; afterwards the LMS positions take
    their place there and the sorted list is read through them. */
module NameString {
  import opened Suffixes
  import opened LmsScan
  import opened LmsNames
  import opened Naming
  import opened Seeding

  /** The LMS positions leave room to their right: two text positions each. */
  lemma {:induction false} LmsSpread(T: Text, i: nat, a: nat)
    requires i <= |T| && a < |LmsFrom(T, i)|
    ensures LmsFrom(T, i)[a] + 2 * (|LmsFrom(T, i)| - a) <= |T|
    decreases |T| - i
  {
    if IsLms(T, i) {
      if a == 0 {
        LmsTailSpread(T, i);
      } else {
        LmsSpread(T, i + 1, a - 1);
      }
    } else {
      LmsSpread(T, i + 1, a);
    }
  }

  lemma LmsTailSpread(T: Text, i: nat)
    requires i < |T| && IsLms(T, i)
    ensures i + 2 * |LmsFrom(T, i)| <= |T|
  {
    LmsFromSparse(T, i);
  }

  /** The names at the upper end: from index j + 1 on, the list R of names is stored from
      slot base on; cells below bound are still those of the value area. */
  ghost predicate Gathering(T: Text, F: seq<int>, cells: seq<int>, m: nat, base: nat, i: int, j: int) {
    var lms := LmsFrom(T, 0);
    && |F| == |T| && |lms| == m && 2 * m <= |T| && |T| - m <= base && base + m <= |cells|
    && m - 1 <= i < m + |T| / 2 && -1 <= j < m
    && (forall a :: 0 <= a < m ==> lms[a] < |T|)
    && (forall d :: 0 <= d <= i - m ==> cells[m + d] == AreaCell(T, F, d))
    && (forall a :: 0 <= a <= j ==> lms[a] / 2 <= i - m)
    && (forall a :: j < a < m ==> lms[a] / 2 > i - m && cells[base + a] == F[lms[a]] - 1)
  }

  lemma GatherStart(T: Text, F: seq<int>, cells: seq<int>, m: nat, base: nat)
    requires |F| == |T| && Area(T, cells, m, F) && m == |LmsFrom(T, 0)| && |T| - m <= base && base + m <= |cells|
    ensures Gathering(T, F, cells, m, base, m + |T| / 2 - 1, m - 1)
  {
    LmsHalf(T);
    LmsFromElements(T, 0);
    hide IsS, AreaCell;
    var lms := LmsFrom(T, 0);
    forall a | 0 <= a < m ensures lms[a] / 2 <= |T| / 2 - 1 { LmsSpread(T, 0, a); }
  }

  /** The cell of an LMS position holds its name; an empty cell belongs to none. */
  lemma GatherCell(T: Text, F: seq<int>, cells: seq<int>, m: nat, base: nat, i: int, j: int)
    requires Gathering(T, F, cells, m, base, i, j) && m <= i
    requires forall p :: 0 <= p < |T| && IsLms(T, p) ==> F[p] > 0
    ensures cells[i] != 0 ==> j >= 0 && LmsFrom(T, 0)[j] / 2 == i - m && cells[i] == F[LmsFrom(T, 0)[j]]
    ensures cells[i] == 0 ==> j >= 0 ==> LmsFrom(T, 0)[j] / 2 < i - m
  {
    hide IsS;
    LmsFromElements(T, 0);
    var lms := LmsFrom(T, 0);
    var d := i - m;
    assert cells[i] == AreaCell(T, F, d);
    if cells[i] != 0 {
      var p := if 2 * d < |T| && IsLms(T, 2 * d) then 2 * d else 2 * d + 1;
      assert p in lms;
      var a :| 0 <= a < m && lms[a] == p;
      assert a <= j;
      if a < j { LmsApart(T, p, lms[j]); }
    } else if j >= 0 && lms[j] / 2 == d {
      CellOf(T, F, lms[j]);
    }
  }

  lemma GatherMove(T: Text, F: seq<int>, cells: seq<int>, m: nat, base: nat, i: int, j: int)
    requires Gathering(T, F, cells, m, base, i, j) && m <= i
    requires forall p :: 0 <= p < |T| && IsLms(T, p) ==> F[p] > 0
    ensures cells[i] != 0 ==> 0 <= j && i <= base + j && Gathering(T, F, cells[base + j := cells[i] - 1], m, base, i - 1, j - 1)
    ensures cells[i] == 0 ==> Gathering(T, F, cells, m, base, i - 1, j)
  {
    GatherCell(T, F, cells, m, base, i, j);
    LmsFromElements(T, 0);
    hide IsS, IsLms, AreaCell;
    var lms := LmsFrom(T, 0);
    if cells[i] != 0 {
      LmsSpread(T, 0, j);
      forall a | 0 <= a < j ensures lms[a] / 2 <= i - m - 1 {
        LmsApart(T, lms[a], lms[j]);
      }
    } else {
      forall a | 0 <= a <= j ensures lms[a] / 2 <= i - m - 1 {
        assert lms[a] <= lms[j];
      }
    }
  }

  /** Collect the names at the upper end of the array, decremented to start from 0. */
  method GatherNames(T: Text, SA: array<int>, m: nat, base: nat, ghost F: seq<int>)
    requires |F| == |T| && Area(T, SA[..], m, F) && m == |LmsFrom(T, 0)| && 0 < m
    requires |T| - m <= base && base + m <= SA.Length
    requires forall p :: 0 <= p < |T| && IsLms(T, p) ==> F[p] > 0
    modifies SA
    ensures forall a :: 0 <= a < m ==> LmsFrom(T, 0)[a] < |T| && SA[base + a] == F[LmsFrom(T, 0)[a]] - 1
    ensures SA[base + m..] == old(SA[base + m..])
  {
    hide Area, Gathering, IsS, IsLms;
    GatherStart(T, F, SA[..], m, base);
    var i, j := m + |T| / 2 - 1, m - 1;
    ghost var rest := SA[base + m..];
    while m <= i
      invariant Gathering(T, F, SA[..], m, base, i, j)
      invariant SA[base + m..] == rest
      decreases i
    {
      GatherBounds(T, F, SA[..], m, base, i, j);
      GatherMove(T, F, SA[..], m, base, i, j);
      ghost var cells := SA[..];
      if SA[i] != 0 {
        SA[base + j] := SA[i] - 1;
        assert SA[..] == cells[base + j := cells[i] - 1];
        j := j - 1;
      }
      i := i - 1;
    }
    GatherDone(T, F, SA[..], m, base, i, j);
  }

  lemma GatherBounds(T: Text, F: seq<int>, cells: seq<int>, m: nat, base: nat, i: int, j: int)
    requires Gathering(T, F, cells, m, base, i, j)
    ensures i < |cells| && m - 1 <= i && -1 <= j < m && base + m <= |cells|
  {
  }

  lemma GatherDone(T: Text, F: seq<int>, cells: seq<int>, m: nat, base: nat, i: int, j: int)
    requires Gathering(T, F, cells, m, base, i, j) && i < m
    ensures |LmsFrom(T, 0)| == m && |F| == |T| && base + m <= |cells|
    ensures forall a :: 0 <= a < m ==> LmsFrom(T, 0)[a] < |T| && cells[base + a] == F[LmsFrom(T, 0)[a]] - 1
  {
    hide IsS, AreaCell;
  }

  /** The tail of the list of LMS positions, from last on, is stored from slot base on. */
  ghost predicate Refilled(T: Text, cells: seq<int>, m: nat, base: nat, last: nat, j: int) {
    && |LmsFrom(T, 0)| == m && last <= |T| && -1 <= j < m && base + m <= |cells|
    && LmsFrom(T, last) == LmsFrom(T, 0)[j + 1..]
    && forall a :: j < a < m ==> cells[base + a] == LmsFrom(T, 0)[a]
  }

  lemma RefillStart(T: Text, cells: seq<int>, m: nat, base: nat)
    requires |LmsFrom(T, 0)| == m && base + m <= |cells|
    ensures Refilled(T, cells, m, base, |T|, m - 1)
  {
  }

  lemma RefillStep(T: Text, cells: seq<int>, m: nat, base: nat, last: nat, j: int, p: nat)
    requires Refilled(T, cells, m, base, last, j) && Adjacent(T, p, last) && IsLms(T, p)
    ensures 0 <= j && base + j < |cells|
    ensures Refilled(T, cells[base + j := p], m, base, p, j - 1)
  {
    LmsFromNext(T, p, last);
    LmsSuffix(T, 0, p);
    hide IsS, IsLms, Adjacent;
    var l := LmsFrom(T, 0);
    assert l[|l| - |LmsFrom(T, p)|..] == LmsFrom(T, p);
    assert l[j + 1..] == LmsFrom(T, last);
    assert |l[j + 1..]| == |l| - (j + 1);
    assert l[j] == l[|l| - |LmsFrom(T, p)|..][0] == p;
    assert l[j..] == LmsFrom(T, p);
  }

  lemma {:induction false} LmsSuffix(T: Text, i: nat, p: nat)
    requires i <= p <= |T|
    ensures |LmsFrom(T, p)| <= |LmsFrom(T, i)|
    ensures LmsFrom(T, p) == LmsFrom(T, i)[|LmsFrom(T, i)| - |LmsFrom(T, p)|..]
    decreases p - i
  {
    hide LmsFrom, IsLms;
    if i < p {
      LmsSuffix(T, i + 1, p);
      LmsFromCons(T, i);
      ConsSuffix(if IsLms(T, i) then [i] else [], LmsFrom(T, i + 1), |LmsFrom(T, p)|);
    }
  }

  lemma LmsFromCons(T: Text, i: nat)
    requires i < |T|
    ensures LmsFrom(T, i) == (if IsLms(T, i) then [i] else []) + LmsFrom(T, i + 1)
  {
  }

  lemma ConsSuffix(a: seq<nat>, b: seq<nat>, n: nat)
    requires n <= |b|
    ensures (a + b)[|a + b| - n..] == b[|b| - n..]
  {
  }

  /** Put the LMS positions, in text order, where the name string was. */
  method RefillPositions(T: Text, SA: array<int>, m: nat, base: nat)
    requires 0 < |T| && m == |LmsFrom(T, 0)| && base + m <= SA.Length
    modifies SA
    ensures forall a :: 0 <= a < m ==> SA[base + a] == LmsFrom(T, 0)[a]
    ensures SA[..base] == old(SA[..base]) && SA[base + m..] == old(SA[base + m..])
  {
    hide Refilled, IsS, IsLms, ScanAt, Adjacent;
    ghost var front, rest := SA[..base], SA[base + m..];
    ghost var last: nat := |T|;
    RefillStart(T, SA[..], m, base);
    var j := m - 1;
    LastPositionIsL(T);
    var i := SkipL(T, |T| - 1);
    ScanFirst(T, i);
    while 0 <= i
      invariant ScanAt(T, i, last) && -1 <= i < |T| && (i >= 0 ==> IsS(T, i))
      invariant i < last <= |T| && (last < |T| ==> IsLms(T, last))
      invariant -1 <= j < m && Refilled(T, SA[..], m, base, last, j)
      invariant SA[..base] == front && SA[base + m..] == rest
    {
      ghost var from := i;
      i := SkipS(T, i);
      if 0 <= i {
        ScanFound(T, i, from, last);
        AdjacentIs(T, i + 1, last);
        RefillStep(T, SA[..], m, base, last, j, i + 1);
        ghost var cells := SA[..];
        SA[base + j] := i + 1;
        assert SA[..] == cells[base + j := i + 1];
        j := j - 1;
        last, from := i + 1, i;
        i := SkipL(T, i);
        ScanPast(T, i, from);
      } else {
        ScanNone(T, from, last);
      }
    }
    ScanDone(T, last);
    RefillDone(T, SA[..], m, base, last, j);
  }

  lemma RefillDone(T: Text, cells: seq<int>, m: nat, base: nat, last: nat, j: int)
    requires Refilled(T, cells, m, base, last, j) && LmsFrom(T, last) == LmsFrom(T, 0)
    ensures |LmsFrom(T, 0)| == m && base + m <= |cells| && forall a :: 0 <= a < m ==> cells[base + a] == LmsFrom(T, 0)[a]
  {
    var l := LmsFrom(T, 0);
    assert |l[j + 1..]| == |l| - (j + 1);
  }

  /** Read the sorted list of the reduced problem through the stored positions. */
  method MapBack(SA: array<int>, m: nat, base: nat)
    requires m <= base && base + m <= SA.Length
    requires forall a :: 0 <= a < m ==> 0 <= SA[a] < m
    modifies SA
    ensures forall a :: 0 <= a < m ==> 0 <= old(SA[a]) < m && SA[a] == old(SA[base + SA[a]])
    ensures SA[m..] == old(SA[m..])
  {
    for i := 0 to m
      invariant forall a :: 0 <= a < i ==> SA[a] == old(SA[base + SA[a]])
      invariant forall a :: i <= a < SA.Length ==> SA[a] == old(SA[a])
    {
      SA[i] := SA[base + SA[i]];
    }
  }
}
