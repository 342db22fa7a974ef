/** The step between the two scans of LMSsort2: the mark moves from the first entry of each
    class to its last one. */
module MarkTurn {
  import opened Classes

  /** Cells above i are marked at the last of a class, the others at the first. */
  ghost predicate Turned(on: seq<bool>, lab: seq<Label>, cells: seq<int>, SA: seq<int>, i: int) {
    && |on| == |lab| <= |cells| == |SA| && SA[|on|..] == cells[|on|..]
    && (forall r :: 0 <= r < |on| ==> 0 <= cells[r] < |on| && (on[r] <==> cells[r] > 0))
    && (forall r :: 0 <= r < |on| ==>
          SA[r] == cells[r] + if (r > i && Last(on, lab, r)) || (r <= i && First(on, lab, r)) then |on| else 0)
  }

  /** No class has members on both sides. */
  ghost predicate Boundary(on: seq<bool>, lab: seq<Label>, i: int) {
    && |on| == |lab|
    && forall a, b :: 0 <= a <= i < b < |on| && on[a] && on[b] ==> lab[a] != lab[b]
  }

  lemma TurnedAt(on: seq<bool>, lab: seq<Label>, cells: seq<int>, SA: seq<int>, i: int, r: int)
    requires Turned(on, lab, cells, SA, i) && 0 <= r <= i < |on|
    ensures |on| == |lab| <= |SA|
    ensures SA[r] >= |on| <==> First(on, lab, r)
    ensures SA[r] > 0 <==> on[r]
    ensures 0 <= SA[r] < 2 * |on|
  {
  }

  lemma BoundaryIsLast(on: seq<bool>, lab: seq<Label>, i: int)
    requires Boundary(on, lab, i) && 0 <= i < |on|
    ensures Last(on, lab, i) <==> on[i]
  {
  }

  lemma BoundaryKeep(on: seq<bool>, lab: seq<Label>, i: int)
    requires Boundary(on, lab, i) && 0 <= i < |on| && (on[i] ==> First(on, lab, i))
    ensures Boundary(on, lab, i - 1)
  {
  }

  lemma FirstIsOn(on: seq<bool>, lab: seq<Label>, i: int)
    requires 0 <= i < |on| == |lab| && First(on, lab, i)
    ensures on[i]
  {
  }

  /** An unmarked slot, or one whose class has it as the only member, needs no change. */
  lemma TurnedKeep(on: seq<bool>, lab: seq<Label>, cells: seq<int>, SA: seq<int>, i: int)
    requires Turned(on, lab, cells, SA, i) && Boundary(on, lab, i) && 0 <= i < |on| && (on[i] ==> First(on, lab, i))
    ensures Turned(on, lab, cells, SA, i - 1) && Boundary(on, lab, i - 1)
  {
    hide First, Last, Boundary;
    BoundaryIsLast(on, lab, i);
    BoundaryKeep(on, lab, i);
    if First(on, lab, i) { FirstIsOn(on, lab, i); }
  }

  lemma BoundaryAtFirst(on: seq<bool>, lab: seq<Label>, j: int)
    requires Contiguous(on, lab) && 0 <= j < |on| == |lab| && First(on, lab, j)
    ensures Boundary(on, lab, j - 1)
  {
    forall a, b | 0 <= a <= j - 1 < b < |on| && on[a] && on[b] ensures lab[a] != lab[b] {
      if lab[a] == lab[b] {
        Between(on, lab, a, j, b);
        assert false;
      }
    }
  }

  /** Move the mark of a class from its first member j to its last member i. */
  lemma TurnedMove(on: seq<bool>, lab: seq<Label>, cells: seq<int>, SA: seq<int>, i: int, j: int)
    requires Contiguous(on, lab) && Turned(on, lab, cells, SA, i) && Boundary(on, lab, i) && 0 <= j < i < |on|
    requires on[i] && |on| == |lab| && First(on, lab, j) && lab[j] == lab[i]
    ensures |on| <= |SA| && Turned(on, lab, cells, SA[i := SA[i] + |on|][j := SA[j] - |on|], j - 1)
  {
    var SA' := SA[i := SA[i] + |on|][j := SA[j] - |on|];
    assert !First(on, lab, i);
    forall r | 0 <= r < |on|
      ensures SA'[r] == cells[r] + if (r > j - 1 && Last(on, lab, r)) || (r <= j - 1 && First(on, lab, r)) then |on| else 0
    {
      if j <= r < i {
        NotLast(on, lab, j, r, i);
        if j < r { NotFirst(on, lab, j, r, i); }
      }
    }
  }

  /** The first member of a class, searched for from the left of its last one. */
  lemma FoundFirst(on: seq<bool>, lab: seq<Label>, f: int, j: int, i: int)
    requires Contiguous(on, lab) && 0 <= f <= j < i < |on| == |lab| && on[i]
    requires First(on, lab, f) && First(on, lab, j) && lab[f] == lab[i]
    ensures f == j
  {
    Between(on, lab, f, j, i);
  }

  method Turn(SA: array<int>, n: nat, ghost on: seq<bool>, ghost lab: seq<Label>, ghost cells: seq<int>)
    requires n == |on| && Contiguous(on, lab) && Turned(on, lab, cells, SA[..], n - 1)
    modifies SA
    ensures Turned(on, lab, cells, SA[..], -1)
  {
    hide Turned, Contiguous, First, Last;
    var i: int := n - 1;
    SameSize(on, lab);
    BoundaryStart(on, lab);
    while 0 <= i
      invariant -1 <= i < n && Turned(on, lab, cells, SA[..], i) && Boundary(on, lab, i)
    {
      TurnedAt(on, lab, cells, SA[..], i, i);
      ghost var was := SA[..];
      if 0 < SA[i] && SA[i] < n {
        ghost var f := FirstOf(on, lab, i, 0);
        var j := FindMark(SA, n, i, f, on, lab, cells);
        FoundFirst(on, lab, f, j, i);
        TurnedAt(on, lab, cells, SA[..], i, j);
        SA[i] := SA[i] + n;
        SA[j] := SA[j] - n;
        TurnedMove(on, lab, cells, was, i, j);
        BoundaryAtFirst(on, lab, j);
        i := j;
      } else {
        TurnedKeep(on, lab, cells, SA[..], i);
      }
      i := i - 1;
    }
  }

  lemma BoundaryStart(on: seq<bool>, lab: seq<Label>)
    requires |on| == |lab|
    ensures Boundary(on, lab, |on| - 1)
  {
  }

  /** The nearest marked entry on the left; there is one, because the class has a first
      member. */
  method FindMark(SA: array<int>, n: nat, i: nat, ghost f: int, ghost on: seq<bool>, ghost lab: seq<Label>,
                  ghost cells: seq<int>) returns (j: int)
    requires i < n == |on| == |lab| && Turned(on, lab, cells, SA[..], i) && i < SA.Length && SA[i] < n
    requires 0 <= f <= i && First(on, lab, f)
    ensures f <= j < i && First(on, lab, j)
  {
    hide Turned, First;
    TurnedAt(on, lab, cells, SA[..], i, f);
    TurnedAt(on, lab, cells, SA[..], i, i);
    j := i - 1;
    while SA[j] < n
      invariant f <= j < i
      decreases j
    {
      TurnedAt(on, lab, cells, SA[..], i, j);
      j := j - 1;
    }
    TurnedAt(on, lab, cells, SA[..], i, j);
  }
}
