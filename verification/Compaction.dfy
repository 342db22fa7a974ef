/** First part of LMSpostproc1: gather the flagged entries, in slot order, at the front
    of the array. */
module Compaction {
  import opened Passes

  /** The flagged entries of s, without their flags. */
  ghost function Flagged(s: seq<int>): (r: seq<int>)
    ensures |r| <= |s|
  {
    if s == [] then [] else Flagged(s[..|s| - 1]) + (if s[|s| - 1] < 0 then [Not(s[|s| - 1])] else [])
  }

  lemma FlaggedStep(s: seq<int>, i: nat)
    requires i < |s|
    ensures Flagged(s[..i + 1]) == Flagged(s[..i]) + (if s[i] < 0 then [Not(s[i])] else [])
  {
    assert s[..i + 1][..i] == s[..i];
  }

  lemma {:induction false} FlaggedPrefix(s: seq<int>, i: nat)
    requires i <= |s|
    ensures |Flagged(s[..i])| <= |Flagged(s)|
    ensures |Flagged(s[..i])| == |Flagged(s)| ==> (forall r :: i <= r < |s| ==> s[r] >= 0) && Flagged(s[..i]) == Flagged(s)
    decreases |s| - i
  {
    if i < |s| {
      FlaggedStep(s, i);
      FlaggedPrefix(s, i + 1);
    } else {
      assert s[..i] == s;
    }
  }

  method Compact(SA: array<int>, n: nat, m: nat)
    requires n <= SA.Length && m == |Flagged(SA[..n])| && 0 < m < n
    requires forall r :: 0 <= r < n ==> SA[r] <= 0
    modifies SA
    ensures SA[..m] == Flagged(old(SA[..n]))
    ensures forall r :: m <= r < n ==> SA[r] == 0
    ensures SA[n..] == old(SA[n..])
  {
    ghost var s, rest := SA[..n], SA[n..];
    var i := 0;
    FlaggedPrefix(s, 0);
    while SA[i] < 0
      invariant i < n && i <= m && SA[..i] == Flagged(s[..i])
      invariant forall r :: i <= r < n ==> SA[r] == s[r]
      invariant SA[n..] == rest
      decreases n - i
    {
      FlaggedStep(s, i);
      FlaggedPrefix(s, i + 1);
      SA[i] := Not(SA[i]);
      assert SA[..i + 1] == SA[..i] + [SA[i]];
      i := i + 1;
    }
    FlaggedPrefix(s, i);
    if i < m {
      FlaggedStep(s, i);
      GatherRest(SA, m, i, s);
    }
  }

  /** The front of the array holds the flagged entries of the first i slots; the slots
      up to i are cleared and the others as they were. */
  ghost predicate Gathered(cells: seq<int>, s: seq<int>, j: int, i: int) {
    && 0 <= j <= i <= |s| <= |cells|
    && cells[..j] == Flagged(s[..i])
    && (forall r :: j <= r < i ==> cells[r] == 0)
    && (forall r :: i <= r < |s| ==> cells[r] == s[r])
  }

  lemma GatherStep(cells: seq<int>, s: seq<int>, j: nat, i: nat)
    requires Gathered(cells, s, j, i) && j < i < |s| && s[i] <= 0
    ensures s[i] < 0 ==> Gathered(cells[j := Not(s[i])][i := 0], s, j + 1, i + 1)
    ensures s[i] == 0 ==> Gathered(cells, s, j, i + 1)
  {
    FlaggedStep(s, i);
    if s[i] < 0 {
      var cells' := cells[j := Not(s[i])][i := 0];
      assert cells'[..j + 1] == cells[..j] + [Not(s[i])];
    }
  }

  lemma GatherMore(cells: seq<int>, s: seq<int>, j: nat, i: nat)
    requires Gathered(cells, s, j, i)
    ensures j < |Flagged(s)| ==> i < |s|
    ensures j == |Flagged(s)| && (forall r :: 0 <= r < |s| ==> s[r] <= 0) ==>
              cells[..j] == Flagged(s) && forall r :: j <= r < |s| ==> cells[r] == 0
  {
    FlaggedPrefix(s, i);
    if i == |s| { assert s[..i] == s; }
  }

  lemma GatherNext(cells: seq<int>, s: seq<int>, j: nat, i: nat)
    requires Gathered(cells, s, j, i) && i < |s|
    ensures |s| <= |cells| && cells[i] == s[i]
  {
  }

  /** The second loop of the compaction, from the first slot that is not flagged. */
  method GatherRest(SA: array<int>, m: nat, start: nat, ghost s: seq<int>)
    requires |s| <= SA.Length && m == |Flagged(s)| && start < m < |s|
    requires forall r :: 0 <= r < |s| ==> s[r] <= 0
    requires Gathered(SA[..], s, start, start + 1)
    modifies SA
    ensures SA[..m] == Flagged(s)
    ensures forall r :: m <= r < |s| ==> SA[r] == 0
    ensures SA[|s|..] == old(SA[|s|..])
  {
    hide Flagged, Gathered;
    ghost var cells := SA[..];
    var j, i := start, start + 1;
    while true
      invariant 0 <= j < m && j < i
      invariant SA[..] == cells && cells[|s|..] == old(SA[|s|..])
      invariant Gathered(cells, s, j, i)
      decreases |s| - i
    {
      GatherMore(cells, s, j, i);
      GatherNext(cells, s, j, i);
      GatherStep(cells, s, j, i);
      if SA[i] < 0 {
        SA[j] := Not(SA[i]);
        j := j + 1;
        SA[i] := 0;
        cells := cells[j - 1 := Not(s[i])][i := 0];
        if j == m { break; }
      }
      i := i + 1;
    }
    GatherMore(cells, s, j, i + 1);
  }
}
