/** Counting classes of equal labels along a row of slots.  LMSsort2 numbers substrings in
    this way: a counter goes up at every slot that starts a new class. */
module Classes {

  type Label = seq<int>

  /** Among the marked slots, those with the same label are neighbours. */
  ghost predicate Contiguous(on: seq<bool>, lab: seq<Label>) {
    && |on| == |lab|
    && forall a, b, c :: 0 <= a < b < c < |on| && on[a] && on[b] && on[c] && lab[a] == lab[c] ==> lab[b] == lab[a]
  }

  lemma ContiguousPart(on: seq<bool>, part: seq<bool>, lab: seq<Label>)
    requires Contiguous(on, lab) && |part| == |on| && forall a :: 0 <= a < |on| && part[a] ==> on[a]
    ensures Contiguous(part, lab)
  {
  }

  /** Slot b starts its class, seen from the left. */
  ghost predicate First(on: seq<bool>, lab: seq<Label>, b: int)
    requires 0 <= b < |on| == |lab|
  {
    on[b] && forall a :: 0 <= a < b && on[a] ==> lab[a] != lab[b]
  }

  /** The same, seen from the right. */
  ghost predicate Last(on: seq<bool>, lab: seq<Label>, b: int)
    requires 0 <= b < |on| == |lab|
  {
    on[b] && forall c :: b < c < |on| && on[c] ==> lab[c] != lab[b]
  }

  /** Classes that start below slot i. */
  ghost function Firsts(on: seq<bool>, lab: seq<Label>, i: int): nat
    requires 0 <= i <= |on| == |lab|
  {
    if i == 0 then 0 else Firsts(on, lab, i - 1) + if First(on, lab, i - 1) then 1 else 0
  }

  /** Classes that start, from the right, at slot i or above. */
  ghost function Lasts(on: seq<bool>, lab: seq<Label>, i: int): nat
    requires 0 <= i <= |on| == |lab|
    decreases |on| - i
  {
    if i == |on| then 0 else Lasts(on, lab, i + 1) + if Last(on, lab, i) then 1 else 0
  }

  lemma {:induction false} FirstsGrow(on: seq<bool>, lab: seq<Label>, i: int, j: int)
    requires 0 <= i <= j <= |on| == |lab|
    ensures Firsts(on, lab, i) <= Firsts(on, lab, j)
    ensures (forall s :: i <= s < j ==> !First(on, lab, s)) ==> Firsts(on, lab, i) == Firsts(on, lab, j)
    decreases j
  {
    hide First;
    if i < j { FirstsGrow(on, lab, i, j - 1); }
  }

  lemma {:induction false} LastsGrow(on: seq<bool>, lab: seq<Label>, i: int, j: int)
    requires 0 <= i <= j <= |on| == |lab|
    ensures Lasts(on, lab, j) <= Lasts(on, lab, i)
    ensures (forall s :: i <= s < j ==> !Last(on, lab, s)) ==> Lasts(on, lab, i) == Lasts(on, lab, j)
    decreases |on| - i
  {
    hide Last;
    if i < j { LastsGrow(on, lab, i + 1, j); }
  }

  /** The slot that starts the class of b. */
  lemma {:induction false} FirstOf(on: seq<bool>, lab: seq<Label>, b: int, k: int) returns (s: int)
    requires 0 <= k <= b < |on| == |lab| && on[b]
    requires forall a :: 0 <= a < k && on[a] ==> lab[a] != lab[b]
    ensures 0 <= s <= b && First(on, lab, s) && lab[s] == lab[b]
    decreases b - k
  {
    if on[k] && lab[k] == lab[b] { s := k; } else { s := FirstOf(on, lab, b, k + 1); }
  }

  lemma {:induction false} LastOf(on: seq<bool>, lab: seq<Label>, b: int, k: int) returns (s: int)
    requires 0 <= b <= k < |on| == |lab| && on[b]
    requires forall a :: k < a < |on| && on[a] ==> lab[a] != lab[b]
    ensures b <= s < |on| && Last(on, lab, s) && lab[s] == lab[b]
    decreases k
  {
    if on[k] && lab[k] == lab[b] { s := k; } else { s := LastOf(on, lab, b, k - 1); }
  }

  lemma Between(on: seq<bool>, lab: seq<Label>, a: int, b: int, c: int)
    requires Contiguous(on, lab) && 0 <= a <= b <= c < |on| && on[a] && on[b] && on[c] && lab[a] == lab[c]
    ensures |on| == |lab| && lab[b] == lab[a]
  {
  }

  lemma FirstCounts(on: seq<bool>, lab: seq<Label>, s: int)
    requires 0 <= s < |on| == |lab| && First(on, lab, s)
    ensures on[s] && Firsts(on, lab, s + 1) == Firsts(on, lab, s) + 1
  {
  }

  lemma LastCounts(on: seq<bool>, lab: seq<Label>, s: int)
    requires 0 <= s < |on| == |lab| && Last(on, lab, s)
    ensures on[s] && Lasts(on, lab, s) == Lasts(on, lab, s + 1) + 1
  {
  }

  lemma NotFirst(on: seq<bool>, lab: seq<Label>, a: int, x: int, b: int)
    requires Contiguous(on, lab) && 0 <= a < x <= b < |on| && on[a] && on[b] && lab[a] == lab[b]
    ensures |on| == |lab| && !First(on, lab, x)
  {
    if on[x] { Between(on, lab, a, x, b); }
  }

  lemma NotLast(on: seq<bool>, lab: seq<Label>, a: int, x: int, b: int)
    requires Contiguous(on, lab) && 0 <= a <= x < b < |on| && on[a] && on[b] && lab[a] == lab[b]
    ensures |on| == |lab| && !Last(on, lab, x)
  {
    if on[x] { Between(on, lab, a, x, b); }
  }

  lemma SameSize(on: seq<bool>, lab: seq<Label>)
    requires Contiguous(on, lab)
    ensures |on| == |lab|
  {
  }

  /** The counter tells the classes of marked slots apart. */
  lemma FirstsTell(on: seq<bool>, lab: seq<Label>, a: int, b: int)
    requires Contiguous(on, lab) && 0 <= a <= b < |on| && on[a] && on[b]
    ensures |on| == |lab| && (Firsts(on, lab, a + 1) == Firsts(on, lab, b + 1) <==> lab[a] == lab[b])
    ensures 0 < Firsts(on, lab, a + 1) <= Firsts(on, lab, b + 1)
  {
    hide Contiguous, First, Firsts;
    SameSize(on, lab);
    FirstsGrow(on, lab, a + 1, b + 1);
    if lab[a] == lab[b] {
      forall x | a + 1 <= x < b + 1 ensures !First(on, lab, x) { NotFirst(on, lab, a, x, b); }
    } else {
      var s := FirstOf(on, lab, b, 0);
      FirstCounts(on, lab, s);
      if s <= a { Between(on, lab, s, a, b); }
      FirstsGrow(on, lab, a + 1, s);
      FirstsGrow(on, lab, s + 1, b + 1);
    }
    var f := FirstOf(on, lab, a, 0);
    FirstCounts(on, lab, f);
    FirstsGrow(on, lab, f + 1, a + 1);
  }

  lemma LastsTell(on: seq<bool>, lab: seq<Label>, a: int, b: int)
    requires Contiguous(on, lab) && 0 <= a <= b < |on| && on[a] && on[b]
    ensures |on| == |lab| && (Lasts(on, lab, a) == Lasts(on, lab, b) <==> lab[a] == lab[b])
    ensures 0 < Lasts(on, lab, b) <= Lasts(on, lab, a)
  {
    hide Contiguous, Last, Lasts;
    SameSize(on, lab);
    LastsGrow(on, lab, a, b);
    if lab[a] == lab[b] {
      forall x | a <= x < b ensures !Last(on, lab, x) { NotLast(on, lab, a, x, b); }
    } else {
      var s := LastOf(on, lab, a, |on| - 1);
      LastCounts(on, lab, s);
      if b <= s { Between(on, lab, a, b, s); }
      LastsGrow(on, lab, a, s);
      LastsGrow(on, lab, s + 1, b);
    }
    var f := LastOf(on, lab, b, |on| - 1);
    LastCounts(on, lab, f);
    LastsGrow(on, lab, b, f);
  }
}
