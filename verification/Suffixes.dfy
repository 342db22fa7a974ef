/** Suffixes of a text, their lexicographic order, and the L/S classification
    that the induced sorting of sais.c rests on.  A suffix is named by its start
    position; position |T| names the empty suffix, which is below every other. */
module Suffixes {

  type Text = seq<nat>

  /** Suffix i is lexicographically below suffix j. */
  ghost predicate Less(T: Text, i: nat, j: nat)
    requires i <= |T| && j <= |T|
    decreases |T| - i
  {
    j < |T| && (i == |T| || T[i] < T[j] || (T[i] == T[j] && Less(T, i + 1, j + 1)))
  }

  /** The suffixes agree up to position x of the first one; there it ends, or has the
      smaller character. */
  ghost predicate BelowAt(T: Text, i: nat, j: nat, x: int) {
    && i <= x <= |T| && j + (x - i) < |T| && T[i..x] == T[j..j + (x - i)]
    && (x == |T| || T[x] < T[j + (x - i)])
  }

  /** The order in terms of the characters. */
  lemma {:induction false} LessMeaning(T: Text, i: nat, j: nat)
    requires i <= |T| && j <= |T|
    ensures Less(T, i, j) <==> exists x :: BelowAt(T, i, j, x)
    decreases |T| - i
  {
    hide BelowAt;
    BelowAtOnce(T, i, j);
    if i < |T| && j < |T| {
      LessMeaning(T, i + 1, j + 1);
      forall x: int ensures i < x ==> (BelowAt(T, i, j, x) <==> T[i] == T[j] && BelowAt(T, i + 1, j + 1, x)) {
        if i < x { BelowAtNext(T, i, j, x); }
      }
      if Less(T, i, j) && T[i] == T[j] {
        var x :| BelowAt(T, i + 1, j + 1, x);
        BelowAtRange(T, i + 1, j + 1, x);
        assert BelowAt(T, i, j, x);
      }
    }
    forall x | BelowAt(T, i, j, x) ensures Less(T, i, j) { BelowAtRange(T, i, j, x); }
  }

  lemma BelowAtRange(T: Text, i: nat, j: nat, x: int)
    requires BelowAt(T, i, j, x)
    ensures i <= x <= |T| && j + (x - i) < |T|
  {
  }

  lemma BelowAtNext(T: Text, i: nat, j: nat, x: int)
    requires i < x && i < |T| && j < |T|
    ensures BelowAt(T, i, j, x) <==> T[i] == T[j] && BelowAt(T, i + 1, j + 1, x)
  {
    if x <= |T| && j + (x - i) <= |T| { AgreeNext(T, i, j, x); }
  }

  lemma BelowAtOnce(T: Text, i: nat, j: nat)
    requires i <= |T| && j <= |T|
    ensures BelowAt(T, i, j, i) <==> j < |T| && (i == |T| || T[i] < T[j])
  {
  }

  lemma AgreeNext(T: Text, i: nat, j: nat, x: nat)
    requires i < x <= |T| && j < j + (x - i) <= |T|
    ensures T[i..x] == T[j..j + (x - i)] <==> T[i] == T[j] && T[i + 1..x] == T[j + 1..j + (x - i)]
  {
    var a, b := T[i..x], T[j..j + (x - i)];
    assert a == [T[i]] + T[i + 1..x] && b == [T[j]] + T[j + 1..j + (x - i)];
    assert a[0] == T[i] && b[0] == T[j] && a[1..] == T[i + 1..x] && b[1..] == T[j + 1..j + (x - i)];
  }

  lemma {:induction false} LessIrreflexive(T: Text, i: nat)
    requires i <= |T|
    ensures !Less(T, i, i)
    decreases |T| - i
  {
    if i < |T| { LessIrreflexive(T, i + 1); }
  }

  lemma {:induction false} LessTotal(T: Text, i: nat, j: nat)
    requires i <= |T| && j <= |T| && i != j
    ensures Less(T, i, j) != Less(T, j, i)
    decreases |T| - i
  {
    if i < |T| && j < |T| && T[i] == T[j] { LessTotal(T, i + 1, j + 1); }
  }

  lemma {:induction false} LessTransitive(T: Text, i: nat, j: nat, k: nat)
    requires i <= |T| && j <= |T| && k <= |T|
    requires Less(T, i, j) && Less(T, j, k)
    ensures Less(T, i, k)
    decreases |T| - i
  {
    if i < |T| && T[i] == T[j] == T[k] { LessTransitive(T, i + 1, j + 1, k + 1); }
  }

  /** SA lists every position of T once, in strictly increasing suffix order. */
  ghost predicate IsSuffixArray(T: Text, SA: seq<int>) {
    && |SA| == |T|
    && (forall r :: 0 <= r < |SA| ==> 0 <= SA[r] < |T|)
    && (forall x :: 0 <= x < |T| ==> x in SA)
    && (forall r, s :: 0 <= r < s < |SA| ==> Less(T, SA[r], SA[s]))
  }

  /** Position i is of type S: suffix i is below suffix i + 1.  The last position
      is of type L, because the empty suffix is below it. */
  ghost predicate IsS(T: Text, i: nat)
    requires i <= |T|
    decreases |T| - i
  {
    i + 1 < |T| && (T[i] < T[i + 1] || (T[i] == T[i + 1] && IsS(T, i + 1)))
  }

  ghost predicate IsL(T: Text, i: nat)
    requires i <= |T|
  {
    i < |T| && !IsS(T, i)
  }

  /** Leftmost S: an S position whose left neighbour is of type L. */
  ghost predicate IsLms(T: Text, i: nat)
    requires i <= |T|
  {
    0 < i < |T| && IsS(T, i) && !IsS(T, i - 1)
  }

  /** The type says how a suffix compares with the next one. */
  lemma {:induction false} TypeIsOrder(T: Text, i: nat)
    requires i < |T|
    ensures IsS(T, i) <==> Less(T, i, i + 1)
    decreases |T| - i
  {
    if i + 1 < |T| && T[i] == T[i + 1] { TypeIsOrder(T, i + 1); }
  }

  /** Among suffixes with the same first character, type L comes before type S. */
  lemma {:induction false} LBeforeS(T: Text, i: nat, j: nat)
    requires i < |T| && j < |T| && T[i] == T[j]
    requires IsL(T, i) && IsS(T, j)
    ensures Less(T, i, j)
    decreases |T| - i
  {
    if i + 1 < |T| && T[i + 1] == T[i] && T[j + 1] == T[j] { LBeforeS(T, i + 1, j + 1); }
  }

  /** The LMS positions from i on, in text order. */
  ghost function LmsFrom(T: Text, i: nat): (r: seq<nat>)
    requires i <= |T|
    decreases |T| - i
  {
    if i == |T| then [] else (if IsLms(T, i) then [i] else []) + LmsFrom(T, i + 1)
  }

  lemma {:induction false} LmsFromElements(T: Text, i: nat)
    requires i <= |T|
    ensures forall a :: 0 <= a < |LmsFrom(T, i)| ==> i <= LmsFrom(T, i)[a] < |T| && IsLms(T, LmsFrom(T, i)[a])
    ensures forall a, b :: 0 <= a < b < |LmsFrom(T, i)| ==> LmsFrom(T, i)[a] < LmsFrom(T, i)[b]
    ensures forall p :: i <= p < |T| && IsLms(T, p) ==> p in LmsFrom(T, i)
    decreases |T| - i
  {
    if i < |T| { LmsFromElements(T, i + 1); }
  }

  /** LMS positions are never adjacent, and none is the last position: from i on
      there are at most half as many as there are positions. */
  lemma {:induction false} LmsFromSparse(T: Text, i: nat)
    requires i <= |T|
    ensures 2 * |LmsFrom(T, i)| <= |T| - i - (if i < |T| && !IsLms(T, i) then 1 else 0)
    decreases |T| - i
  {
    hide IsS, IsLms;
    if i < |T| {
      NotAdjacent(T, i);
      LmsFromSparse(T, i + 1);
    }
  }

  lemma NotAdjacent(T: Text, i: nat)
    requires i < |T|
    ensures IsLms(T, i) ==> i + 1 < |T| && !IsLms(T, i + 1)
  {
  }

  /** The bound on which the whole reduction relies: 2m <= n. */
  lemma {:induction false} LmsHalf(T: Text)
    ensures 2 * |LmsFrom(T, 0)| <= |T|
  {
    LmsFromSparse(T, 0);
  }
}
