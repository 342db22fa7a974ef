/** LMS substrings: the text from one LMS position to the next, both included.  Two
    positions agree when these substrings are equal; where they do not, the induced
    order already is the suffix order. */
module LmsNames {
  import opened Suffixes
  import opened InducedOrder

  /** The next LMS position right of i, or |T|. */
  ghost function NextLms(T: Text, i: nat): (r: nat)
    requires i < |T|
    ensures i < r <= |T|
    decreases |T| - i
  {
    if i + 1 == |T| || IsLms(T, i + 1) then i + 1 else NextLms(T, i + 1)
  }

  lemma {:induction false} NextLmsIsNext(T: Text, i: nat)
    requires i < |T|
    ensures NextLms(T, i) < |T| ==> IsLms(T, NextLms(T, i)) && NextLms(T, i) + 1 < |T|
    ensures forall p :: i < p < NextLms(T, i) ==> !IsLms(T, p)
    decreases |T| - i
  {
    if i + 1 < |T| && !IsLms(T, i + 1) { NextLmsIsNext(T, i + 1); }
  }

  /** Equal characters and types up to a pair of LMS positions. */
  ghost predicate SameSub(T: Text, i: nat, j: nat)
    decreases |T| - i
  {
    && i < |T| && j < |T| && T[i] == T[j] && IsS(T, i) == IsS(T, j)
    && (if IsL(T, i) && IsLms(T, i + 1) && IsLms(T, j + 1) then T[i + 1] == T[j + 1] else SameSub(T, i + 1, j + 1))
  }

  lemma {:induction false} SameSubSymmetric(T: Text, i: nat, j: nat)
    requires SameSub(T, i, j)
    ensures SameSub(T, j, i)
    decreases |T| - i
  {
    if !(IsL(T, i) && IsLms(T, i + 1) && IsLms(T, j + 1)) { SameSubSymmetric(T, i + 1, j + 1); }
  }

  /** Both positions of an agreeing pair step to LMS positions together. */
  lemma SameSubStep(T: Text, i: nat, j: nat)
    requires SameSub(T, i, j) && IsL(T, i)
    ensures i + 1 < |T| && j + 1 < |T| && T[i + 1] == T[j + 1] && (IsLms(T, i + 1) <==> IsLms(T, j + 1))
  {
  }

  lemma {:induction false} SameSubTransitive(T: Text, i: nat, j: nat, k: nat)
    requires SameSub(T, i, j) && SameSub(T, j, k)
    ensures SameSub(T, i, k)
    decreases |T| - i
  {
    if IsL(T, i) {
      SameSubStep(T, i, j);
      SameSubStep(T, j, k);
    }
    if !(IsL(T, i) && IsLms(T, i + 1)) { SameSubTransitive(T, i + 1, j + 1, k + 1); }
  }

  /** Where two positions do not agree, the induced order is the suffix order. */
  lemma {:induction false} DifferentIsLess(T: Text, lo: nat, seed: seq<int>, i: nat, j: nat)
    requires |seed| == |T| && SeedsOk(T, lo, seed) && lo <= i <= |T| && lo <= j <= |T|
    requires Before(T, seed, i, j) && !SameSub(T, i, j)
    ensures Less(T, i, j)
    decreases |T| - i
  {
    if i < |T| {
      BeforeCharacters(T, seed, i, j);
      if T[i] == T[j] {
        if IsS(T, i) != IsS(T, j) {
          LBeforeS(T, i, j);
        } else if IsL(T, i) && IsLms(T, i + 1) && IsLms(T, j + 1) {
          assert IsSeed(T, lo, i + 1) && IsSeed(T, lo, j + 1);
          if T[j + 1] < T[i + 1] { SeedsFollowCharacters(T, lo, seed, j + 1, i + 1); }
        } else {
          DifferentIsLess(T, lo, seed, i + 1, j + 1);
        }
      }
    }
  }

  lemma SameSubHead(T: Text, i: nat, j: nat)
    requires SameSub(T, i, j)
    ensures i < |T| && j < |T| && T[i] == T[j] && IsS(T, i) == IsS(T, j)
  {
  }

  lemma SameSubTail(T: Text, i: nat, j: nat)
    requires SameSub(T, i, j) && i + 1 <= |T| && j + 1 <= |T| && (IsS(T, i) || !IsLms(T, i + 1))
    ensures SameSub(T, i + 1, j + 1)
  {
  }

  lemma SameSubIntro(T: Text, i: nat, j: nat)
    requires i < |T| && j < |T| && T[i] == T[j] && IsS(T, i) == IsS(T, j)
    requires if IsL(T, i) && IsLms(T, i + 1) then IsLms(T, j + 1) && i + 1 < |T| && j + 1 < |T| && T[i + 1] == T[j + 1]
             else SameSub(T, i + 1, j + 1)
    ensures SameSub(T, i, j)
  {
  }

  /** Agreement is convex: what lies between agreeing positions agrees with them. */
  lemma {:induction false} SameSubConvex(T: Text, lo: nat, seed: seq<int>, i: nat, j: nat, k: nat)
    requires |seed| == |T| && SeedsOk(T, lo, seed) && lo <= i <= |T| && lo <= j <= |T| && lo <= k <= |T|
    requires Before(T, seed, i, j) && Before(T, seed, j, k) && SameSub(T, i, k)
    ensures SameSub(T, i, j)
    decreases |T| - i
  {
    hide IsS, IsLms, SameSub, Before, SeedsOk;
    SameSubHead(T, i, k);
    BeforeCharacters(T, seed, i, j);
    BeforeCharacters(T, seed, j, k);
    BeforeStep(T, seed, i, j);
    BeforeStep(T, seed, j, k);
    if IsL(T, i) {
      SameSubStep(T, i, k);
      SuccessorOfL(T, lo, i);
      SuccessorOfL(T, lo, j);
      SuccessorOfL(T, lo, k);
      StepBeforeCharacters(T, lo, seed, i + 1, j + 1);
      StepBeforeCharacters(T, lo, seed, j + 1, k + 1);
    }
    if IsS(T, i) || !IsLms(T, i + 1) {
      SameSubTail(T, i, k);
      SameSubConvex(T, lo, seed, i + 1, j + 1, k + 1);
    }
    SameSubIntro(T, i, j);
  }

  /** The substrings from i and from j up to the next LMS position are equal, and both
      end in an LMS position. */
  ghost predicate EqualSubstrings(T: Text, i: nat, j: nat)
    requires i < |T| && j < |T|
  {
    var p, q := NextLms(T, i), NextLms(T, j);
    p < |T| && q < |T| && T[i..p + 1] == T[j..q + 1]
  }

  lemma EqualBothLms(T: Text, i: nat, j: nat)
    requires i + 1 < |T| && j + 1 < |T| && IsLms(T, i + 1) && IsLms(T, j + 1)
    ensures SameSub(T, i, j) <==> T[i] == T[j] && T[i + 1] == T[j + 1]
    ensures EqualSubstrings(T, i, j) <==> T[i] == T[j] && T[i + 1] == T[j + 1]
  {
    assert T[i..i + 2] == [T[i], T[i + 1]] && T[j..j + 2] == [T[j], T[j + 1]];
  }

  lemma EqualOneLms(T: Text, i: nat, j: nat)
    requires i + 1 < |T| && j + 1 < |T| && IsLms(T, i + 1) && !IsLms(T, j + 1)
    ensures !EqualSubstrings(T, i, j) && !EqualSubstrings(T, j, i)
  {
    hide IsLms;
    var p, q := NextLms(T, i), NextLms(T, j);
    if p < |T| && q < |T| { assert |T[i..p + 1]| != |T[j..q + 1]|; }
  }

  lemma EqualNoLms(T: Text, i: nat, j: nat)
    requires i + 1 < |T| && j + 1 < |T| && !IsLms(T, i + 1) && !IsLms(T, j + 1)
    ensures EqualSubstrings(T, i, j) <==> T[i] == T[j] && EqualSubstrings(T, i + 1, j + 1)
  {
    hide IsLms;
    var p, q := NextLms(T, i), NextLms(T, j);
    if p < |T| && q < |T| {
      ConsSlice(T, i, p + 1);
      ConsSlice(T, j, q + 1);
    }
  }

  lemma ConsSlice(T: Text, i: nat, e: nat)
    requires i < e <= |T|
    ensures T[i..e] == [T[i]] + T[i + 1..e] && T[i + 1..e] == T[i..e][1..] && T[i] == T[i..e][0]
  {
  }

  lemma SameNoLms(T: Text, i: nat, j: nat)
    requires i + 1 < |T| && j + 1 < |T| && !IsLms(T, i + 1) && !IsLms(T, j + 1)
    ensures SameSub(T, i, j) <==> T[i] == T[j] && SameSub(T, i + 1, j + 1)
  {
    if T[i] == T[j] && SameSub(T, i + 1, j + 1) { TypesStepTogether(T, i, j); }
  }

  lemma EqualAtEnd(T: Text, i: nat, j: nat)
    requires i < |T| && j < |T| && (i + 1 == |T| || j + 1 == |T|)
    ensures !SameSub(T, i, j) && !EqualSubstrings(T, i, j)
  {
  }

  /** Agreement, which compares types as well, is equality of the substrings alone. */
  lemma {:induction false} SameSubIsEquality(T: Text, i: nat, j: nat)
    requires i < |T| && j < |T|
    ensures SameSub(T, i, j) <==> EqualSubstrings(T, i, j)
    decreases |T| - i
  {
    hide SameSub, EqualSubstrings, IsLms;
    if i + 1 == |T| || j + 1 == |T| {
      EqualAtEnd(T, i, j);
    } else if IsLms(T, i + 1) && IsLms(T, j + 1) {
      EqualBothLms(T, i, j);
    } else if IsLms(T, i + 1) {
      EqualOneLms(T, i, j);
      SameSubNotOneLms(T, i, j);
    } else if IsLms(T, j + 1) {
      EqualOneLms(T, j, i);
      SameSubNotOneLms(T, i, j);
    } else {
      SameSubIsEquality(T, i + 1, j + 1);
      EqualNoLms(T, i, j);
      SameNoLms(T, i, j);
    }
  }

  lemma SameSubNotOneLms(T: Text, i: nat, j: nat)
    requires i + 1 < |T| && j + 1 < |T| && IsLms(T, i + 1) != IsLms(T, j + 1)
    ensures !SameSub(T, i, j)
  {
  }

  lemma TypesStepTogether(T: Text, i: nat, j: nat)
    requires i + 1 < |T| && j + 1 < |T| && T[i] == T[j] && SameSub(T, i + 1, j + 1)
    ensures IsS(T, i) == IsS(T, j)
  {
  }

  /** How the naming loop measures a substring: the last one runs to the end of the text. */
  ghost function SubLength(T: Text, p: nat): nat
    requires p < |T|
  {
    if NextLms(T, p) == |T| then |T| - p else NextLms(T, p) - p + 1
  }

  /** A tail of the text without LMS positions comes before an equal stretch that ends
      in an LMS position. */
  lemma {:induction false} TailComesFirst(T: Text, seed: seq<int>, i: nat, j: nat)
    requires |seed| == |T| && i + 1 < |T| && j < |T|
    requires NextLms(T, i) == |T| && NextLms(T, j) < |T|
    requires |T| - i == NextLms(T, j) - j + 1
    requires T[i..] == T[j..NextLms(T, j) + 1]
    ensures Before(T, seed, i, j) && IsS(T, i) == IsS(T, j)
    decreases |T| - i
  {
    var q := NextLms(T, j);
    NextLmsIsNext(T, j);
    assert T[i] == T[i..][0] == T[j] && T[i + 1] == T[i..][1] == T[j + 1];
    if i + 2 < |T| {
      assert T[i + 1..] == T[i..][1..] && T[j + 1..q + 1] == T[j..q + 1][1..];
      TailComesFirst(T, seed, i + 1, j + 1);
    }
  }

  lemma SubLengthFits(T: Text, p: nat)
    requires p < |T|
    ensures 0 < SubLength(T, p) && p + SubLength(T, p) <= |T|
    ensures p + SubLength(T, p) < |T| <==> NextLms(T, p) < |T|
  {
    NextLmsIsNext(T, p);
  }

  /** The naming loop does not take the last substring, which runs to the end of the
      text, for an equal one before it in the induced order. */
  lemma LastIsNew(T: Text, lo: nat, seed: seq<int>, q: nat, p: nat)
    requires |seed| == |T| && SeedsOk(T, lo, seed) && lo <= q < |T| && lo <= p < |T| && p + 1 < |T|
    requires Before(T, seed, q, p) && p != q
    requires NextLms(T, p) == |T| && NextLms(T, q) < |T| && SubLength(T, p) == SubLength(T, q)
    requires q + SubLength(T, p) <= |T|
    ensures T[p..p + SubLength(T, p)] != T[q..q + SubLength(T, p)]
  {
    if T[p..p + SubLength(T, p)] == T[q..q + SubLength(T, p)] {
      assert T[p..] == T[p..p + SubLength(T, p)];
      TailComesFirst(T, seed, p, q);
      BeforeTotal(T, lo, seed, p, q);
      assert false;
    }
  }

  /** The comparison made by the naming loop, for a position p that comes after q in the
      induced order, decides whether the two agree. */
  lemma NamingTest(T: Text, lo: nat, seed: seq<int>, q: nat, p: nat)
    requires |seed| == |T| && SeedsOk(T, lo, seed) && lo <= q < |T| && lo <= p < |T| && p + 1 < |T|
    requires Before(T, seed, q, p) && p != q
    ensures q + SubLength(T, q) <= |T| && p + SubLength(T, p) <= |T|
    ensures SameSub(T, q, p) <==>
      && SubLength(T, p) == SubLength(T, q) && q + SubLength(T, q) < |T|
      && T[p..p + SubLength(T, p)] == T[q..q + SubLength(T, p)]
  {
    hide IsS, IsLms, Before, SameSub, SeedsOk;
    SubLengthFits(T, p);
    SubLengthFits(T, q);
    SameSubIsEquality(T, q, p);
    if NextLms(T, p) == |T| {
      if NextLms(T, q) < |T| && SubLength(T, p) == SubLength(T, q) { LastIsNew(T, lo, seed, q, p); }
    } else if EqualSubstrings(T, q, p) {
      assert |T[q..NextLms(T, q) + 1]| == |T[p..NextLms(T, p) + 1]|;
    }
  }

  /** Equal stretches can be skipped in a suffix comparison. */
  lemma {:induction false} SkipEqual(T: Text, i: nat, j: nat, d: nat)
    requires i + d <= |T| && j + d <= |T| && T[i..i + d] == T[j..j + d]
    ensures Less(T, i, j) == Less(T, i + d, j + d)
    decreases d
  {
    if d > 0 {
      assert T[i] == T[i..i + d][0] == T[j];
      assert T[i + 1..i + d] == T[i..i + d][1..] && T[j + 1..j + d] == T[j..j + d][1..];
      SkipEqual(T, i + 1, j + 1, d - 1);
    }
  }

  /** Comparing agreeing positions is comparing the LMS positions they run to. */
  lemma SkipToNextLms(T: Text, i: nat, j: nat)
    requires SameSub(T, i, j)
    ensures NextLms(T, i) < |T| && NextLms(T, j) < |T|
    ensures Less(T, i, j) == Less(T, NextLms(T, i), NextLms(T, j))
  {
    SameSubIsEquality(T, i, j);
    var d := NextLms(T, i) - i;
    assert NextLms(T, j) - j == d by {
      assert |T[i..NextLms(T, i) + 1]| == |T[j..NextLms(T, j) + 1]|;
    }
    assert T[i..i + d] == T[i..NextLms(T, i) + 1][..d];
    assert T[j..j + d] == T[j..NextLms(T, j) + 1][..d];
    SkipEqual(T, i, j, d);
  }

  // ---- the reduced text

  /** In the list of LMS positions each is followed by the next one. */
  lemma {:induction false} LmsListNext(T: Text, i: nat, a: nat)
    requires i <= |T| && a < |LmsFrom(T, i)|
    ensures i <= LmsFrom(T, i)[a] < |T|
    ensures NextLms(T, LmsFrom(T, i)[a]) == if a + 1 < |LmsFrom(T, i)| then LmsFrom(T, i)[a + 1] else |T|
    decreases |T| - i
  {
    if IsLms(T, i) {
      if a == 0 {
        NextIsHead(T, i);
      } else {
        LmsListNext(T, i + 1, a - 1);
      }
    } else {
      LmsListNext(T, i + 1, a);
    }
  }

  lemma {:induction false} NextIsHead(T: Text, i: nat)
    requires i < |T|
    ensures NextLms(T, i) == if LmsFrom(T, i + 1) == [] then |T| else LmsFrom(T, i + 1)[0]
    decreases |T| - i
  {
    if i + 1 < |T| && !IsLms(T, i + 1) { NextIsHead(T, i + 1); }
  }

  /** R names the LMS substrings: equal names for agreeing positions only, and a smaller
      name for a smaller suffix. */
  ghost predicate NamesOk(T: Text, R: seq<nat>) {
    var lms := LmsFrom(T, 0);
    && |R| == |lms|
    && (forall a :: 0 <= a < |lms| ==> lms[a] < |T|)
    && (forall a, b :: 0 <= a < |R| && 0 <= b < |R| && a != b && R[a] == R[b] ==> SameSub(T, lms[a], lms[b]))
    && (forall a, b :: 0 <= a < |R| && 0 <= b < |R| && R[a] < R[b] ==> Less(T, lms[a], lms[b]))
  }

  /** The reduction: suffixes of the name string compare as the LMS suffixes they stand for. */
  lemma {:induction false} Reduction(T: Text, R: seq<nat>, a: nat, b: nat)
    requires NamesOk(T, R) && a < |R| && b < |R| && a != b
    ensures Less(R, a, b) <==> Less(T, LmsFrom(T, 0)[a], LmsFrom(T, 0)[b])
    decreases |R| - a
  {
    hide NamesOk, SameSub, Less, LmsFrom, NextLms, IsLms;
    var lms := LmsFrom(T, 0);
    NamesAt(T, R, a, b);
    if R[a] == R[b] {
      SkipToNextLms(T, lms[a], lms[b]);
      LmsListNext(T, 0, a);
      LmsListNext(T, 0, b);
      LessStep(R, a, b);
      Reduction(T, R, a + 1, b + 1);
    } else {
      LessTotal(T, lms[a], lms[b]);
      LessStep(R, a, b);
    }
  }

  lemma NamesAt(T: Text, R: seq<nat>, a: nat, b: nat)
    requires NamesOk(T, R) && a < |R| && b < |R| && a != b
    ensures var lms := LmsFrom(T, 0);
      && |R| == |lms| && lms[a] < |T| && lms[b] < |T| && lms[a] != lms[b]
      && (R[a] == R[b] ==> SameSub(T, lms[a], lms[b]))
      && (R[a] < R[b] ==> Less(T, lms[a], lms[b])) && (R[b] < R[a] ==> Less(T, lms[b], lms[a]))
  {
    LmsFromElements(T, 0);
  }

  lemma LessStep(R: Text, a: nat, b: nat)
    requires a < |R| && b < |R|
    ensures Less(R, a, b) <==> R[a] < R[b] || (R[a] == R[b] && Less(R, a + 1, b + 1))
  {
  }

  /** A suffix array of the name string, read through the list of LMS positions, lists
      these in suffix order. */
  lemma ReducedOrder(T: Text, R: seq<nat>, SA: seq<int>)
    requires NamesOk(T, R) && IsSuffixArray(R, SA)
    ensures forall r, s :: 0 <= r < s < |SA| ==> Less(T, LmsFrom(T, 0)[SA[r]], LmsFrom(T, 0)[SA[s]])
  {
    forall r, s | 0 <= r < s < |SA| ensures Less(T, LmsFrom(T, 0)[SA[r]], LmsFrom(T, 0)[SA[s]]) {
      if SA[r] == SA[s] { LessIrreflexive(R, SA[r]); }
      Reduction(T, R, SA[r], SA[s]);
    }
  }

  /** Two LMS positions are at least two apart, and none is the last position. */
  lemma LmsApart(T: Text, p: nat, q: nat)
    requires p <= |T| && q <= |T| && IsLms(T, p) && IsLms(T, q)
    ensures p + 1 < |T|
    ensures p < q ==> p + 2 <= q
  {
  }
}
