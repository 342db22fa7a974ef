/** search and matchlen of bsdiff.c: binary search over the sorted suffixes of the old
    file for a long prefix of the rest of the new file. */
module Search {
  import opened Suffixes
  import opened LmsNames

  /** Length of the longest common prefix of src[p..] and nw[q..]. */
  ghost function Lcp(src: Text, p: nat, nw: Text, q: nat): (r: nat)
    requires p <= |src| && q <= |nw|
    ensures p + r <= |src| && q + r <= |nw|
    decreases |src| - p
  {
    if p < |src| && q < |nw| && src[p] == nw[q] then 1 + Lcp(src, p + 1, nw, q + 1) else 0
  }

  lemma {:induction false} LcpMeaning(src: Text, p: nat, nw: Text, q: nat)
    requires p <= |src| && q <= |nw|
    ensures var l := Lcp(src, p, nw, q);
      && src[p..p + l] == nw[q..q + l]
      && (p + l < |src| && q + l < |nw| ==> src[p + l] != nw[q + l])
    decreases |src| - p
  {
    var l := Lcp(src, p, nw, q);
    if l > 0 {
      LcpMeaning(src, p + 1, nw, q + 1);
      assert src[p..p + l] == [src[p]] + src[p + 1..p + 1 + (l - 1)];
      assert nw[q..q + l] == [nw[q]] + nw[q + 1..q + 1 + (l - 1)];
    }
  }

  /** A common prefix of length d is within the longest one. */
  lemma {:induction false} LcpAtLeast(src: Text, p: nat, nw: Text, q: nat, d: nat)
    requires p + d <= |src| && q + d <= |nw| && src[p..p + d] == nw[q..q + d]
    ensures d <= Lcp(src, p, nw, q)
    decreases d
  {
    if d > 0 {
      assert src[p] == src[p..p + d][0] == nw[q];
      assert src[p + 1..p + 1 + (d - 1)] == src[p..p + d][1..] && nw[q + 1..q + 1 + (d - 1)] == nw[q..q + d][1..];
      LcpAtLeast(src, p + 1, nw, q + 1, d - 1);
    }
  }

  method MatchLen(src: Text, p: nat, nw: Text, q: nat) returns (i: nat)
    requires p <= |src| && q <= |nw|
    ensures i == Lcp(src, p, nw, q)
  {
    i := 0;
    while p + i < |src| && q + i < |nw|
      invariant p + i <= |src| && q + i <= |nw|
      invariant Lcp(src, p, nw, q) == i + Lcp(src, p + i, nw, q + i)
    {
      if src[p + i] != nw[q + i] { break; }
      i := i + 1;
    }
  }

  /** I lists all suffixes of src in increasing order, the empty one first. */
  ghost predicate Sorted(src: Text, I: seq<int>) {
    && |I| == |src| + 1 && I[0] == |src|
    && (forall r :: 0 <= r < |I| ==> 0 <= I[r] <= |src|)
    && (forall r, s :: 0 <= r < s < |I| ==> Less(src, I[r], I[s]))
    && (forall p :: 0 <= p <= |src| ==> p in I)
  }

  lemma SortedFromSuffixArray(src: Text, SA: seq<int>)
    requires IsSuffixArray(src, SA)
    ensures Sorted(src, [|src|] + SA)
  {
    hide Less;
    var I := [|src|] + SA;
    forall r, s | 0 <= r < s < |I| ensures Less(src, I[r], I[s]) {
      if r == 0 { EmptyFirst(src, I[s]); }
    }
    forall p | 0 <= p <= |src| ensures p in I {
      if p == |src| { assert I[0] == p; } else { assert p in SA; }
    }
  }

  lemma EmptyFirst(src: Text, p: nat)
    requires p < |src|
    ensures Less(src, |src|, p)
  {
  }

  /** What memcmp reports as below: over the shorter of the two lengths only, so a suffix
      that is a prefix of the query is not below it. */
  ghost predicate ProbeLess(src: Text, p: nat, nw: Text, q: nat)
    requires p <= |src| && q <= |nw|
  {
    var l := Lcp(src, p, nw, q);
    p + l < |src| && q + l < |nw| && src[p + l] < nw[q + l]
  }

  /** Suffix p is a proper prefix of the query: it runs out first. */
  ghost predicate ProperPrefix(src: Text, p: nat, nw: Text, q: nat)
    requires p <= |src| && q <= |nw|
  {
    var l := Lcp(src, p, nw, q);
    p + l == |src| && q + l < |nw|
  }

  /** Among suffixes below the query, later ones share no less with it. */
  lemma CloserBelow(src: Text, x: nat, y: nat, nw: Text, q: nat)
    requires x <= |src| && y <= |src| && q <= |nw| && Less(src, x, y)
    requires ProbeLess(src, y, nw, q) || ProperPrefix(src, y, nw, q)
    ensures Lcp(src, x, nw, q) <= Lcp(src, y, nw, q)
  {
    var l := Lcp(src, y, nw, q);
    if Lcp(src, x, nw, q) > l {
      NotBelow(src, x, y, nw, q, l);
      LessTotal(src, x, y);
    }
  }

  lemma Shorter(a: Text, x: nat, b: Text, q: nat, m: nat, l: nat)
    requires x + m <= |a| && q + m <= |b| && a[x..x + m] == b[q..q + m] && l < m
    ensures a[x..x + l] == b[q..q + l] && a[x + l] == b[q + l]
  {
    assert a[x..x + l] == a[x..x + m][..l];
    assert b[q..q + l] == b[q..q + m][..l];
    assert a[x + l] == a[x..x + m][l] && b[q + l] == b[q..q + m][l];
  }

  lemma NotBelow(src: Text, x: nat, y: nat, nw: Text, q: nat, l: nat)
    requires x <= |src| && y <= |src| && q <= |nw| && x != y
    requires l == Lcp(src, y, nw, q) < Lcp(src, x, nw, q)
    requires ProbeLess(src, y, nw, q) || ProperPrefix(src, y, nw, q)
    ensures Less(src, y, x)
  {
    hide Lcp;
    LcpMeaning(src, x, nw, q);
    LcpMeaning(src, y, nw, q);
    var m := Lcp(src, x, nw, q);
    Shorter(src, x, nw, q, m, l);
    SkipEqual(src, y, x, l);
  }

  /** Among suffixes not below the query, earlier ones share no less with it. */
  lemma CloserAbove(src: Text, y: nat, z: nat, nw: Text, q: nat)
    requires y <= |src| && z <= |src| && q <= |nw| && Less(src, y, z)
    requires !ProbeLess(src, y, nw, q) && !ProperPrefix(src, y, nw, q)
    ensures Lcp(src, z, nw, q) <= Lcp(src, y, nw, q)
  {
    var l := Lcp(src, y, nw, q);
    if Lcp(src, z, nw, q) > l {
      NotAbove(src, y, z, nw, q, l);
      LessTotal(src, y, z);
    }
  }

  lemma NotAbove(src: Text, y: nat, z: nat, nw: Text, q: nat, l: nat)
    requires y <= |src| && z <= |src| && q <= |nw| && y != z
    requires l == Lcp(src, y, nw, q) < Lcp(src, z, nw, q)
    requires !ProbeLess(src, y, nw, q) && !ProperPrefix(src, y, nw, q)
    ensures Less(src, z, y)
  {
    hide Lcp;
    LcpMeaning(src, z, nw, q);
    LcpMeaning(src, y, nw, q);
    var m := Lcp(src, z, nw, q);
    Shorter(src, z, nw, q, m, l);
    SkipEqual(src, z, y, l);
  }

  // ---- quality of the result

  /** No suffix of src shares more than len characters with the query. */
  ghost predicate Longest(src: Text, nw: Text, q: nat, len: int)
    requires q <= |nw|
  {
    forall p :: 0 <= p <= |src| ==> Lcp(src, p, nw, q) <= len
  }

  /** Some suffix listed from st to en shares as much with the query as any. */
  ghost predicate Covers(I: seq<int>, src: Text, nw: Text, q: nat, st: int, en: int)
    requires q <= |nw| && Sorted(src, I) && 0 <= st <= en < |I|
  {
    exists r :: st <= r <= en && Longest(src, nw, q, Lcp(src, I[r], nw, q))
  }

  /** The probes of the binary search meet no suffix that is a proper prefix of the query
      while a longer match exists: there memcmp sends the search the wrong way. */
  ghost predicate ProbesSafe(I: seq<int>, src: Text, nw: Text, q: nat, st: int, en: int)
    requires q <= |nw| && Sorted(src, I) && 0 <= st <= en < |I|
    decreases en - st
  {
    en - st < 2 ||
    var x := st + (en - st) / 2;
    if ProbeLess(src, I[x], nw, q) then ProbesSafe(I, src, nw, q, x, en)
    else (ProperPrefix(src, I[x], nw, q) ==> Longest(src, nw, q, Lcp(src, I[x], nw, q))) && ProbesSafe(I, src, nw, q, st, x)
  }

  /** Some suffix listed from st to en begins with the first character of the query. */
  ghost predicate HasFirst(I: seq<int>, src: Text, c: nat, st: int, en: int)
    requires Sorted(src, I) && 0 <= st <= en < |I|
  {
    exists r :: st <= r <= en && I[r] < |src| && src[I[r]] == c
  }

  lemma FirstChars(I: seq<int>, src: Text, r: int, s: int)
    requires Sorted(src, I) && 0 <= r < s < |I| && I[r] < |src|
    ensures I[s] < |src| && src[I[r]] <= src[I[s]]
  {
    assert Less(src, I[r], I[s]);
  }

  lemma KeepFirst(I: seq<int>, src: Text, nw: Text, q: nat, st: int, en: int, x: int)
    requires Sorted(src, I) && q < |nw| && 0 <= st < x < en < |I| && HasFirst(I, src, nw[q], st, en)
    ensures if ProbeLess(src, I[x], nw, q) then HasFirst(I, src, nw[q], x, en) else HasFirst(I, src, nw[q], st, x)
  {
    var r :| st <= r <= en && I[r] < |src| && src[I[r]] == nw[q];
    assert Less(src, I[0], I[x]);
    hide Less;
    if r < x { FirstChars(I, src, r, x); }
    if x < r { FirstChars(I, src, x, r); }
  }

  lemma KeepRight(I: seq<int>, src: Text, nw: Text, q: nat, st: int, en: int, x: int)
    requires Sorted(src, I) && q <= |nw| && 0 <= st < x < en < |I| && Covers(I, src, nw, q, st, en)
    requires ProbeLess(src, I[x], nw, q)
    ensures Covers(I, src, nw, q, x, en)
  {
    hide Less, ProbeLess, Lcp;
    var r :| st <= r <= en && Longest(src, nw, q, Lcp(src, I[r], nw, q));
    if r < x { CloserBelow(src, I[r], I[x], nw, q); }
  }

  lemma KeepLeft(I: seq<int>, src: Text, nw: Text, q: nat, st: int, en: int, x: int)
    requires Sorted(src, I) && q <= |nw| && 0 <= st < x < en < |I| && Covers(I, src, nw, q, st, en)
    requires !ProbeLess(src, I[x], nw, q)
    requires ProperPrefix(src, I[x], nw, q) ==> Longest(src, nw, q, Lcp(src, I[x], nw, q))
    ensures Covers(I, src, nw, q, st, x)
  {
    hide Less, ProbeLess, ProperPrefix, Lcp;
    var r :| st <= r <= en && Longest(src, nw, q, Lcp(src, I[r], nw, q));
    if x < r && !ProperPrefix(src, I[x], nw, q) { CloserAbove(src, I[x], I[r], nw, q); }
  }

  /** Left of a proper prefix of the query nothing shares more with the query. */
  lemma StuckLeft(I: seq<int>, src: Text, nw: Text, q: nat, x: int, r: int)
    requires Sorted(src, I) && q <= |nw| && 0 <= r <= x < |I| && ProperPrefix(src, I[x], nw, q)
    ensures Lcp(src, I[r], nw, q) <= Lcp(src, I[x], nw, q)
  {
    hide Less, ProperPrefix, Lcp;
    if r < x { CloserBelow(src, I[r], I[x], nw, q); }
  }

  /** What a search from st to en returns: a listed suffix with its exact match length,
      which is positive if some suffix in range begins like the query, and longest exactly
      when no probe goes wrong. */
  ghost predicate SearchResult(I: seq<int>, src: Text, nw: Text, q: nat, st: int, en: int, pos: int, len: int)
    requires q <= |nw| && Sorted(src, I) && 0 <= st <= en < |I|
  {
    && (exists r :: st <= r <= en && pos == I[r])
    && 0 <= pos <= |src| && len == Lcp(src, pos, nw, q)
    && (q < |nw| && HasFirst(I, src, nw[q], st, en) ==> len > 0)
    && (Covers(I, src, nw, q, st, en) ==> (Longest(src, nw, q, len) <==> ProbesSafe(I, src, nw, q, st, en)))
  }

  method Memcmp(src: Text, p: nat, nw: Text, q: nat) returns (less: bool)
    requires p <= |src| && q <= |nw|
    ensures less <==> ProbeLess(src, p, nw, q)
  {
    var l := MatchLen(src, p, nw, q);
    less := p + l < |src| && q + l < |nw| && src[p + l] < nw[q + l];
  }

  method SearchRange(I: seq<int>, src: Text, nw: Text, q: nat, st: nat, en: nat) returns (len: nat, pos: nat)
    requires q <= |nw| && Sorted(src, I) && st <= en < |I|
    ensures SearchResult(I, src, nw, q, st, en, pos, len)
    decreases en - st
  {
    if en - st < 2 {
      var x := MatchLen(src, I[st], nw, q);
      var y := MatchLen(src, I[en], nw, q);
      if x > y {
        pos, len := I[st], x;
      } else {
        pos, len := I[en], y;
      }
      BaseResult(I, src, nw, q, st, en, pos, len);
      return;
    }
    var x := st + (en - st) / 2;
    var less := Memcmp(src, I[x], nw, q);
    if less {
      len, pos := SearchRange(I, src, nw, q, x, en);
      RightResult(I, src, nw, q, st, en, x, pos, len);
    } else {
      len, pos := SearchRange(I, src, nw, q, st, x);
      LeftResult(I, src, nw, q, st, en, x, pos, len);
    }
  }

  lemma BaseResult(I: seq<int>, src: Text, nw: Text, q: nat, st: int, en: int, pos: nat, len: nat)
    requires q <= |nw| && Sorted(src, I) && 0 <= st <= en < |I| && en - st < 2
    requires pos == I[st] || pos == I[en]
    requires len == Lcp(src, pos, nw, q) && Lcp(src, I[st], nw, q) <= len && Lcp(src, I[en], nw, q) <= len
    ensures SearchResult(I, src, nw, q, st, en, pos, len)
  {
    hide Less;
  }

  lemma RightResult(I: seq<int>, src: Text, nw: Text, q: nat, st: int, en: int, x: int, pos: nat, len: nat)
    requires q <= |nw| && Sorted(src, I) && 0 <= st < x < en < |I| && x == st + (en - st) / 2
    requires ProbeLess(src, I[x], nw, q) && SearchResult(I, src, nw, q, x, en, pos, len)
    ensures SearchResult(I, src, nw, q, st, en, pos, len)
  {
    hide Less, Lcp, Covers, HasFirst, ProbeLess, ProperPrefix, Longest;
    if q < |nw| && HasFirst(I, src, nw[q], st, en) { KeepFirst(I, src, nw, q, st, en, x); }
    if Covers(I, src, nw, q, st, en) { KeepRight(I, src, nw, q, st, en, x); }
  }

  lemma LeftResult(I: seq<int>, src: Text, nw: Text, q: nat, st: int, en: int, x: int, pos: nat, len: nat)
    requires q <= |nw| && Sorted(src, I) && 0 <= st < x < en < |I| && x == st + (en - st) / 2
    requires !ProbeLess(src, I[x], nw, q) && SearchResult(I, src, nw, q, st, x, pos, len)
    ensures SearchResult(I, src, nw, q, st, en, pos, len)
  {
    hide Less, Lcp, Covers, HasFirst, ProbeLess, ProperPrefix;
    if q < |nw| && HasFirst(I, src, nw[q], st, en) { KeepFirst(I, src, nw, q, st, en, x); }
    if Covers(I, src, nw, q, st, en) {
      if ProperPrefix(src, I[x], nw, q) && !Longest(src, nw, q, Lcp(src, I[x], nw, q)) {
        var r :| st <= r <= x && pos == I[r];
        StuckLeft(I, src, nw, q, x, r);
      } else {
        KeepLeft(I, src, nw, q, st, en, x);
      }
    }
  }

  // ---- the search over all suffixes

  lemma BestOf(I: seq<int>, src: Text, nw: Text, q: nat, n: nat) returns (r: nat)
    requires q <= |nw| && Sorted(src, I) && 0 < n <= |I|
    ensures r < n && forall s :: 0 <= s < n ==> Lcp(src, I[s], nw, q) <= Lcp(src, I[r], nw, q)
  {
    hide Lcp, Less;
    r := 0;
    for i := 1 to n
      invariant r < i && forall s :: 0 <= s < i ==> Lcp(src, I[s], nw, q) <= Lcp(src, I[r], nw, q)
    {
      if Lcp(src, I[r], nw, q) < Lcp(src, I[i], nw, q) { r := i; }
    }
  }

  lemma WholeRange(I: seq<int>, src: Text, nw: Text, q: nat)
    requires q <= |nw| && Sorted(src, I)
    ensures Covers(I, src, nw, q, 0, |src|)
    ensures q < |nw| && nw[q] in src ==> HasFirst(I, src, nw[q], 0, |src|)
  {
    hide Lcp, Less;
    var r := BestOf(I, src, nw, q, |I|);
    forall p | 0 <= p <= |src| ensures Lcp(src, p, nw, q) <= Lcp(src, I[r], nw, q) { assert p in I; }
    if q < |nw| && nw[q] in src {
      var p :| 0 <= p < |src| && src[p] == nw[q];
      assert p in I;
    }
  }

  /** A possible answer of the search at q: a match that cannot be extended, empty only if
      the next character does not occur in the old file at all, and a longest one exactly
      when no probe goes wrong. */
  ghost predicate Found(I: seq<int>, src: Text, nw: Text, q: nat, pos: int, len: int)
    requires q <= |nw| && Sorted(src, I)
  {
    && 0 <= pos <= |src| && len == Lcp(src, pos, nw, q)
    && (q < |nw| ==> (len > 0 <==> nw[q] in src))
    && (Longest(src, nw, q, len) <==> ProbesSafe(I, src, nw, q, 0, |src|))
  }

  /** The call made by the differ: all suffixes are searched. */
  method FindMatchAt(I: seq<int>, src: Text, nw: Text, q: nat) returns (len: nat, pos: nat)
    requires q <= |nw| && Sorted(src, I)
    ensures pos + len <= |src| && q + len <= |nw| && src[pos..pos + len] == nw[q..q + len]
    ensures Found(I, src, nw, q, pos, len)
  {
    len, pos := SearchRange(I, src, nw, q, 0, |src|);
    WholeRange(I, src, nw, q);
    LcpMeaning(src, pos, nw, q);
    assert len > 0 ==> src[pos..pos + len][0] == nw[q..q + len][0];
  }

  /** A condition a caller can check beforehand: if no non-empty suffix of the old file is
      a proper prefix of the query, the match found is a longest one. */
  lemma {:induction false} SafeWithoutPrefixes(I: seq<int>, src: Text, nw: Text, q: nat, st: nat, en: nat)
    requires q <= |nw| && Sorted(src, I) && st <= en < |I|
    requires forall p :: 0 <= p < |src| ==> !ProperPrefix(src, p, nw, q)
    ensures ProbesSafe(I, src, nw, q, st, en)
    decreases en - st
  {
    if en - st >= 2 {
      var x := st + (en - st) / 2;
      hide Less, Lcp;
      assert Less(src, I[0], I[x]);
      LessDistinct(src, I[0], I[x]);
      SafeWithoutPrefixes(I, src, nw, q, x, en);
      SafeWithoutPrefixes(I, src, nw, q, st, x);
    }
  }

  /** In terms of the files: if no rest of the old file is a proper prefix of the query, no
      part of the old file is a longer prefix of it than the one found. */
  lemma SearchMeaning(I: seq<int>, src: Text, nw: Text, q: nat, pos: nat, len: nat)
    requires q <= |nw| && Sorted(src, I) && Found(I, src, nw, q, pos, len)
    ensures pos + len <= |src| && q + len <= |nw| && src[pos..pos + len] == nw[q..q + len]
    ensures (forall p :: 0 <= p < |src| ==> !(q + |src[p..]| < |nw| && src[p..] == nw[q..q + |src[p..]|])) ==>
      forall a, b :: 0 <= a <= b <= |src| && q + (b - a) <= |nw| && src[a..b] == nw[q..q + (b - a)] ==> b - a <= len
  {
    hide Sorted, ProbesSafe;
    LcpMeaning(src, pos, nw, q);
    if forall p :: 0 <= p < |src| ==> !(q + |src[p..]| < |nw| && src[p..] == nw[q..q + |src[p..]|]) {
      forall p | 0 <= p < |src| ensures !ProperPrefix(src, p, nw, q) {
        LcpMeaning(src, p, nw, q);
        assert src[p..] == src[p..|src|];
      }
      IndexLength(I, src);
      SafeWithoutPrefixes(I, src, nw, q, 0, |src|);
      forall a, b | 0 <= a <= b <= |src| && q + (b - a) <= |nw| && src[a..b] == nw[q..q + (b - a)] ensures b - a <= len {
        assert src[a..a + (b - a)] == src[a..b];
        LcpAtLeast(src, a, nw, q, b - a);
      }
    }
  }

  lemma IndexLength(I: seq<int>, src: Text)
    requires Sorted(src, I)
    ensures |I| == |src| + 1
  {
  }

  lemma LessDistinct(T: Text, i: nat, j: nat)
    requires i <= |T| && j <= |T| && Less(T, i, j)
    ensures i != j
  {
    LessIrreflexive(T, i);
  }

  /** The search is not longest on every input: with old file "aba" and query "ab" the
      probe at suffix "a", a prefix of the query, sends it left of suffix "aba". */
  lemma SearchCanMiss()
    ensures var src, nw, I := [97, 98, 97], [97, 98], [3, 2, 0, 1];
      Sorted(src, I) && !ProbesSafe(I, src, nw, 0, 0, 3) && Lcp(src, 0, nw, 0) == 2
  {
    var src: Text, nw: Text, I := [97, 98, 97], [97, 98], [3, 2, 0, 1];
    assert Lcp(src, 0, nw, 0) == 2 by {
      assert Lcp(src, 2, nw, 2) == 0;
      assert Lcp(src, 1, nw, 1) == 1;
    }
    assert Lcp(src, 2, nw, 0) == 1 by { assert Lcp(src, 3, nw, 1) == 0; }
    assert Less(src, 3, 2) && Less(src, 3, 0) && Less(src, 3, 1);
    assert Less(src, 2, 0) by { assert Less(src, 3, 1); }
    assert Less(src, 2, 1) && Less(src, 0, 1);
    forall p | 0 <= p <= |src| ensures p in I {
      assert I[0] == 3 && I[1] == 2 && I[2] == 0 && I[3] == 1;
    }
    assert ProperPrefix(src, I[1], nw, 0) && !Longest(src, nw, 0, 1);
  }
}
