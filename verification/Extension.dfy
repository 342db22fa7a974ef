/** The scoring and match-extension loops of bsdiff.c, each proved to compute an optimum. */
module Extension {
  import opened Suffixes

  /** 1 if position t of the new file equals the old file at t + off, else 0. */
  function Hit(src: Text, nw: Text, off: int, t: int): int {
    if 0 <= t < |nw| && 0 <= t + off < |src| && src[t + off] == nw[t] then 1 else 0
  }

  /** Matching positions in nw[a..b) against the old file shifted by off. */
  ghost function Hits(src: Text, nw: Text, off: int, a: int, b: int): (h: nat)
    ensures a <= b ==> h <= b - a
    decreases b - a
  {
    if b <= a then 0 else Hits(src, nw, off, a, b - 1) + Hit(src, nw, off, b - 1)
  }

  lemma {:induction false} HitsSplit(src: Text, nw: Text, off: int, a: int, m: int, b: int)
    requires a <= m <= b
    ensures Hits(src, nw, off, a, b) == Hits(src, nw, off, a, m) + Hits(src, nw, off, m, b)
    decreases b - m
  {
    if m < b { HitsSplit(src, nw, off, a, m, b - 1); }
  }

  /** As a count of positions. */
  lemma {:induction false} HitsMeaning(src: Text, nw: Text, off: int, a: int, b: int)
    ensures Hits(src, nw, off, a, b) == |set t | a <= t < b && 0 <= t < |nw| && 0 <= t + off < |src| && src[t + off] == nw[t]|
    decreases b - a
  {
    var now := set t | a <= t < b && 0 <= t < |nw| && 0 <= t + off < |src| && src[t + off] == nw[t];
    if a < b {
      HitsMeaning(src, nw, off, a, b - 1);
      var before := set t | a <= t < b - 1 && 0 <= t < |nw| && 0 <= t + off < |src| && src[t + off] == nw[t];
      assert now == if Hit(src, nw, off, b - 1) == 1 then before + {b - 1} else before;
    } else {
      assert now == {};
    }
  }

  /** Where the files agree, every position counts. */
  lemma {:induction false} AllHits(src: Text, nw: Text, off: int, a: nat, b: nat)
    requires a <= b <= |nw| && 0 <= a + off && b + off <= |src| && nw[a..b] == src[a + off..b + off]
    ensures Hits(src, nw, off, a, b) == b - a
    decreases b - a
  {
    if a < b {
      assert nw[a..b][b - 1 - a] == nw[b - 1] && src[a + off..b + off][b - 1 - a] == src[b - 1 + off];
      assert nw[a..b - 1] == nw[a..b][..b - 1 - a] == src[a + off..b - 1 + off];
      AllHits(src, nw, off, a, b - 1);
    }
  }

  /** What extending the previous match forward by i characters is worth: every match
      counts double. */
  ghost function ForwardGain(src: Text, nw: Text, off: int, start: int, i: int): int {
    2 * Hits(src, nw, off, start, start + i) - i
  }

  /** The same for extending the next match backward. */
  ghost function BackwardGain(src: Text, nw: Text, off: int, end: int, i: int): int {
    2 * Hits(src, nw, off, end - i, end) - i
  }

  /** The extension stays within the new file up to scan and within the old file. */
  ghost function ForwardBound(src: Text, lastscan: int, lastpos: int, scan: int): int {
    if scan - lastscan < |src| - lastpos then scan - lastscan else |src| - lastpos
  }

  /** len is the shortest length, up to bound, of the greatest forward gain. */
  ghost predicate BestForward(src: Text, nw: Text, off: int, start: int, bound: int, len: int) {
    && 0 <= len <= bound
    && (forall i :: 0 <= i <= bound ==> ForwardGain(src, nw, off, start, i) <= ForwardGain(src, nw, off, start, len))
    && (forall i :: 0 <= i < len ==> ForwardGain(src, nw, off, start, i) < ForwardGain(src, nw, off, start, len))
  }

  ghost predicate BestBackward(src: Text, nw: Text, off: int, end: int, bound: int, len: int) {
    && 0 <= len <= bound
    && (forall i :: 0 <= i <= bound ==> BackwardGain(src, nw, off, end, i) <= BackwardGain(src, nw, off, end, len))
    && (forall i :: 0 <= i < len ==> BackwardGain(src, nw, off, end, i) < BackwardGain(src, nw, off, end, len))
  }

  /** One length more: the best so far, or this one if it is worth more. */
  lemma ForwardStep(src: Text, nw: Text, off: int, start: int, i: int, len: int)
    requires BestForward(src, nw, off, start, i, len)
    ensures if ForwardGain(src, nw, off, start, i + 1) > ForwardGain(src, nw, off, start, len)
            then BestForward(src, nw, off, start, i + 1, i + 1) else BestForward(src, nw, off, start, i + 1, len)
  {
    hide ForwardGain;
  }

  lemma BackwardStep(src: Text, nw: Text, off: int, end: int, i: int, len: int)
    requires BestBackward(src, nw, off, end, i, len)
    ensures if BackwardGain(src, nw, off, end, i + 1) > BackwardGain(src, nw, off, end, len)
            then BestBackward(src, nw, off, end, i + 1, i + 1) else BestBackward(src, nw, off, end, i + 1, len)
  {
    hide BackwardGain;
  }

  lemma NoExtension(src: Text, nw: Text, off: int, at: int)
    ensures BestForward(src, nw, off, at, 0, 0) && BestBackward(src, nw, off, at, 0, 0)
    ensures Hits(src, nw, off, at, at) == 0
  {
  }

  /** In terms of the files: of all ends up to scan and the end of the old file, the chosen
      one has most hits, counted double, against its length, and is the first such; so it is
      not before the end of a part on which the files agree. */
  lemma ForwardMeaning(src: Text, nw: Text, lastscan: nat, lastpos: nat, scan: nat, lenf: int)
    requires lastscan <= scan <= |nw| && lastpos <= |src|
    requires BestForward(src, nw, lastpos - lastscan, lastscan, ForwardBound(src, lastscan, lastpos, scan), lenf)
    ensures 0 <= lenf && lastscan + lenf <= scan && lastpos + lenf <= |src|
    ensures var off, end := lastpos - lastscan, lastscan + lenf;
      && (forall e :: lastscan <= e <= scan && e + off <= |src| ==>
            2 * Hits(src, nw, off, lastscan, e) - e <= 2 * Hits(src, nw, off, lastscan, end) - end)
      && (forall e :: lastscan <= e < end ==>
            2 * Hits(src, nw, off, lastscan, e) - e < 2 * Hits(src, nw, off, lastscan, end) - end)
      && (forall e :: lastscan <= e <= scan && e + off <= |src| && nw[lastscan..e] == src[lastpos..e + off] ==> e <= end)
  {
    hide Hits;
    var off, end := lastpos - lastscan, lastscan + lenf;
    forall e | lastscan <= e <= scan && e + off <= |src|
      ensures 2 * Hits(src, nw, off, lastscan, e) - e <= 2 * Hits(src, nw, off, lastscan, end) - end
      ensures nw[lastscan..e] == src[lastpos..e + off] ==> e <= end
    {
      assert ForwardGain(src, nw, off, lastscan, e - lastscan) <= ForwardGain(src, nw, off, lastscan, lenf);
      if nw[lastscan..e] == src[lastpos..e + off] { AllHits(src, nw, off, lastscan, e); }
    }
    forall e | lastscan <= e < end
      ensures 2 * Hits(src, nw, off, lastscan, e) - e < 2 * Hits(src, nw, off, lastscan, end) - end
    {
      assert ForwardGain(src, nw, off, lastscan, e - lastscan) < ForwardGain(src, nw, off, lastscan, lenf);
    }
  }

  method ExtendForward(src: Text, nw: Text, lastscan: nat, lastpos: nat, scan: nat) returns (lenf: nat)
    requires lastscan <= scan <= |nw| && lastpos <= |src|
    ensures BestForward(src, nw, lastpos - lastscan, lastscan, ForwardBound(src, lastscan, lastpos, scan), lenf)
    ensures var off, end := lastpos - lastscan, lastscan + lenf;
      && end <= scan && end + off <= |src|
      && (forall e :: lastscan <= e <= scan && e + off <= |src| ==>
            2 * Hits(src, nw, off, lastscan, e) - e <= 2 * Hits(src, nw, off, lastscan, end) - end)
      && (forall e :: lastscan <= e <= scan && e + off <= |src| && nw[lastscan..e] == src[lastpos..e + off] ==> e <= end)
  {
    hide Hits, BestForward, ForwardBound;
    var s, Sf, i := 0, 0, 0;
    ghost var off := lastpos - lastscan;
    lenf := 0;
    NoExtension(src, nw, off, lastscan);
    while lastscan + i < scan && lastpos + i < |src|
      invariant 0 <= i && lastscan + i <= scan && lastpos + i <= |src|
      invariant s == Hits(src, nw, off, lastscan, lastscan + i)
      invariant Sf == Hits(src, nw, off, lastscan, lastscan + lenf)
      invariant BestForward(src, nw, off, lastscan, i, lenf)
    {
      ForwardStep(src, nw, off, lastscan, i, lenf);
      HitsNext(src, nw, off, lastscan, lastscan + i);
      if src[lastpos + i] == nw[lastscan + i] { s := s + 1; }
      i := i + 1;
      assert lastscan + (i - 1) + 1 == lastscan + i;
      if s * 2 - i > Sf * 2 - lenf {
        Sf := s;
        lenf := i;
      }
    }
    BoundReached(src, lastscan, lastpos, scan, i);
    ForwardMeaning(src, nw, lastscan, lastpos, scan, lenf);
  }

  lemma BoundReached(src: Text, lastscan: nat, lastpos: nat, scan: nat, i: nat)
    requires lastscan + i <= scan && lastpos + i <= |src| && (lastscan + i == scan || lastpos + i == |src|)
    ensures ForwardBound(src, lastscan, lastpos, scan) == i
  {
  }

  lemma HitsNext(src: Text, nw: Text, off: int, a: int, b: int)
    requires a <= b
    ensures Hits(src, nw, off, a, b + 1) == Hits(src, nw, off, a, b) + Hit(src, nw, off, b)
  {
  }

  lemma HitsBefore(src: Text, nw: Text, off: int, a: int, b: int)
    requires a < b
    ensures Hits(src, nw, off, a, b) == Hit(src, nw, off, a) + Hits(src, nw, off, a + 1, b)
  {
    HitsSplit(src, nw, off, a, a + 1, b);
    assert Hits(src, nw, off, a, a) == 0;
  }

  /** The backward extension stops at the previous match and at the start of the old file. */
  ghost function BackwardBound(lastscan: int, scan: int, pos: int): int {
    if scan - lastscan < pos then scan - lastscan else pos
  }

  /** In terms of the files, like ForwardMeaning. */
  lemma BackwardMeaning(src: Text, nw: Text, lastscan: nat, scan: nat, pos: nat, lenb: int)
    requires lastscan <= scan <= |nw| && pos <= |src|
    requires BestBackward(src, nw, pos - scan, scan, BackwardBound(lastscan, scan, pos), lenb)
    ensures 0 <= lenb <= pos && lastscan + lenb <= scan
    ensures var off, start := pos - scan, scan - lenb;
      && (forall e :: lastscan <= e <= scan && 0 <= e + off ==>
            2 * Hits(src, nw, off, e, scan) + e <= 2 * Hits(src, nw, off, start, scan) + start)
      && (forall e :: start < e <= scan ==> 2 * Hits(src, nw, off, e, scan) + e < 2 * Hits(src, nw, off, start, scan) + start)
      && (forall e :: lastscan <= e <= scan && 0 <= e + off && nw[e..scan] == src[e + off..pos] ==> start <= e)
  {
    hide Hits, BackwardGain;
    var off, start := pos - scan, scan - lenb;
    forall e | lastscan <= e <= scan && 0 <= e + off
      ensures 2 * Hits(src, nw, off, e, scan) + e <= 2 * Hits(src, nw, off, start, scan) + start
      ensures nw[e..scan] == src[e + off..pos] ==> start <= e
    {
      assert BackwardGain(src, nw, off, scan, scan - e) <= BackwardGain(src, nw, off, scan, lenb);
      GainFrom(src, nw, off, e, scan);
      GainFrom(src, nw, off, start, scan);
      if nw[e..scan] == src[e + off..pos] { AllHits(src, nw, off, e, scan); }
    }
    forall e | start < e <= scan ensures 2 * Hits(src, nw, off, e, scan) + e < 2 * Hits(src, nw, off, start, scan) + start {
      assert BackwardGain(src, nw, off, scan, scan - e) < BackwardGain(src, nw, off, scan, lenb);
      GainFrom(src, nw, off, e, scan);
      GainFrom(src, nw, off, start, scan);
    }
  }

  lemma GainFrom(src: Text, nw: Text, off: int, e: int, end: int)
    ensures BackwardGain(src, nw, off, end, end - e) == 2 * Hits(src, nw, off, e, end) - (end - e)
  {
    hide Hits;
    assert end - (end - e) == e;
  }

  method ExtendBackward(src: Text, nw: Text, lastscan: nat, scan: nat, pos: nat) returns (lenb: nat)
    requires lastscan <= scan <= |nw| && pos <= |src|
    ensures if scan == |nw| then lenb == 0
            else BestBackward(src, nw, pos - scan, scan, BackwardBound(lastscan, scan, pos), lenb)
    ensures lenb <= pos && lastscan + lenb <= scan
    ensures scan < |nw| ==> var off, start := pos - scan, scan - lenb;
      && (forall e :: lastscan <= e <= scan && 0 <= e + off ==>
            2 * Hits(src, nw, off, e, scan) + e <= 2 * Hits(src, nw, off, start, scan) + start)
      && (forall e :: lastscan <= e <= scan && 0 <= e + off && nw[e..scan] == src[e + off..pos] ==> start <= e)
  {
    hide Hits, BestBackward, BackwardBound;
    lenb := 0;
    if scan < |nw| {
      var s, Sb, i := 0, 0, 1;
      ghost var off := pos - scan;
      NoExtension(src, nw, off, scan);
      while scan >= lastscan + i && pos >= i
        invariant 0 < i && lastscan + (i - 1) <= scan && i - 1 <= pos
        invariant s == Hits(src, nw, off, scan - (i - 1), scan)
        invariant Sb == Hits(src, nw, off, scan - lenb, scan)
        invariant BestBackward(src, nw, off, scan, i - 1, lenb)
      {
        BackwardStep(src, nw, off, scan, i - 1, lenb);
        HitsBefore(src, nw, off, scan - i, scan);
        assert scan - i + 1 == scan - (i - 1);
        if src[pos - i] == nw[scan - i] { s := s + 1; }
        if s * 2 - i > Sb * 2 - lenb {
          Sb := s;
          lenb := i;
        }
        i := i + 1;
      }
      BackwardReached(lastscan, scan, pos, i - 1);
      BackwardMeaning(src, nw, lastscan, scan, pos, lenb);
    }
  }

  lemma BackwardReached(lastscan: nat, scan: nat, pos: nat, i: nat)
    requires lastscan + i <= scan && i <= pos && (lastscan + i == scan || i == pos)
    ensures BackwardBound(lastscan, scan, pos) == i
  {
  }

  /** Matches in nw[from..from + overlap) when its first i characters go with the previous
      match (shift f) and the others with the next one (shift b). */
  ghost function SplitHits(src: Text, nw: Text, f: int, b: int, from: int, overlap: int, i: int): int {
    Hits(src, nw, f, from, from + i) + Hits(src, nw, b, from + i, from + overlap)
  }

  /** Of all ways to divide the overlap, lens gives most matching characters, and as little
      as possible to the previous match. */
  ghost predicate BestSplit(src: Text, nw: Text, f: int, b: int, from: int, overlap: int, lens: int) {
    && 0 <= lens <= overlap
    && (forall i :: 0 <= i <= overlap ==> SplitHits(src, nw, f, b, from, overlap, i) <= SplitHits(src, nw, f, b, from, overlap, lens))
    && (forall i :: 0 <= i < lens ==> SplitHits(src, nw, f, b, from, overlap, i) < SplitHits(src, nw, f, b, from, overlap, lens))
  }

  /** The running score of the loop: what the first i characters lose or gain by going with
      the previous match. */
  ghost function SplitScore(src: Text, nw: Text, f: int, b: int, from: int, i: int): int {
    Hits(src, nw, f, from, from + i) - Hits(src, nw, b, from, from + i)
  }

  ghost predicate BestScore(src: Text, nw: Text, f: int, b: int, from: int, bound: int, lens: int) {
    && 0 <= lens <= bound
    && (forall i :: 0 <= i <= bound ==> SplitScore(src, nw, f, b, from, i) <= SplitScore(src, nw, f, b, from, lens))
    && (forall i :: 0 <= i < lens ==> SplitScore(src, nw, f, b, from, i) < SplitScore(src, nw, f, b, from, lens))
  }

  lemma ScoreIsSplit(src: Text, nw: Text, f: int, b: int, from: int, overlap: int, lens: int)
    requires BestScore(src, nw, f, b, from, overlap, lens)
    ensures BestSplit(src, nw, f, b, from, overlap, lens)
  {
    hide Hits;
    forall i | 0 <= i <= overlap
      ensures SplitHits(src, nw, f, b, from, overlap, i) == SplitScore(src, nw, f, b, from, i) + Hits(src, nw, b, from, from + overlap)
    {
      HitsSplit(src, nw, b, from, from + i, from + overlap);
    }
  }

  lemma SplitStep(src: Text, nw: Text, f: int, b: int, from: int, i: int, lens: int)
    requires BestScore(src, nw, f, b, from, i, lens)
    ensures if SplitScore(src, nw, f, b, from, i + 1) > SplitScore(src, nw, f, b, from, lens)
            then BestScore(src, nw, f, b, from, i + 1, i + 1) else BestScore(src, nw, f, b, from, i + 1, lens)
  {
    hide SplitScore;
  }

  lemma ScoreStart(src: Text, nw: Text, f: int, b: int, from: int)
    ensures BestScore(src, nw, f, b, from, 0, 0) && SplitScore(src, nw, f, b, from, 0) == 0
  {
  }

  /** What one character more does to the running score. */
  lemma ScoreNext(src: Text, nw: Text, f: int, b: int, from: int, i: nat)
    ensures SplitScore(src, nw, f, b, from, i + 1) == SplitScore(src, nw, f, b, from, i) + Hit(src, nw, f, from + i) - Hit(src, nw, b, from + i)
  {
    HitsNext(src, nw, f, from, from + i);
    HitsNext(src, nw, b, from, from + i);
    assert from + i + 1 == from + (i + 1);
  }

  /** In terms of the files: of all points in the overlap, the chosen one gives most hits on
      both sides together, and is the first such. */
  lemma SplitMeaning(src: Text, nw: Text, f: int, b: int, from: int, to: int, cut: int)
    requires BestSplit(src, nw, f, b, from, to - from, cut - from)
    ensures from <= cut <= to
    ensures forall x :: from <= x <= to ==>
      Hits(src, nw, f, from, x) + Hits(src, nw, b, x, to) <= Hits(src, nw, f, from, cut) + Hits(src, nw, b, cut, to)
    ensures forall x :: from <= x < cut ==>
      Hits(src, nw, f, from, x) + Hits(src, nw, b, x, to) < Hits(src, nw, f, from, cut) + Hits(src, nw, b, cut, to)
  {
    hide Hits;
    forall x | from <= x <= to
      ensures Hits(src, nw, f, from, x) + Hits(src, nw, b, x, to) == SplitHits(src, nw, f, b, from, to - from, x - from)
    {
      assert from + (x - from) == x && from + (to - from) == to;
    }
  }

  method SplitOverlap(src: Text, nw: Text, lastscan: nat, lastpos: nat, scan: nat, pos: nat, lenf: nat, lenb: nat)
    returns (lenf': nat, lenb': nat)
    requires lastscan <= scan <= |nw| && pos <= |src|
    requires lastscan + lenf <= scan && lastpos + lenf <= |src| && lenb <= pos && lastscan + lenb <= scan
    requires lastscan + lenf > scan - lenb
    ensures lenf' <= lenf && lenb' <= lenb && lastscan + lenf' == scan - lenb'
    ensures var from := scan - lenb;
      BestSplit(src, nw, lastpos - lastscan, pos - scan, from, lastscan + lenf - from, lastscan + lenf' - from)
    ensures var f, b, from, cut, to := lastpos - lastscan, pos - scan, scan - lenb, scan - lenb', lastscan + lenf;
      forall x :: from <= x <= to ==>
        Hits(src, nw, f, from, x) + Hits(src, nw, b, x, to) <= Hits(src, nw, f, from, cut) + Hits(src, nw, b, cut, to)
  {
    hide SplitScore, BestScore, BestSplit;
    var overlap := (lastscan + lenf) - (scan - lenb);
    var s, Ss, lens := 0, 0, 0;
    ghost var from, f, b := scan - lenb, lastpos - lastscan, pos - scan;
    ScoreStart(src, nw, f, b, from);
    for i := 0 to overlap
      invariant s == SplitScore(src, nw, f, b, from, i)
      invariant Ss == SplitScore(src, nw, f, b, from, lens)
      invariant 0 <= lens <= i && BestScore(src, nw, f, b, from, i, lens)
    {
      SplitStep(src, nw, f, b, from, i, lens);
      ScoreNext(src, nw, f, b, from, i);
      if nw[lastscan + lenf - overlap + i] == src[lastpos + lenf - overlap + i] { s := s + 1; }
      if nw[scan - lenb + i] == src[pos - lenb + i] { s := s - 1; }
      if s > Ss {
        Ss := s;
        lens := i + 1;
      }
    }
    ScoreIsSplit(src, nw, f, b, from, overlap, lens);
    lenf' := lenf + lens - overlap;
    lenb' := lenb - lens;
    SplitMeaning(src, nw, f, b, from, lastscan + lenf, lastscan + lenf');
  }
}
