/** bsdiff: the scan for matches, the emission of blocks, and the theorem that bspatch
    undoes it. */
module Diff {
  import opened Suffixes
  import opened Offsets
  import opened PatchFile
  import opened Search
  import opened Extension
  import opened Sais

  /** The score of the previous match over nw[scan..scsc): at every test of a new match,
      scsc is at or beyond its end; between tests scsc may lag one behind, over a character
      that does not occur in the old file. */
  ghost predicate Score(src: Text, nw: Text, off: int, scan: int, scsc: int, score: int) {
    || (scan <= scsc && score == Hits(src, nw, off, scan, scsc))
    || (scsc == scan - 1 && score == 0 && Hit(src, nw, off, scsc) == 0)
  }

  /** Count the characters that come into the score. */
  method CountScore(src: Text, nw: Text, off: int, scan: nat, scsc0: int, end: nat, score0: int) returns (scsc: int, score: int)
    requires scan <= end <= |nw| && Score(src, nw, off, scan, scsc0, score0) && 0 <= scsc0 <= |nw| && 0 <= scsc0 + off
    ensures scsc == if scsc0 < end then end else scsc0
    ensures scan <= scsc && score == Hits(src, nw, off, scan, scsc)
  {
    scsc, score := scsc0, score0;
    while scsc < end
      invariant scsc0 <= scsc && scsc <= (if scsc0 < end then end else scsc0)
      invariant Score(src, nw, off, scan, scsc, score)
    {
      if scan <= scsc { HitsNext(src, nw, off, scan, scsc); }
      if scsc + off < |src| && src[scsc + off] == nw[scsc] { score := score + 1; }
      scsc := scsc + 1;
    }
  }

  /** The next character leaves the score; it scored only if it occurs in the old file. */
  lemma ScoreLeaves(src: Text, nw: Text, off: int, scan: nat, scsc: int, score: int)
    requires scan < |nw| && scan <= scsc && score == Hits(src, nw, off, scan, scsc)
    requires scsc == scan ==> nw[scan] !in src
    ensures Score(src, nw, off, scan + 1, scsc, score - Hit(src, nw, off, scan))
    ensures 0 <= score - Hit(src, nw, off, scan)
  {
    if scan < scsc { HitsBefore(src, nw, off, scan, scsc); }
  }

  /** What a search found. */
  datatype Find = Find(pos: nat, len: nat)

  /** A scan for a match: the results of the searches from start on, one for each position. */
  datatype Scan = Scan(start: nat, finds: seq<Find>)

  /** The furthest end of all that was found. */
  ghost function Reach(start: int, finds: seq<Find>): int {
    if finds == [] then start
    else
      var l := |finds| - 1;
      var before, end := Reach(start, finds[..l]), start + l + finds[l].len;
      if before < end then end else before
  }

  /** The score of the last search: the hits of the previous match from its position up to
      the furthest end. */
  ghost function ScoreOf(src: Text, nw: Text, off: int, start: int, finds: seq<Find>): int
    requires finds != []
  {
    Hits(src, nw, off, start + |finds| - 1, Reach(start, finds))
  }

  /** The scan stops here: the previous match goes on exactly like this one, or would be
      wrong for more than eight characters of it. */
  ghost predicate Stops(len: int, score: int) {
    (len == score && len != 0) || len > score + 8
  }

  /** The last search of these would stop the scan. */
  ghost predicate StopsAt(src: Text, nw: Text, off: int, start: int, finds: seq<Find>)
    requires finds != []
  {
    Stops(finds[|finds| - 1].len, ScoreOf(src, nw, off, start, finds))
  }

  ghost predicate Searched(I: seq<int>, src: Text, nw: Text, start: nat, finds: seq<Find>)
    requires Sorted(src, I)
  {
    forall i :: 0 <= i < |finds| ==> start + i < |nw| && Found(I, src, nw, start + i, finds[i].pos, finds[i].len)
  }

  /** All of these positions were searched, and none of them stopped the scan. */
  ghost predicate Passed(I: seq<int>, src: Text, nw: Text, off: int, start: nat, finds: seq<Find>)
    requires Sorted(src, I)
  {
    && Searched(I, src, nw, start, finds)
    && forall k :: 0 < k <= |finds| ==> !StopsAt(src, nw, off, start, finds[..k])
  }

  /** The scan went past all positions before end; it stopped there, or at the end of the
      new file. */
  ghost predicate ScanEnds(I: seq<int>, src: Text, nw: Text, off: int, s: Scan, end: int)
    requires Sorted(src, I)
  {
    && s.start <= end <= |nw|
    && if end == |nw|
       then |s.finds| == end - s.start && Passed(I, src, nw, off, s.start, s.finds)
       else && |s.finds| == end - s.start + 1 && Passed(I, src, nw, off, s.start, s.finds[..end - s.start])
            && Searched(I, src, nw, s.start, s.finds) && StopsAt(src, nw, off, s.start, s.finds)
  }

  /** A match that is not empty, at the old position pos. */
  ghost predicate Matching(src: Text, nw: Text, scan: int, pos: int, len: int) {
    0 < len && 0 <= scan && scan + len <= |nw| && 0 <= pos && pos + len <= |src| && src[pos..pos + len] == nw[scan..scan + len]
  }

  /** The latest result: what is known from before while nothing was searched. */
  ghost function Latest(before: Find, finds: seq<Find>): Find {
    if finds == [] then before else finds[|finds| - 1]
  }

  lemma LatestOf(before: Find, finds: seq<Find>)
    ensures Latest(before, finds) == if finds == [] then before else finds[|finds| - 1]
  {
  }

  lemma ReachNext(start: int, finds: seq<Find>, f: Find)
    ensures Reach(start, finds + [f]) ==
      var before, end := Reach(start, finds), start + |finds| + f.len; if before < end then end else before
  {
    assert (finds + [f])[..|finds|] == finds;
  }

  /** Reach is the furthest of all ends. */
  lemma {:induction false} ReachMeaning(start: int, finds: seq<Find>)
    ensures start <= Reach(start, finds)
    ensures forall k :: 0 <= k < |finds| ==> start + k + finds[k].len <= Reach(start, finds)
    ensures Reach(start, finds) == start || exists k :: 0 <= k < |finds| && start + k + finds[k].len == Reach(start, finds)
  {
    if finds != [] {
      var l := |finds| - 1;
      ReachMeaning(start, finds[..l]);
      assert forall k :: 0 <= k < l ==> finds[..l][k] == finds[k];
      if Reach(start, finds) != Reach(start, finds[..l]) {
        assert start + l + finds[l].len == Reach(start, finds);
      }
    }
  }

  lemma SearchedNext(I: seq<int>, src: Text, nw: Text, start: nat, finds: seq<Find>, f: Find)
    requires Sorted(src, I) && Searched(I, src, nw, start, finds)
    requires start + |finds| < |nw| && Found(I, src, nw, start + |finds|, f.pos, f.len)
    ensures Searched(I, src, nw, start, finds + [f])
  {
    hide Found, Sorted;
  }

  lemma PassedNext(I: seq<int>, src: Text, nw: Text, off: int, start: nat, finds: seq<Find>, f: Find)
    requires Sorted(src, I) && Passed(I, src, nw, off, start, finds)
    requires Searched(I, src, nw, start, finds + [f]) && !StopsAt(src, nw, off, start, finds + [f])
    ensures Passed(I, src, nw, off, start, finds + [f])
  {
    hide Searched, StopsAt, Sorted;
    var all := finds + [f];
    forall k | 0 < k <= |all| ensures !StopsAt(src, nw, off, start, all[..k]) {
      if k <= |finds| { assert all[..k] == finds[..k]; } else { assert all[..k] == all; }
    }
  }

  lemma StopIs(src: Text, nw: Text, off: int, start: nat, finds: seq<Find>, f: Find, score: int)
    requires score == Hits(src, nw, off, start + |finds|, Reach(start, finds + [f]))
    ensures ScoreOf(src, nw, off, start, finds + [f]) == score
    ensures StopsAt(src, nw, off, start, finds + [f]) <==> Stops(f.len, score)
  {
    hide Hits, Reach;
  }

  lemma StoppedHere(I: seq<int>, src: Text, nw: Text, off: int, start: nat, finds: seq<Find>, f: Find)
    requires Sorted(src, I) && Passed(I, src, nw, off, start, finds)
    requires start + |finds| < |nw| && Searched(I, src, nw, start, finds + [f]) && StopsAt(src, nw, off, start, finds + [f])
    ensures ScanEnds(I, src, nw, off, Scan(start, finds + [f]), start + |finds|)
  {
    hide Passed, Searched, StopsAt, Sorted;
    assert (finds + [f])[..|finds|] == finds;
  }

  lemma NothingPassed(I: seq<int>, src: Text, nw: Text, off: int, start: nat)
    requires Sorted(src, I)
    ensures Passed(I, src, nw, off, start, []) && Reach(start, []) == start && Score(src, nw, off, start, start, 0)
  {
  }

  /** In terms of the files: the search at position t found a part of the old file; with h
      hits of the previous match from t to the furthest end so far, it ended the scan exactly
      if it was as long as that and not empty, or longer by more than eight. */
  lemma ScanMeaning(I: seq<int>, src: Text, nw: Text, off: int, s: Scan, end: int, t: int)
    requires Sorted(src, I) && ScanEnds(I, src, nw, off, s, end)
    requires s.start <= t <= end && t < |nw|
    ensures |s.finds| == end - s.start + if end < |nw| then 1 else 0
    ensures var f, h := s.finds[t - s.start], Hits(src, nw, off, t, Reach(s.start, s.finds[..t - s.start + 1]));
      && f.pos + f.len <= |src| && t + f.len <= |nw| && src[f.pos..f.pos + f.len] == nw[t..t + f.len]
      && (t == end <==> (f.len == h && f.len != 0) || f.len > h + 8)
  {
    hide Hits, Reach, Sorted, Found, ScanEnds, StopsAt;
    var k := t - s.start;
    StopsOnlyAtEnd(I, src, nw, off, s, end, t);
    FoundIs(I, src, nw, t, s.finds[k]);
    LastSearch(src, nw, off, s.start, s.finds, k);
  }

  lemma StopsOnlyAtEnd(I: seq<int>, src: Text, nw: Text, off: int, s: Scan, end: int, t: int)
    requires Sorted(src, I) && ScanEnds(I, src, nw, off, s, end) && s.start <= t <= end && t < |nw|
    ensures |s.finds| == end - s.start + if end < |nw| then 1 else 0
    ensures var k := t - s.start;
      && Found(I, src, nw, t, s.finds[k].pos, s.finds[k].len)
      && (StopsAt(src, nw, off, s.start, s.finds[..k + 1]) <==> t == end)
  {
    hide Sorted, Found, StopsAt;
    AtMost(s.finds, end - s.start, t - s.start + 1);
    assert Searched(I, src, nw, s.start, s.finds);
  }

  lemma LastSearch(src: Text, nw: Text, off: int, start: int, finds: seq<Find>, k: nat)
    requires k < |finds|
    ensures var f, h := finds[k], Hits(src, nw, off, start + k, Reach(start, finds[..k + 1]));
      StopsAt(src, nw, off, start, finds[..k + 1]) <==> (f.len == h && f.len != 0) || f.len > h + 8
  {
    hide Hits, Reach;
    var some := finds[..k + 1];
    assert some[|some| - 1] == finds[k] && |some| - 1 == k;
  }

  lemma AtMost(finds: seq<Find>, n: int, k: int)
    requires 0 < k <= |finds| && 0 <= n <= |finds|
    ensures k <= n ==> finds[..n][..k] == finds[..k]
    ensures k == |finds| ==> finds[..k] == finds
  {
  }

  lemma FoundIs(I: seq<int>, src: Text, nw: Text, t: nat, f: Find)
    requires Sorted(src, I) && t < |nw| && Found(I, src, nw, t, f.pos, f.len)
    ensures f.pos + f.len <= |src| && t + f.len <= |nw| && src[f.pos..f.pos + f.len] == nw[t..t + f.len]
    ensures nw[t] in src ==> f.len > 0
  {
    hide Sorted, ProbesSafe, Longest;
    LcpMeaning(src, f.pos, nw, t);
  }

  /** The inner loop: advance until a match is long enough against the previous one. The
      results of the searches tell where it stops, and with which score. */
  method NextMatch(I: seq<int>, src: Text, nw: Text, start: nat, off: int, len0: nat, pos0: nat)
    returns (scan: nat, len: nat, pos: nat, score: int, ghost finds: seq<Find>)
    requires Sorted(src, I) && start <= |nw| && 0 <= start + off && pos0 <= |src|
    ensures ScanEnds(I, src, nw, off, Scan(start, finds), scan)
    ensures Find(pos, len) == Latest(Find(pos0, len0), finds) && pos <= |src| && 0 <= score
    ensures scan < |nw| ==> finds != [] && score == ScoreOf(src, nw, off, start, finds) && Matching(src, nw, scan, pos, len)
  {
    hide Less, Sorted, Longest, ProbesSafe, Found, Passed, Searched, ScanEnds, StopsAt, Reach, ScoreOf, Score, Hits, Hit, Matching, Latest;
    scan, len, pos, score, finds := start, len0, pos0, 0, [];
    var scsc: int := start;
    NothingPassed(I, src, nw, off, start);
    LatestOf(Find(pos0, len0), []);
    while scan < |nw|
      invariant start <= scan <= |nw| && pos <= |src| && start <= scsc <= |nw| && 0 <= score
      invariant Score(src, nw, off, scan, scsc, score)
      invariant |finds| == scan - start && scsc == Reach(start, finds) && Passed(I, src, nw, off, start, finds)
      invariant Find(pos, len) == Latest(Find(pos0, len0), finds)
      decreases |nw| - scan
    {
      len, pos := FindMatchAt(I, src, nw, scan);
      ghost var f := Find(pos, len);
      ReachNext(start, finds, f);
      scsc, score := CountScore(src, nw, off, scan, scsc, scan + len, score);
      SearchedSoFar(I, src, nw, off, start, finds);
      SearchedNext(I, src, nw, start, finds, f);
      StopIs(src, nw, off, start, finds, f, score);
      LatestOf(Find(pos0, len0), finds + [f]);
      if (len == score && len != 0) || len > score + 8 {
        StoppedHere(I, src, nw, off, start, finds, f);
        MatchIs(src, nw, scan, pos, len);
        finds := finds + [f];
        return;
      }
      PassedNext(I, src, nw, off, start, finds, f);
      NotEmptyOrNew(I, src, nw, scan, f);
      HitIs(src, nw, off, scan);
      ScoreLeaves(src, nw, off, scan, scsc, score);
      if scan + off < |src| && src[scan + off] == nw[scan] { score := score - 1; }
      finds := finds + [f];
      scan := scan + 1;
    }
    ReachedEnd(I, src, nw, off, start, finds);
  }

  lemma MatchIs(src: Text, nw: Text, scan: nat, pos: nat, len: nat)
    requires 0 < len && scan + len <= |nw| && pos + len <= |src| && src[pos..pos + len] == nw[scan..scan + len]
    ensures Matching(src, nw, scan, pos, len)
  {
  }

  lemma HitIs(src: Text, nw: Text, off: int, scan: nat)
    requires scan < |nw| && 0 <= scan + off
    ensures Hit(src, nw, off, scan) == if scan + off < |src| && src[scan + off] == nw[scan] then 1 else 0
  {
  }

  lemma SearchedSoFar(I: seq<int>, src: Text, nw: Text, off: int, start: nat, finds: seq<Find>)
    requires Sorted(src, I) && Passed(I, src, nw, off, start, finds)
    ensures Searched(I, src, nw, start, finds)
  {
  }

  lemma NotEmptyOrNew(I: seq<int>, src: Text, nw: Text, scan: nat, f: Find)
    requires Sorted(src, I) && scan < |nw| && Found(I, src, nw, scan, f.pos, f.len)
    ensures f.len == 0 ==> nw[scan] !in src
  {
    hide Sorted, ProbesSafe, Longest;
  }

  lemma ReachedEnd(I: seq<int>, src: Text, nw: Text, off: int, start: nat, finds: seq<Find>)
    requires Sorted(src, I) && Passed(I, src, nw, off, start, finds) && start + |finds| == |nw|
    ensures ScanEnds(I, src, nw, off, Scan(start, finds), |nw|)
  {
    hide Passed, Sorted;
  }

  // ---- emission

  const SIZE_LIMIT: int := 0x8000_0000

  /** The block written when the match at (scan, pos), extended back by lenb, follows the
      one at (lastscan, lastpos), extended forward by lenf. */
  ghost function BlockOf(src: seq<Byte>, nw: seq<Byte>, lastscan: nat, lastpos: nat, scan: nat, pos: nat, lenf: nat, lenb: nat): Block
    requires lastscan + lenf + lenb <= scan <= |nw| && lastpos + lenf <= |src| && lenb <= pos
  {
    Block(seq<Byte>(lenf, i requires 0 <= i < lenf => SubByte(nw[lastscan + i], src[lastpos + i])),
          nw[lastscan + lenf..scan - lenb],
          (pos - lenb) - (lastpos + lenf))
  }

  /** Adding the old bytes back undoes the subtraction. */
  lemma AddedBack(src: seq<Byte>, nw: seq<Byte>, lastscan: nat, lastpos: nat, scan: nat, pos: nat, lenf: nat, lenb: nat)
    requires lastscan + lenf + lenb <= scan <= |nw| && lastpos + lenf <= |src| && lenb <= pos
    ensures var b := BlockOf(src, nw, lastscan, lastpos, scan, pos, lenf, lenb);
      Added(src, lastpos, b.diff) + b.extra == nw[lastscan..scan - lenb]
  {
    var b := BlockOf(src, nw, lastscan, lastpos, scan, pos, lenf, lenb);
    forall i | 0 <= i < lenf ensures Added(src, lastpos, b.diff)[i] == nw[lastscan + i] {
      AddSub(nw[lastscan + i], src[lastpos + i]);
    }
    assert Added(src, lastpos, b.diff) == nw[lastscan..lastscan + lenf];
  }

  lemma AddSub(a: Byte, b: Byte)
    ensures AddByte(SubByte(a, b), b) == a
  {
  }

  /** The blocks written so far rebuild the new file up to lastscan and leave the old
      position at lastpos; they use the diff and the extra section for exactly that much,
      and read the old file inside its bounds. */
  ghost predicate Progress(src: seq<Byte>, nw: seq<Byte>, blocks: seq<Block>, lastscan: int, lastpos: int) {
    && 0 <= lastscan <= |nw| && 0 <= lastpos <= |src|
    && Output(src, blocks) == nw[..lastscan] && OldPos(blocks) == lastpos
    && |Diffs(blocks)| + |Extras(blocks)| == lastscan
    && (forall b :: b in blocks ==> Fits(b))
    && (forall k :: 0 <= k < |blocks| ==> |Output(src, blocks[..k])| < |nw|)
    && (forall k :: 0 <= k < |blocks| ==> 0 <= OldPos(blocks[..k]) && OldPos(blocks[..k]) + |blocks[k].diff| <= |src|)
  }

  lemma ProgressBounds(src: seq<Byte>, nw: seq<Byte>, blocks: seq<Block>, lastscan: int, lastpos: int)
    requires Progress(src, nw, blocks, lastscan, lastpos)
    ensures 0 <= lastscan <= |nw| && 0 <= lastpos <= |src| && |Diffs(blocks)| + |Extras(blocks)| == lastscan
  {
  }

  lemma AppendBlock(src: seq<Byte>, blocks: seq<Block>, b: Block)
    ensures var bs := blocks + [b];
      && Output(src, bs) == Output(src, blocks) + Added(src, OldPos(blocks), b.diff) + b.extra
      && OldPos(bs) == OldPos(blocks) + |b.diff| + b.seek
      && Diffs(bs) == Diffs(blocks) + b.diff && Extras(bs) == Extras(blocks) + b.extra
  {
    var bs := blocks + [b];
    assert bs[..|bs| - 1] == blocks;
  }

  lemma AppendControl(blocks: seq<Block>, b: Block)
    requires (forall c :: c in blocks ==> Fits(c)) && Fits(b)
    ensures (forall c :: c in blocks + [b] ==> Fits(c)) && Control(blocks + [b]) == Control(blocks) + Triple(b)
  {
    var bs := blocks + [b];
    assert bs[..|bs| - 1] == blocks;
  }

  lemma ProgressStep(src: seq<Byte>, nw: seq<Byte>, blocks: seq<Block>, lastscan: nat, lastpos: nat, scan: nat,
                     pos: nat, lenf: nat, lenb: nat)
    requires Progress(src, nw, blocks, lastscan, lastpos) && lastscan < |nw| < SIZE_LIMIT && |src| < SIZE_LIMIT
    requires lastscan + lenf + lenb <= scan <= |nw| && lastpos + lenf <= |src| && lenb <= pos <= |src|
    ensures var b := BlockOf(src, nw, lastscan, lastpos, scan, pos, lenf, lenb);
      Progress(src, nw, blocks + [b], scan - lenb, pos - lenb)
  {
    hide Added, BlockOf, Output, OldPos, Diffs, Extras, Fits;
    var b := BlockOf(src, nw, lastscan, lastpos, scan, pos, lenf, lenb);
    BlockParts(src, nw, lastscan, lastpos, scan, pos, lenf, lenb);
    AddedBack(src, nw, lastscan, lastpos, scan, pos, lenf, lenb);
    AppendBlock(src, blocks, b);
    var bs := blocks + [b];
    assert nw[..lastscan] + nw[lastscan..scan - lenb] == nw[..scan - lenb];
    forall k | 0 <= k < |bs|
      ensures |Output(src, bs[..k])| < |nw| && 0 <= OldPos(bs[..k]) && OldPos(bs[..k]) + |bs[k].diff| <= |src|
    {
      if k < |blocks| { assert bs[..k] == blocks[..k]; } else { assert bs[..k] == blocks; }
    }
  }

  lemma BlockParts(src: seq<Byte>, nw: seq<Byte>, lastscan: nat, lastpos: nat, scan: nat, pos: nat, lenf: nat, lenb: nat)
    requires lastscan + lenf + lenb <= scan <= |nw| < SIZE_LIMIT && lastpos + lenf <= |src| < SIZE_LIMIT && lenb <= pos <= |src|
    ensures var b := BlockOf(src, nw, lastscan, lastpos, scan, pos, lenf, lenb);
      && Fits(b) && |b.diff| == lenf && |b.extra| == scan - lenb - (lastscan + lenf) && b.seek == (pos - lenb) - (lastpos + lenf)
  {
  }

  /** In terms of the files: adding a diff byte to the old one gives the new one. */
  lemma DiffByte(src: seq<Byte>, nw: seq<Byte>, lastscan: nat, lastpos: nat, scan: nat, pos: nat, lenf: nat, lenb: nat)
    requires lastscan + lenf + lenb <= scan <= |nw| && lastpos + lenf <= |src| && lenb <= pos
    ensures var b := BlockOf(src, nw, lastscan, lastpos, scan, pos, lenf, lenb);
      && b.extra == nw[lastscan + lenf..scan - lenb] && |b.diff| == lenf && lastpos + lenf + b.seek == pos - lenb
      && forall i :: 0 <= i < lenf ==> (b.diff[i] as int + src[lastpos + i] as int) % 256 == nw[lastscan + i]
  {
    var b := BlockOf(src, nw, lastscan, lastpos, scan, pos, lenf, lenb);
    forall i | 0 <= i < lenf ensures (b.diff[i] as int + src[lastpos + i] as int) % 256 == nw[lastscan + i] {
      AddSub(nw[lastscan + i], src[lastpos + i]);
    }
  }

  /** Write the data and the control triple of one block. */
  method Emit(src: seq<Byte>, nw: seq<Byte>, db: array<Byte>, dblen: nat, eb: array<Byte>, eblen: nat,
              lastscan: nat, lastpos: nat, scan: nat, pos: nat, lenf: nat, lenb: nat) returns (triple: seq<Byte>)
    requires lastscan + lenf + lenb <= scan <= |nw| < SIZE_LIMIT && lastpos + lenf <= |src| < SIZE_LIMIT && lenb <= pos <= |src|
    requires db != eb && dblen + lenf <= db.Length && eblen + (scan - lenb - (lastscan + lenf)) <= eb.Length
    modifies db, eb
    ensures var b := BlockOf(src, nw, lastscan, lastpos, scan, pos, lenf, lenb);
      && db[..dblen + lenf] == old(db[..dblen]) + b.diff
      && eb[..eblen + |b.extra|] == old(eb[..eblen]) + b.extra
      && Fits(b) && triple == Triple(b)
    ensures forall k :: dblen <= k < dblen + lenf ==> (db[k] as int + src[lastpos + (k - dblen)] as int) % 256 == nw[lastscan + (k - dblen)]
    ensures eb[eblen..eblen + (scan - lenb - (lastscan + lenf))] == nw[lastscan + lenf..scan - lenb]
  {
    hide Encoded;
    BlockParts(src, nw, lastscan, lastpos, scan, pos, lenf, lenb);
    ghost var b := BlockOf(src, nw, lastscan, lastpos, scan, pos, lenf, lenb);
    for i := 0 to lenf
      invariant db[..dblen] == old(db[..dblen]) && eb[..] == old(eb[..])
      invariant forall k :: 0 <= k < i ==> db[dblen + k] == b.diff[k]
    {
      db[dblen + i] := SubByte(nw[lastscan + i], src[lastpos + i]);
    }
    assert db[..dblen + lenf] == old(db[..dblen]) + b.diff;
    ghost var diffs := db[..dblen + lenf];
    var gap := (scan - lenb) - (lastscan + lenf);
    for i := 0 to gap
      invariant eb[..eblen] == old(eb[..eblen]) && db[..dblen + lenf] == diffs
      invariant forall k :: 0 <= k < i ==> eb[eblen + k] == b.extra[k]
    {
      eb[eblen + i] := nw[lastscan + lenf + i];
    }
    assert eb[..eblen + gap] == old(eb[..eblen]) + b.extra;
    var x := OffTOut(lenf);
    var y := OffTOut(gap);
    var z := OffTOut((pos - lenb) - (lastpos + lenf));
    triple := x + y + z;
    DiffByte(src, nw, lastscan, lastpos, scan, pos, lenf, lenb);
    assert eb[eblen..eblen + gap] == b.extra;
    forall k | dblen <= k < dblen + lenf ensures db[k] == b.diff[k - dblen] { assert db[k] == db[..dblen + lenf][k]; }
  }

  /** What the extension loops choose for the two matches: lf and lb are optimal each, and
      an overlap is divided at the best point. */
  ghost predicate BestLengths(src: Text, nw: Text, lastscan: int, lastpos: int, scan: int, pos: int, lf: int,
                              lb: int, lenf: int, lenb: int) {
    && BestForward(src, nw, lastpos - lastscan, lastscan, ForwardBound(src, lastscan, lastpos, scan), lf)
    && (if scan == |nw| then lb == 0 else BestBackward(src, nw, pos - scan, scan, BackwardBound(lastscan, scan, pos), lb))
    && if lastscan + lf > scan - lb
       then && lastscan + lenf == scan - lenb
            && BestSplit(src, nw, lastpos - lastscan, pos - scan, scan - lb, lastscan + lf - (scan - lb), lastscan + lenf - (scan - lb))
       else lenf == lf && lenb == lb
  }

  method ExtendBoth(src: Text, nw: Text, lastscan: nat, lastpos: nat, scan: nat, pos: nat)
    returns (lenf: nat, lenb: nat, ghost lf: nat, ghost lb: nat)
    requires lastscan <= scan <= |nw| && lastpos <= |src| && pos <= |src|
    ensures lastscan + lenf + lenb <= scan && lastpos + lenf <= |src| && lenb <= pos
    ensures scan == |nw| ==> lenb == 0
    ensures BestLengths(src, nw, lastscan, lastpos, scan, pos, lf, lb, lenf, lenb)
  {
    hide BestSplit;
    lenf := ExtendForward(src, nw, lastscan, lastpos, scan);
    lenb := ExtendBackward(src, nw, lastscan, scan, pos);
    lf, lb := lenf, lenb;
    if lastscan + lenf > scan - lenb {
      lenf, lenb := SplitOverlap(src, nw, lastscan, lastpos, scan, pos, lenf, lenb);
    }
  }

  // ---- the whole program

  /** The blocks written so far, as they lie in the buffers and the control section. */
  ghost predicate Written(blocks: seq<Block>, diffs: seq<Byte>, extras: seq<Byte>, ctl: seq<Byte>) {
    && (forall b :: b in blocks ==> Fits(b))
    && diffs == Diffs(blocks) && extras == Extras(blocks) && ctl == Control(blocks)
  }

  lemma WrittenStep(src: seq<Byte>, blocks: seq<Block>, b: Block, diffs: seq<Byte>, extras: seq<Byte>, ctl: seq<Byte>)
    requires Written(blocks, diffs, extras, ctl) && Fits(b)
    ensures Written(blocks + [b], diffs + b.diff, extras + b.extra, ctl + Triple(b))
  {
    hide Triple, Control, Diffs, Extras, Fits;
    AppendBlock(src, blocks, b);
    AppendControl(blocks, b);
  }

  /** Sort the suffixes of the old file: the empty suffix first, then what sais finds. */
  method SuffixIndex(src: seq<Byte>) returns (I: seq<int>)
    ensures Sorted(src, I)
  {
    var SA := new int[|src|];
    SuffixSort(src, SA);
    assert SA[..|src|] == SA[..];
    SortedFromSuffixArray(src, SA[..]);
    I := [|src|] + SA[..];
  }

  /** The buffers and counters after a block was written. */
  method WriteBlock(src: seq<Byte>, nw: seq<Byte>, db: array<Byte>, dblen: nat, eb: array<Byte>, eblen: nat, ctl: seq<Byte>,
                    lastscan: nat, lastpos: nat, scan: nat, pos: nat, ghost blocks: seq<Block>)
    returns (dblen': nat, eblen': nat, ctl': seq<Byte>, lastscan': nat, lastpos': nat,
             ghost lenf: nat, ghost lenb: nat, ghost lf: nat, ghost lb: nat)
    requires |nw| < SIZE_LIMIT && |src| < SIZE_LIMIT && db != eb && db.Length == eb.Length == |nw| + 1
    requires lastscan <= scan <= |nw| && lastscan < |nw| && pos <= |src| && Progress(src, nw, blocks, lastscan, lastpos)
    requires dblen <= db.Length && eblen <= eb.Length && Written(blocks, db[..dblen], eb[..eblen], ctl)
    modifies db, eb
    ensures lastscan + lenf + lenb <= scan && lastpos + lenf <= |src| && lenb <= pos
    ensures lastscan' == scan - lenb && lastpos' == pos - lenb && (scan == |nw| ==> lenb == 0)
    ensures BestLengths(src, nw, lastscan, lastpos, scan, pos, lf, lb, lenf, lenb)
    ensures var bs := blocks + [BlockOf(src, nw, lastscan, lastpos, scan, pos, lenf, lenb)];
      && Progress(src, nw, bs, lastscan', lastpos')
      && dblen' <= db.Length && eblen' <= eb.Length && Written(bs, db[..dblen'], eb[..eblen'], ctl')
    ensures dblen' + eblen' == lastscan'
  {
    hide Progress, Written, BlockOf, BestLengths;
    ProgressBounds(src, nw, blocks, lastscan, lastpos);
    WrittenLengths(blocks, db[..dblen], eb[..eblen], ctl);
    var fwd, back;
    fwd, back, lf, lb := ExtendBoth(src, nw, lastscan, lastpos, scan, pos);
    lenf, lenb := fwd, back;
    ghost var b := BlockOf(src, nw, lastscan, lastpos, scan, pos, lenf, lenb);
    BlockParts(src, nw, lastscan, lastpos, scan, pos, lenf, lenb);
    ghost var diffs, extras := db[..dblen], eb[..eblen];
    var triple := Emit(src, nw, db, dblen, eb, eblen, lastscan, lastpos, scan, pos, fwd, back);
    ProgressStep(src, nw, blocks, lastscan, lastpos, scan, pos, lenf, lenb);
    WrittenStep(src, blocks, b, diffs, extras, ctl);
    dblen' := dblen + fwd;
    eblen' := eblen + ((scan - back) - (lastscan + fwd));
    ctl' := ctl + triple;
    lastscan', lastpos' := scan - back, pos - back;
  }

  lemma WrittenLengths(blocks: seq<Block>, diffs: seq<Byte>, extras: seq<Byte>, ctl: seq<Byte>)
    requires Written(blocks, diffs, extras, ctl)
    ensures |diffs| == |Diffs(blocks)| && |extras| == |Extras(blocks)| && |ctl| == 24 * |blocks|
  {
  }

  lemma NothingYet(src: seq<Byte>, nw: seq<Byte>, diffs: seq<Byte>, extras: seq<Byte>)
    requires diffs == [] && extras == []
    ensures Progress(src, nw, [], 0, 0) && Written([], diffs, extras, [])
  {
  }

  /** The finished patch: the header, now that the lengths are known, and the sections. */
  method Assemble(ctl: seq<Byte>, diffs: seq<Byte>, extras: seq<Byte>, newsize: nat, ghost bs: seq<Block>) returns (patch: seq<Byte>)
    requires Written(bs, diffs, extras, ctl) && newsize < LIMIT && |ctl| < LIMIT && |diffs| < LIMIT
    ensures Encodable(bs, newsize) && patch == Encode(bs, newsize)
  {
    hide Encoded, Diffs, Extras, Control, Fits;
    WrittenLengths(bs, diffs, extras, ctl);
    var x := OffTOut(|ctl|);
    var y := OffTOut(|diffs|);
    var z := OffTOut(newsize);
    patch := MAGIC + x + y + z + ctl + diffs + extras;
  }

  /** Where a block starts in both files, where the scan for the next match starts, and the
      result of the latest search. */
  datatype Place = Place(lastscan: int, lastpos: int, from: nat, before: Find)

  /** How a block came about: where it starts, the scans that only found continuations of
      the previous match, the scan that found the match which ends it, or nothing up to the
      end of the file, and what both matches were extended to. */
  datatype Cut = Cut(at: Place, skipped: seq<Scan>, last: Scan, scan: nat, pos: nat, len: nat, score: int, lenf: nat, lenb: nat)

  /** Scans from one position to another, each of which found that the previous match goes
      on exactly like the match found; f is the latest result. */
  ghost predicate Continued(I: seq<int>, src: Text, nw: Text, off: int, at: Place, scans: seq<Scan>, next: int, f: Find)
    requires Sorted(src, I)
  {
    if scans == [] then next == at.from && f == at.before
    else
      var l := |scans| - 1;
      var s := scans[l];
      && (exists g :: Continued(I, src, nw, off, at, scans[..l], s.start, g))
      && s.finds != [] && f == s.finds[|s.finds| - 1] && next - f.len < |nw|
      && ScanEnds(I, src, nw, off, s, next - f.len)
      && f.len == ScoreOf(src, nw, off, s.start, s.finds)
  }

  lemma ContinuedNext(I: seq<int>, src: Text, nw: Text, off: int, at: Place, scans: seq<Scan>, g: Find, s: Scan, scan: nat, f: Find)
    requires Sorted(src, I) && Continued(I, src, nw, off, at, scans, s.start, g)
    requires s.finds != [] && f == s.finds[|s.finds| - 1] && scan < |nw| && ScanEnds(I, src, nw, off, s, scan)
    requires f.len == ScoreOf(src, nw, off, s.start, s.finds)
    ensures Continued(I, src, nw, off, at, scans + [s], scan + f.len, f)
  {
    hide Sorted, ScanEnds, ScoreOf;
    assert (scans + [s])[..|scans|] == scans;
  }

  /** The scans are those that the offset of the previous match leads to; the match that
      ends the block is not a continuation of it; both are extended as far as is best. */
  ghost predicate CutOk(I: seq<int>, src: seq<Byte>, nw: seq<Byte>, c: Cut, b: Block)
    requires Sorted(src, I)
  {
    && 0 <= c.at.lastscan && 0 <= c.at.lastpos
    && c.at.lastscan + c.lenf + c.lenb <= c.scan <= |nw| && c.at.lastpos + c.lenf <= |src| && c.lenb <= c.pos
    && b == BlockOf(src, nw, c.at.lastscan, c.at.lastpos, c.scan, c.pos, c.lenf, c.lenb)
    && (exists lf, lb :: BestLengths(src, nw, c.at.lastscan, c.at.lastpos, c.scan, c.pos, lf, lb, c.lenf, c.lenb))
    && Ended(I, src, nw, c)
  }

  ghost predicate Ended(I: seq<int>, src: Text, nw: Text, c: Cut)
    requires Sorted(src, I)
  {
    var off := c.at.lastpos - c.at.lastscan;
    && (exists g :: Continued(I, src, nw, off, c.at, c.skipped, c.last.start, g) && Find(c.pos, c.len) == Latest(g, c.last.finds))
    && ScanEnds(I, src, nw, off, c.last, c.scan)
    && (c.scan < |nw| ==> && c.last.finds != [] && c.score == ScoreOf(src, nw, off, c.last.start, c.last.finds)
                          && c.len != c.score && Matching(src, nw, c.scan, c.pos, c.len))
  }

  /** Where the next block starts. */
  ghost function NextPlace(cuts: seq<Cut>): Place {
    if cuts == [] then Place(0, 0, 0, Find(0, 0))
    else
      var c := cuts[|cuts| - 1];
      Place(c.scan - c.lenb, c.pos - c.lenb, c.scan + c.len, Find(c.pos, c.len))
  }

  /** All blocks came about like this, each where the one before it ended. */
  ghost predicate Traced(I: seq<int>, src: seq<Byte>, nw: seq<Byte>, cuts: seq<Cut>, blocks: seq<Block>)
    requires Sorted(src, I)
  {
    && |cuts| == |blocks|
    && (forall k :: 0 <= k < |cuts| ==> CutOk(I, src, nw, cuts[k], blocks[k]))
    && (forall k :: 0 <= k < |cuts| ==> cuts[k].at == NextPlace(cuts[..k]))
  }

  lemma TracedStep(I: seq<int>, src: seq<Byte>, nw: seq<Byte>, cuts: seq<Cut>, blocks: seq<Block>, c: Cut, b: Block)
    requires Sorted(src, I) && Traced(I, src, nw, cuts, blocks) && CutOk(I, src, nw, c, b) && c.at == NextPlace(cuts)
    ensures Traced(I, src, nw, cuts + [c], blocks + [b])
    ensures NextPlace(cuts + [c]) == Place(c.scan - c.lenb, c.pos - c.lenb, c.scan + c.len, Find(c.pos, c.len))
  {
    hide Sorted, CutOk;
    var cs := cuts + [c];
    forall k | 0 <= k < |cs| ensures cs[k].at == NextPlace(cs[..k]) {
      if k < |cuts| { assert cs[..k] == cuts[..k]; } else { assert cs[..k] == cuts; }
    }
  }

  lemma CutIs(I: seq<int>, src: seq<Byte>, nw: seq<Byte>, c: Cut, g: Find, lf: nat, lb: nat)
    requires Sorted(src, I) && 0 <= c.at.lastscan && 0 <= c.at.lastpos
    requires c.at.lastscan + c.lenf + c.lenb <= c.scan <= |nw| && c.at.lastpos + c.lenf <= |src| && c.lenb <= c.pos
    requires BestLengths(src, nw, c.at.lastscan, c.at.lastpos, c.scan, c.pos, lf, lb, c.lenf, c.lenb)
    requires Continued(I, src, nw, c.at.lastpos - c.at.lastscan, c.at, c.skipped, c.last.start, g)
    requires Find(c.pos, c.len) == Latest(g, c.last.finds)
    requires ScanEnds(I, src, nw, c.at.lastpos - c.at.lastscan, c.last, c.scan)
    requires c.scan < |nw| ==> c.last.finds != [] && c.score == ScoreOf(src, nw, c.at.lastpos - c.at.lastscan, c.last.start, c.last.finds)
    requires c.scan < |nw| ==> c.len != c.score && Matching(src, nw, c.scan, c.pos, c.len)
    ensures CutOk(I, src, nw, c, BlockOf(src, nw, c.at.lastscan, c.at.lastpos, c.scan, c.pos, c.lenf, c.lenb))
  {
    hide Sorted, Continued, ScanEnds, ScoreOf, Matching, BestLengths, BlockOf, Latest;
  }

  lemma NothingScanned(I: seq<int>, src: Text, nw: Text, off: int, at: Place)
    requires Sorted(src, I)
    ensures Continued(I, src, nw, off, at, [], at.from, at.before)
  {
  }

  lemma {:induction false} OnlyContinuations(I: seq<int>, src: Text, nw: Text, off: int, at: Place, scans: seq<Scan>, next: int, f: Find)
    requires Sorted(src, I) && Continued(I, src, nw, off, at, scans, next, f)
    ensures forall s :: s in scans ==> s.finds != []
    ensures forall s :: s in scans ==> ScanEnds(I, src, nw, off, s, s.start + |s.finds| - 1)
    ensures forall s :: s in scans ==> s.finds[|s.finds| - 1].len == ScoreOf(src, nw, off, s.start, s.finds)
    decreases |scans|
  {
    hide Sorted, ScoreOf, ScanEnds;
    if scans != [] {
      var l := |scans| - 1;
      var s := scans[l];
      var g :| Continued(I, src, nw, off, at, scans[..l], s.start, g);
      OnlyContinuations(I, src, nw, off, at, scans[..l], s.start, g);
      ScanLength(I, src, nw, off, s, next - f.len);
      assert scans == scans[..l] + [s];
    }
  }

  lemma ScanLength(I: seq<int>, src: Text, nw: Text, off: int, s: Scan, end: int)
    requires Sorted(src, I) && ScanEnds(I, src, nw, off, s, end) && end < |nw|
    ensures end == s.start + |s.finds| - 1
  {
  }

  /** In terms of the files: each block starts where the one before it ended. */
  lemma PlaceMeaning(I: seq<int>, src: seq<Byte>, nw: seq<Byte>, cuts: seq<Cut>, blocks: seq<Block>, k: nat)
    requires Sorted(src, I) && Traced(I, src, nw, cuts, blocks) && k < |cuts|
    ensures CutOk(I, src, nw, cuts[k], blocks[k])
    ensures cuts[k].at ==
      if k == 0 then Place(0, 0, 0, Find(0, 0))
      else var c := cuts[k - 1]; Place(c.scan - c.lenb, c.pos - c.lenb, c.scan + c.len, Find(c.pos, c.len))
  {
    hide Sorted, CutOk;
    if k > 0 { assert cuts[..k][k - 1] == cuts[k - 1]; }
  }

  /** It holds the gap between the two extended matches, and ends at a match that has not
      exactly the hits of the match before it ... */
  lemma CutMeaning(I: seq<int>, src: seq<Byte>, nw: seq<Byte>, c: Cut, b: Block)
    requires Sorted(src, I) && CutOk(I, src, nw, c, b)
    ensures 0 <= c.at.lastscan && c.at.lastscan + c.lenf + c.lenb <= c.scan <= |nw|
    ensures |b.diff| == c.lenf && b.extra == nw[c.at.lastscan + c.lenf..c.scan - c.lenb]
    ensures b.seek == c.pos - c.lenb - (c.at.lastpos + c.lenf)
    ensures c.scan < |nw| ==> Matching(src, nw, c.scan, c.pos, c.len)
    ensures c.scan < |nw| ==>
      c.last.finds != [] && c.len != Hits(src, nw, c.at.lastpos - c.at.lastscan, c.scan, Reach(c.last.start, c.last.finds))
  {
    hide Sorted, Hits, Reach, ScanEnds, BestLengths, Continued, Matching, BlockOf;
    DiffByte(src, nw, c.at.lastscan, c.at.lastpos, c.scan, c.pos, c.lenf, c.lenb);
    if c.scan < |nw| { ScanLength(I, src, nw, c.at.lastpos - c.at.lastscan, c.last, c.scan); }
  }

  /** ... after scans that ended at matches that had. */
  lemma SkippedMeaning(I: seq<int>, src: seq<Byte>, nw: seq<Byte>, c: Cut, b: Block)
    requires Sorted(src, I) && CutOk(I, src, nw, c, b)
    ensures forall s :: s in c.skipped ==> s.finds != []
    ensures forall s :: s in c.skipped ==> (var t, off := s.start + |s.finds| - 1, c.at.lastpos - c.at.lastscan;
      ScanEnds(I, src, nw, off, s, t) && s.finds[t - s.start].len == Hits(src, nw, off, t, Reach(s.start, s.finds)))
  {
    hide Sorted, Hits, Reach, ScanEnds, BestLengths, Continued, Matching, BlockOf;
    var off := c.at.lastpos - c.at.lastscan;
    var g :| Continued(I, src, nw, off, c.at, c.skipped, c.last.start, g);
    OnlyContinuations(I, src, nw, off, c.at, c.skipped, c.last.start, g);
  }

  // ---- identical files

  /** With nothing to shift, the first search of a scan ends it, as a continuation. */
  lemma OneSearch(I: seq<int>, src: Text, s: Scan, end: int)
    requires Sorted(src, I) && ScanEnds(I, src, src, 0, s, end)
    ensures s.start == end
    ensures end < |src| ==> |s.finds| == 1 && ScoreOf(src, src, 0, s.start, s.finds) == s.finds[0].len
  {
    hide Sorted, Hits, Found;
    if s.start < |src| {
      assert |s.finds| > 0 && Searched(I, src, src, s.start, s.finds);
      var f, first := s.finds[0], s.finds[..1];
      assert src[s.start] in src;
      FoundIs(I, src, src, s.start, f);
      AllHits(src, src, 0, s.start, s.start + f.len);
      ReachNext(s.start, [], f);
      assert [] + [f] == first && first[|first| - 1] == f;
      assert StopsAt(src, src, 0, s.start, first);
      AtMost(s.finds, end - s.start, 1);
      if end > s.start { assert false; }
      assert s.finds == first;
    }
  }

  /** The block of the first cut is the whole file. */
  lemma WholeFile(I: seq<int>, src: seq<Byte>, c: Cut, b: Block)
    requires Sorted(src, I) && CutOk(I, src, src, c, b) && c.at == Place(0, 0, 0, Find(0, 0))
    ensures |b.diff| == |src| && b.extra == [] && forall i :: 0 <= i < |src| ==> b.diff[i] == 0
  {
    hide Sorted, Hits, ScoreOf, BestForward, BestBackward, BestSplit, BlockOf, Continued, ScanEnds, Matching;
    OneSearch(I, src, c.last, c.scan);
    assert c.scan == |src|;
    var lf, lb :| BestLengths(src, src, 0, 0, c.scan, c.pos, lf, lb, c.lenf, c.lenb);
    ForwardMeaning(src, src, 0, 0, c.scan, lf);
    assert src[0..|src|] == src[0..|src| + 0];
    DiffByte(src, src, 0, 0, c.scan, c.pos, c.lenf, c.lenb);
  }

  /** A file against itself: one block at most, that adds nothing but zeros. */
  lemma SameFile(I: seq<int>, src: seq<Byte>, cuts: seq<Cut>, blocks: seq<Block>)
    requires Sorted(src, I) && Traced(I, src, src, cuts, blocks) && Progress(src, src, blocks, |src|, OldPos(blocks))
    ensures |blocks| <= 1 && Extras(blocks) == [] && forall b :: b in Diffs(blocks) ==> b == 0
  {
    hide Sorted, CutOk, OldPos, Fits;
    if blocks != [] {
      assert cuts[..0] == [] && blocks[..1][..0] == [];
      WholeFile(I, src, cuts[0], blocks[0]);
      AppendBlock(src, [], blocks[0]);
      assert [] + [blocks[0]] == blocks[..1];
      assert |Output(src, blocks[..1])| == |src|;
      assert |blocks| <= 1;
      assert blocks == blocks[..1];
    }
  }

  /** With the whole new file covered, the blocks describe it. */
  lemma ProgressDone(src: seq<Byte>, nw: seq<Byte>, blocks: seq<Block>, lastpos: int)
    requires Progress(src, nw, blocks, |nw|, lastpos)
    ensures Describes(src, blocks, nw) && OldPos(blocks) == lastpos
  {
    hide Output, OldPos, Diffs, Extras, Fits;
    assert nw[..|nw|] == nw;
  }

  /** The patch that the differ writes describes the new file exactly: all its blocks are
      needed, they read the old file inside its bounds, and diff and extra section together
      are as long as the new file; each block is cut at matches of the sorted old file as
      the scan and the extensions decide; the patcher recovers the new file from it. */
  method Diff(src: seq<Byte>, nw: seq<Byte>) returns (patch: seq<Byte>, ghost blocks: seq<Block>, ghost I: seq<int>, ghost cuts: seq<Cut>)
    requires |src| < SIZE_LIMIT && |nw| < SIZE_LIMIT
    ensures Encodable(blocks, |nw|) && patch == Encode(blocks, |nw|)
    ensures Progress(src, nw, blocks, |nw|, OldPos(blocks))
    ensures Sorted(src, I) && Traced(I, src, nw, cuts, blocks)
    ensures nw == src ==> |blocks| <= 1 && Extras(blocks) == [] && forall b :: b in Diffs(blocks) ==> b == 0
    ensures Patched(src, patch) == Success(nw)
  {
    hide Progress, Written, Sorted, Output, OldPos, Diffs, Extras, Encode, Encodable, Describes, Patched, BlockOf, BestLengths,
      CutOk, Traced, NextPlace, Continued, ScanEnds, ScoreOf, Latest;
    var index := SuffixIndex(src);
    I := index;
    var db, eb := new Byte[|nw| + 1](_ => 0), new Byte[|nw| + 1](_ => 0);
    var dblen: nat, eblen: nat := 0, 0;
    var ctl: seq<Byte> := [];
    var scan: nat, len: nat, pos: nat, lastscan: nat, lastpos: nat := 0, 0, 0, 0, 0;
    var lastoffset: int := 0;
    blocks, cuts := [], [];
    ghost var at, skipped: seq<Scan> := Place(0, 0, 0, Find(0, 0)), [];
    NothingYet(src, nw, db[..0], eb[..0]);
    NothingTraced(I, src, nw);
    NothingScanned(I, src, nw, 0, at);
    while scan < |nw|
      invariant lastscan <= scan <= |nw| && pos <= |src| && lastoffset == lastpos - lastscan
      invariant scan < |nw| ==> scan + len <= |nw| && |blocks| <= scan + len
      invariant scan == |nw| ==> lastscan == |nw| && |blocks| <= |nw| + 1
      invariant Progress(src, nw, blocks, lastscan, lastpos)
      invariant dblen <= db.Length && eblen <= eb.Length && dblen + eblen == lastscan
      invariant Written(blocks, db[..dblen], eb[..eblen], ctl)
      invariant Traced(I, src, nw, cuts, blocks) && NextPlace(cuts) == at && at.lastscan == lastscan && at.lastpos == lastpos
      invariant scan < |nw| ==> Continued(I, src, nw, lastoffset, at, skipped, scan + len, Find(pos, len))
      decreases |nw| - scan, |nw| - (scan + len)
    {
      var score;
      ghost var finds, g, start := [], Find(pos, len), scan + len;
      scan, len, pos, score, finds := NextMatch(index, src, nw, scan + len, lastoffset, len, pos);
      ghost var last := Scan(start, finds);
      ScanRange(I, src, nw, lastoffset, last, scan);
      if len != score || scan == |nw| {
        ghost var lenf, lenb, lf, lb;
        dblen, eblen, ctl, lastscan, lastpos, lenf, lenb, lf, lb :=
          WriteBlock(src, nw, db, dblen, eb, eblen, ctl, lastscan, lastpos, scan, pos, blocks);
        ghost var c := Cut(at, skipped, last, scan, pos, len, score, lenf, lenb);
        ghost var b := BlockOf(src, nw, at.lastscan, at.lastpos, scan, pos, lenf, lenb);
        CutIs(I, src, nw, c, g, lf, lb);
        TracedStep(I, src, nw, cuts, blocks, c, b);
        blocks, cuts := blocks + [b], cuts + [c];
        at, skipped := Place(lastscan, lastpos, scan + len, Find(pos, len)), [];
        lastoffset := pos - scan;
        NothingScanned(I, src, nw, lastoffset, at);
      } else {
        LatestOf(g, finds);
        ContinuedNext(I, src, nw, lastoffset, at, skipped, g, last, scan, Find(pos, len));
        skipped := skipped + [last];
      }
    }
    WrittenLengths(blocks, db[..dblen], eb[..eblen], ctl);
    patch := Assemble(ctl, db[..dblen], eb[..eblen], |nw|, blocks);
    ProgressDone(src, nw, blocks, lastpos);
    if nw == src { SameFile(I, src, cuts, blocks); }
    PatchedEncode(src, blocks, nw);
  }

  lemma ScanRange(I: seq<int>, src: Text, nw: Text, off: int, s: Scan, end: int)
    requires Sorted(src, I) && ScanEnds(I, src, nw, off, s, end)
    ensures s.start <= end <= |nw|
  {
  }

  lemma NothingTraced(I: seq<int>, src: seq<Byte>, nw: seq<Byte>)
    requires Sorted(src, I)
    ensures Traced(I, src, nw, [], []) && NextPlace([]) == Place(0, 0, 0, Find(0, 0))
  {
  }

  /** Diff, then patch: the new file comes back, whatever the two files are. */
  method RoundTrip(src: seq<Byte>, nw: seq<Byte>) returns (r: Result<seq<Byte>>)
    requires |src| < SIZE_LIMIT && |nw| < SIZE_LIMIT
    ensures r == Success(nw)
  {
    var patch, _, _, _ := Diff(src, nw);
    r := Patch(src, patch);
  }
}
