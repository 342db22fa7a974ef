/** The raw (BSDIFN40) patch format, and bspatch: the interpreter of its control triples. */
module PatchFile {
  import opened Offsets

  datatype Result<T> = Success(value: T) | Corrupt

  const MAGIC: seq<Byte> := [66, 83, 68, 73, 70, 78, 52, 48]  // "BSDIFN40"

  /** One control triple with the data it consumes: add diff to the old file, copy extra,
      then move the old position by seek. */
  datatype Block = Block(diff: seq<Byte>, extra: seq<Byte>, seek: int)

  /** Addition and subtraction of unsigned bytes wrap around. */
  function AddByte(a: Byte, b: Byte): (r: Byte) {
    var s: int := a + b;
    s % 256
  }

  function SubByte(a: Byte, b: Byte): (r: Byte) {
    var s: int := (a as int) - (b as int);
    s % 256
  }

  /** Bytes of the diff string added to the old file from position p on; where the old file
      does not reach, the diff byte stays as it is. */
  ghost function Added(src: seq<Byte>, p: int, diff: seq<Byte>): (r: seq<Byte>)
    ensures |r| == |diff|
  {
    seq(|diff|, i requires 0 <= i < |diff| => if 0 <= p + i < |src| then AddByte(diff[i], src[p + i]) else diff[i])
  }

  /** The new file that the blocks describe, and where the old position ends up. */
  ghost function Output(src: seq<Byte>, blocks: seq<Block>): seq<Byte> {
    if blocks == [] then []
    else
      var k := |blocks| - 1;
      Output(src, blocks[..k]) + Added(src, OldPos(blocks[..k]), blocks[k].diff) + blocks[k].extra
  }

  ghost function OldPos(blocks: seq<Block>): int {
    if blocks == [] then 0
    else OldPos(blocks[..|blocks| - 1]) + |blocks[|blocks| - 1].diff| + blocks[|blocks| - 1].seek
  }

  ghost function Diffs(blocks: seq<Block>): seq<Byte> {
    if blocks == [] then [] else Diffs(blocks[..|blocks| - 1]) + blocks[|blocks| - 1].diff
  }

  ghost function Extras(blocks: seq<Block>): seq<Byte> {
    if blocks == [] then [] else Extras(blocks[..|blocks| - 1]) + blocks[|blocks| - 1].extra
  }

  ghost predicate Fits(b: Block) {
    |b.diff| < LIMIT && |b.extra| < LIMIT && -LIMIT < b.seek < LIMIT
  }

  ghost function Triple(b: Block): (s: seq<Byte>)
    requires Fits(b)
    ensures |s| == 24
  {
    Encoded(|b.diff|) + Encoded(|b.extra|) + Encoded(b.seek)
  }

  ghost function Control(blocks: seq<Block>): (s: seq<Byte>)
    requires forall b :: b in blocks ==> Fits(b)
    ensures |s| == 24 * |blocks|
  {
    if blocks == [] then [] else Control(blocks[..|blocks| - 1]) + Triple(blocks[|blocks| - 1])
  }

  /** Every section length fits its header field. */
  ghost predicate Encodable(blocks: seq<Block>, newsize: nat) {
    && (forall b :: b in blocks ==> Fits(b))
    && newsize < LIMIT && 24 * |blocks| < LIMIT && |Diffs(blocks)| < LIMIT
  }

  ghost function Header(blocks: seq<Block>, newsize: nat): (s: seq<Byte>)
    requires Encodable(blocks, newsize)
    ensures |s| == 32
  {
    MAGIC + Encoded(24 * |blocks|) + Encoded(|Diffs(blocks)|) + Encoded(newsize)
  }

  /** The patch file: header, control, diff and extra section. */
  ghost function Encode(blocks: seq<Block>, newsize: nat): seq<Byte>
    requires Encodable(blocks, newsize)
  {
    Header(blocks, newsize) + Control(blocks) + Diffs(blocks) + Extras(blocks)
  }

  // ---- bspatch

  /** Whether n bytes can be read at position p of the file. */
  predicate CanRead(file: seq<Byte>, p: int, n: int) {
    0 <= p && (n == 0 || (0 < n && p + n <= |file|))
  }

  /** Where the interpreter stands: c, d and e are the positions in the control, diff and
      extra section, p the position in the old file, done the finished part of the new
      file; Refused after a failed sanity check. */
  datatype State = Refused | State(c: nat, d: nat, e: nat, p: int, done: seq<Byte>)

  ghost function Section(file: seq<Byte>, p: int, n: int): seq<Byte>
    requires CanRead(file, p, n)
  {
    if n == 0 then [] else file[p..p + n]
  }

  /** One control triple. */
  ghost function Step(src: seq<Byte>, file: seq<Byte>, newsize: int, st: State): (r: State)
    requires st.State?
    ensures r.State? ==> r.c == st.c + 24 <= |file|
  {
    if st.c + 24 > |file| then Refused
    else
      var x, y, z := Decoded(file[st.c..st.c + 8]), Decoded(file[st.c + 8..st.c + 16]), Decoded(file[st.c + 16..st.c + 24]);
      if |st.done| + x > newsize || !CanRead(file, st.d, x) then Refused
      else
        var added := st.done + Added(src, st.p, Section(file, st.d, x));
        if |added| + y > newsize || !CanRead(file, st.e, y) then Refused
        else State(st.c + 24, st.d + x, st.e + y, st.p + x + z, added + Section(file, st.e, y))
  }

  /** When a control triple is refused: it or the data it asks for is not there, a length is
      negative, or the new file would become too long. */
  lemma RefusedMeaning(src: seq<Byte>, file: seq<Byte>, newsize: int, st: State)
    requires st.State?
    ensures st.c + 24 > |file| ==> Step(src, file, newsize, st).Refused?
    ensures st.c + 24 <= |file| ==>
      (var x, y := Decoded(file[st.c..st.c + 8]), Decoded(file[st.c + 8..st.c + 16]);
       Step(src, file, newsize, st).Refused? <==>
         x < 0 || y < 0 || |st.done| + x + y > newsize || (x > 0 && st.d + x > |file|) || (y > 0 && st.e + y > |file|))
  {
    hide Decoded, Added;
  }

  /** What it does otherwise: x sums of a diff byte and an old one modulo 256, then y extra
      bytes; the old position moves by x + z. */
  lemma StepMeaning(src: seq<Byte>, file: seq<Byte>, newsize: int, st: State)
    requires st.State? && Step(src, file, newsize, st).State?
    ensures var x, y, z := Decoded(file[st.c..st.c + 8]), Decoded(file[st.c + 8..st.c + 16]), Decoded(file[st.c + 16..st.c + 24]);
      var next, n := Step(src, file, newsize, st), |st.done|;
      && next.c == st.c + 24 && next.d == st.d + x && next.e == st.e + y && next.p == st.p + x + z
      && 0 <= x && 0 <= y && |next.done| == n + x + y && next.done[..n] == st.done
      && (forall i :: n <= i < n + x ==>
            (var old' := st.p + (i - n); var b: int := file[st.d + (i - n)];
             next.done[i] as int == if 0 <= old' < |src| then (b + src[old'] as int) % 256 else b))
      && (forall i :: n + x <= i < n + x + y ==> next.done[i] == file[st.e + (i - n - x)])
  {
    hide Decoded;
  }

  /** The interpreter loop, as a function. */
  ghost function Interpret(src: seq<Byte>, file: seq<Byte>, newsize: int, st: State): Result<seq<Byte>>
    decreases if st.State? then |file| + 1 - st.c else 0
  {
    if st.Refused? then Corrupt
    else if |st.done| >= newsize then Success(st.done)
    else
      var next := Step(src, file, newsize, st);
      if next.Refused? then Corrupt else Interpret(src, file, newsize, next)
  }

  /** bspatch on a raw patch file. */
  ghost function Patched(src: seq<Byte>, file: seq<Byte>): Result<seq<Byte>> {
    if |file| < 32 || file[..8] != MAGIC then Corrupt
    else
      var x, y, n := Decoded(file[8..16]), Decoded(file[16..24]), Decoded(file[24..32]);
      if x < 0 || y < 0 || n < 0 then Corrupt
      else Interpret(src, file, n, State(32, 32 + x, 32 + x + y, 0, []))
  }

  /** A file that does not start with the eight letters of the format, or has a negative length
      in its header, is refused. */
  lemma HeaderRefused(src: seq<Byte>, file: seq<Byte>)
    requires |file| < 32 || (exists i :: 0 <= i < 8 && file[i] as int != "BSDIFN40"[i] as int)
          || Decoded(file[8..16]) < 0 || Decoded(file[16..24]) < 0 || Decoded(file[24..32]) < 0
    ensures Patched(src, file) == Corrupt
  {
    hide Decoded, Interpret;
    if |file| >= 32 && file[..8] == MAGIC {
      forall i | 0 <= i < 8 ensures file[i] as int == "BSDIFN40"[i] as int { assert file[i] == file[..8][i]; }
    }
  }

  /** io->read: copy n bytes of the file into the new file; false if fewer are left. */
  method ReadInto(file: seq<Byte>, p: int, n: int, nw: array<Byte>, at: nat) returns (ok: bool)
    requires at <= nw.Length && n <= nw.Length - at && 0 <= p
    modifies nw
    ensures ok <==> CanRead(file, p, n)
    ensures ok ==> nw[..at] == old(nw[..at]) && nw[at..at + n] == Section(file, p, n) && nw[at + n..] == old(nw[at + n..])
    ensures !ok ==> nw[..] == old(nw[..])
  {
    ok := n == 0 || (0 < n && p + n <= |file|);
    if ok {
      for i := 0 to n
        invariant forall k :: 0 <= k < nw.Length ==> nw[k] == if at <= k < at + i then file[p + (k - at)] else old(nw[k])
      {
        nw[at + i] := file[p + i];
      }
    }
  }

  /** Add old data to the diff string. */
  method AddOld(src: seq<Byte>, p: int, n: nat, nw: array<Byte>, at: nat)
    requires at + n <= nw.Length
    modifies nw
    ensures nw[..at] == old(nw[..at]) && nw[at..at + n] == Added(src, p, old(nw[at..at + n])) && nw[at + n..] == old(nw[at + n..])
  {
    for i := 0 to n
      invariant forall k :: 0 <= k < nw.Length && !(at <= k < at + i) ==> nw[k] == old(nw[k])
      invariant forall k :: at <= k < at + i ==> nw[k] == Added(src, p, old(nw[at..at + n]))[k - at]
    {
      if p + i >= 0 && p + i < |src| { nw[at + i] := AddByte(nw[at + i], src[p + i]); }
    }
  }

  lemma Joined(s: seq<Byte>, at: nat, e: nat)
    requires at <= e <= |s|
    ensures s[..e] == s[..at] + s[at..e]
  {
  }

  /** Read and apply one control triple. */
  method ApplyTriple(src: seq<Byte>, file: seq<Byte>, nw: array<Byte>, c: nat, d: nat, e: nat, oldpos: int, newpos: nat)
    returns (ok: bool, d': nat, e': nat, oldpos': int, newpos': nat)
    requires newpos <= nw.Length
    modifies nw
    ensures var st := State(c, d, e, oldpos, old(nw[..newpos]));
      && (ok <==> Step(src, file, nw.Length, st).State?)
      && (ok ==> newpos' <= nw.Length && Step(src, file, nw.Length, st) == State(c + 24, d', e', oldpos', nw[..newpos']))
  {
    hide Added, Section, Decoded;
    ok, d', e', oldpos', newpos' := false, d, e, oldpos, newpos;
    if c + 24 > |file| { return; }
    var x := OffTIn(file[c..c + 8]);
    var y := OffTIn(file[c + 8..c + 16]);
    var z := OffTIn(file[c + 16..c + 24]);
    if newpos + x > nw.Length { return; }
    var read := ReadInto(file, d, x, nw, newpos);
    if !read { return; }
    AddOld(src, oldpos, x, nw, newpos);
    newpos' := newpos + x;
    Joined(nw[..], newpos, newpos');
    if newpos' + y > nw.Length { return; }
    ghost var added := nw[..newpos'];
    read := ReadInto(file, e, y, nw, newpos');
    if !read { return; }
    Joined(nw[..], newpos', newpos' + y);
    ok, d', e', oldpos', newpos' := true, d + x, e + y, oldpos + x + z, newpos' + y;
  }

  method Patch(src: seq<Byte>, file: seq<Byte>) returns (r: Result<seq<Byte>>)
    ensures r == Patched(src, file)
  {
    if |file| < 32 || file[..8] != MAGIC { return Corrupt; }
    var ctrllen := OffTIn(file[8..16]);
    var datalen := OffTIn(file[16..24]);
    var newsize := OffTIn(file[24..32]);
    if ctrllen < 0 || datalen < 0 || newsize < 0 { return Corrupt; }
    var nw := new Byte[newsize](_ => 0);
    var oldpos, newpos: nat := 0, 0;
    var c: nat, d: nat, e: nat := 32, 32 + ctrllen, 32 + ctrllen + datalen;
    assert nw[..0] == [];
    while newpos < newsize
      invariant newpos <= newsize == nw.Length
      invariant Patched(src, file) == Interpret(src, file, newsize, State(c, d, e, oldpos, nw[..newpos]))
      invariant c <= |file|
      decreases |file| - c
    {
      var ok;
      ok, d, e, oldpos, newpos := ApplyTriple(src, file, nw, c, d, e, oldpos, newpos);
      if !ok { return Corrupt; }
      c := c + 24;
    }
    return Success(nw[..newpos]);
  }

  // ---- the interpreter undoes the encoding

  /** Where the parts of a patch file lie: the letters, three lengths, the sections. */
  lemma LayoutMeaning(blocks: seq<Block>, newsize: nat)
    requires Encodable(blocks, newsize)
    ensures var file, n, d := Encode(blocks, newsize), 24 * |blocks|, |Diffs(blocks)|;
      && |file| == 32 + n + d + |Extras(blocks)|
      && (forall i :: 0 <= i < 8 ==> file[i] as int == "BSDIFN40"[i] as int)
      && file[8..16] == Encoded(n) && file[16..24] == Encoded(d) && file[24..32] == Encoded(newsize)
      && file[32..32 + n] == Control(blocks) && file[32 + n..32 + n + d] == Diffs(blocks) && file[32 + n + d..] == Extras(blocks)
  {
    hide Encoded, Diffs, Extras, Control, Header;
    var file, n, d := Encode(blocks, newsize), 24 * |blocks|, |Diffs(blocks)|;
    SectionsApart(Header(blocks, newsize), Control(blocks), Diffs(blocks), Extras(blocks));
    HeaderApart(blocks, newsize);
    var h := Header(blocks, newsize);
    assert file[..8] == h[..8] && file[8..16] == h[8..16] && file[16..24] == h[16..24] && file[24..32] == h[24..32];
    forall i | 0 <= i < 8 ensures file[i] as int == "BSDIFN40"[i] as int { assert file[i] == file[..8][i]; }
  }

  lemma ControlMeaning(blocks: seq<Block>, k: nat)
    requires k < |blocks| && (forall b :: b in blocks ==> Fits(b)) && Fits(blocks[k])
    ensures var b := blocks[k];
      Control(blocks)[24 * k..24 * k + 24] == Encoded(|b.diff|) + Encoded(|b.extra|) + Encoded(b.seek)
  {
    hide Encoded, Fits;
    ControlAt(blocks, k);
  }

  lemma SectionsApart(h: seq<Byte>, c: seq<Byte>, d: seq<Byte>, e: seq<Byte>)
    ensures var file := h + c + d + e;
      && file[..|h|] == h && file[|h|..|h| + |c|] == c
      && file[|h| + |c|..|h| + |c| + |d|] == d && file[|h| + |c| + |d|..] == e
  {
  }

  lemma HeaderApart(blocks: seq<Block>, newsize: nat)
    requires Encodable(blocks, newsize)
    ensures var h := Header(blocks, newsize);
      h[..8] == MAGIC && h[8..16] == Encoded(24 * |blocks|) && h[16..24] == Encoded(|Diffs(blocks)|) && h[24..32] == Encoded(newsize)
  {
    hide Encoded, Diffs;
  }

  lemma {:induction false} ControlAt(blocks: seq<Block>, k: nat)
    requires k < |blocks| && forall b :: b in blocks ==> Fits(b)
    ensures Control(blocks)[24 * k..24 * k + 24] == Triple(blocks[k])
    decreases |blocks|
  {
    hide Triple, Fits;
    var l := |blocks| - 1;
    var c, t := Control(blocks[..l]), Triple(blocks[l]);
    assert Control(blocks) == c + t;
    if k < l {
      ControlAt(blocks[..l], k);
      assert (c + t)[24 * k..24 * k + 24] == c[24 * k..24 * k + 24];
    } else {
      assert (c + t)[|c|..|c| + 24] == t;
    }
  }

  lemma {:induction false} DiffsAt(blocks: seq<Block>, k: nat)
    requires k < |blocks|
    ensures var a := |Diffs(blocks[..k])|;
      a + |blocks[k].diff| <= |Diffs(blocks)| && Diffs(blocks)[a..a + |blocks[k].diff|] == blocks[k].diff
    ensures Diffs(blocks[..k + 1]) == Diffs(blocks[..k]) + blocks[k].diff
    decreases |blocks|
  {
    var l := |blocks| - 1;
    assert blocks[..k + 1][..k] == blocks[..k];
    if k < l {
      DiffsAt(blocks[..l], k);
      assert blocks[..l][..k] == blocks[..k];
    } else {
      assert blocks[..l + 1] == blocks;
    }
  }

  lemma {:induction false} ExtrasAt(blocks: seq<Block>, k: nat)
    requires k < |blocks|
    ensures var a := |Extras(blocks[..k])|;
      a + |blocks[k].extra| <= |Extras(blocks)| && Extras(blocks)[a..a + |blocks[k].extra|] == blocks[k].extra
    ensures Extras(blocks[..k + 1]) == Extras(blocks[..k]) + blocks[k].extra
    decreases |blocks|
  {
    var l := |blocks| - 1;
    assert blocks[..k + 1][..k] == blocks[..k];
    if k < l {
      ExtrasAt(blocks[..l], k);
      assert blocks[..l][..k] == blocks[..k];
    } else {
      assert blocks[..l + 1] == blocks;
    }
  }

  /** The state in which the interpreter meets block k. */
  ghost function StateAt(src: seq<Byte>, blocks: seq<Block>, k: nat): State
    requires k <= |blocks|
  {
    var d := 32 + 24 * |blocks|;
    State(32 + 24 * k, d + |Diffs(blocks[..k])|, d + |Diffs(blocks)| + |Extras(blocks[..k])|, OldPos(blocks[..k]), Output(src, blocks[..k]))
  }

  lemma OutputStep(src: seq<Byte>, blocks: seq<Block>, k: nat)
    requires k < |blocks|
    ensures Output(src, blocks[..k + 1]) == Output(src, blocks[..k]) + Added(src, OldPos(blocks[..k]), blocks[k].diff) + blocks[k].extra
    ensures OldPos(blocks[..k + 1]) == OldPos(blocks[..k]) + |blocks[k].diff| + blocks[k].seek
  {
    assert blocks[..k + 1][..k] == blocks[..k];
  }

  /** What the interpreter reads for block k is what was encoded for it. */
  ghost predicate ReadsBlock(file: seq<Byte>, b: Block, c: nat, d: nat, e: nat) {
    && Fits(b) && c + 24 <= |file| && file[c..c + 24] == Triple(b)
    && d + |b.diff| <= |file| && file[d..d + |b.diff|] == b.diff
    && e + |b.extra| <= |file| && file[e..e + |b.extra|] == b.extra
  }

  lemma SectionsAt(blocks: seq<Block>, newsize: nat, k: nat)
    requires Encodable(blocks, newsize) && k < |blocks|
    ensures var d := 32 + 24 * |blocks|;
      ReadsBlock(Encode(blocks, newsize), blocks[k], 32 + 24 * k, d + |Diffs(blocks[..k])|, d + |Diffs(blocks)| + |Extras(blocks[..k])|)
  {
    hide Header, Control, Diffs, Extras, Triple;
    ControlAt(blocks, k);
    DiffsAt(blocks, k);
    ExtrasAt(blocks, k);
    var b := blocks[k];
    assert b in blocks;
    PartsRead(Header(blocks, newsize), Control(blocks), Diffs(blocks), Extras(blocks), b, 24 * k, |Diffs(blocks[..k])|, |Extras(blocks[..k])|);
  }

  lemma PartsRead(h: seq<Byte>, ct: seq<Byte>, df: seq<Byte>, ex: seq<Byte>, b: Block, c: nat, d: nat, e: nat)
    requires Fits(b) && c + 24 <= |ct| && ct[c..c + 24] == Triple(b)
    requires d + |b.diff| <= |df| && df[d..d + |b.diff|] == b.diff
    requires e + |b.extra| <= |ex| && ex[e..e + |b.extra|] == b.extra
    ensures ReadsBlock(h + ct + df + ex, b, |h| + c, |h| + |ct| + d, |h| + |ct| + |df| + e)
  {
    hide Triple, Fits;
    PartAt(h, ct, df + ex, c, 24);
    assert h + ct + (df + ex) == h + ct + df + ex;
    PartAt(h + ct, df, ex, d, |b.diff|);
    PartAt(h + ct + df, ex, [], e, |b.extra|);
    assert h + ct + df + ex + [] == h + ct + df + ex;
  }

  lemma PartAt(a: seq<Byte>, b: seq<Byte>, c: seq<Byte>, i: nat, n: nat)
    requires i + n <= |b|
    ensures (a + b + c)[|a| + i..|a| + i + n] == b[i..i + n]
  {
  }

  /** A step over a block that is read correctly. */
  lemma StepOver(src: seq<Byte>, file: seq<Byte>, newsize: nat, st: State, b: Block)
    requires st.State? && ReadsBlock(file, b, st.c, st.d, st.e)
    requires |st.done| + |b.diff| + |b.extra| <= newsize
    ensures Step(src, file, newsize, st) ==
      State(st.c + 24, st.d + |b.diff|, st.e + |b.extra|, st.p + |b.diff| + b.seek, st.done + Added(src, st.p, b.diff) + b.extra)
  {
    hide Triple, Decoded, Added;
    TripleParts(b);
    PartOfPart(file, st.c, 24, 0, 8);
    PartOfPart(file, st.c, 24, 8, 16);
    PartOfPart(file, st.c, 24, 16, 24);
  }

  lemma PartOfPart(file: seq<Byte>, c: nat, n: nat, i: nat, j: nat)
    requires i <= j <= n && c + n <= |file|
    ensures file[c..c + n][i..j] == file[c + i..c + j]
  {
    var t, a, b := file[c..c + n], file[c..c + n][i..j], file[c + i..c + j];
    assert |a| == |b|;
    forall k | 0 <= k < |a| ensures a[k] == b[k] {
      assert a[k] == t[i + k] == file[c + (i + k)];
    }
  }

  lemma StepAt(src: seq<Byte>, blocks: seq<Block>, newsize: nat, k: nat)
    requires Encodable(blocks, newsize) && k < |blocks| && |Output(src, blocks[..k + 1])| <= newsize
    ensures Step(src, Encode(blocks, newsize), newsize, StateAt(src, blocks, k)) == StateAt(src, blocks, k + 1)
  {
    hide Encode, Output, Diffs, Extras, OldPos, Encodable, ReadsBlock, Step;
    SectionsAt(blocks, newsize, k);
    OutputStep(src, blocks, k);
    DiffsAt(blocks, k);
    ExtrasAt(blocks, k);
    StepOver(src, Encode(blocks, newsize), newsize, StateAt(src, blocks, k), blocks[k]);
  }

  lemma TripleParts(b: Block)
    requires Fits(b)
    ensures Decoded(Triple(b)[..8]) == |b.diff| && Decoded(Triple(b)[8..16]) == |b.extra| && Decoded(Triple(b)[16..24]) == b.seek
  {
    hide Encoded, Decoded;
    DecodeEncode(|b.diff|);
    DecodeEncode(|b.extra|);
    DecodeEncode(b.seek);
    assert Triple(b)[..8] == Encoded(|b.diff|) && Triple(b)[8..16] == Encoded(|b.extra|) && Triple(b)[16..24] == Encoded(b.seek);
  }

  /** Only the last block completes the new file. */
  ghost predicate Describes(src: seq<Byte>, blocks: seq<Block>, nw: seq<Byte>) {
    && Output(src, blocks) == nw
    && forall k :: 0 <= k < |blocks| ==> |Output(src, blocks[..k])| < |nw|
  }

  lemma {:induction false} InterpretFrom(src: seq<Byte>, blocks: seq<Block>, nw: seq<Byte>, k: nat)
    requires Encodable(blocks, |nw|) && k <= |blocks| && Describes(src, blocks, nw)
    ensures Interpret(src, Encode(blocks, |nw|), |nw|, StateAt(src, blocks, k)) == Success(nw)
    decreases |blocks| - k
  {
    hide Encode, Step, Encodable;
    assert blocks[..|blocks|] == blocks;
    if k < |blocks| {
      StepAt(src, blocks, |nw|, k);
      InterpretFrom(src, blocks, nw, k + 1);
    }
  }

  /** Patching with the encoding of blocks that describe the new file yields it. */
  lemma PatchedEncode(src: seq<Byte>, blocks: seq<Block>, nw: seq<Byte>)
    requires Encodable(blocks, |nw|) && Describes(src, blocks, nw)
    ensures Patched(src, Encode(blocks, |nw|)) == Success(nw)
  {
    hide Encoded, Decoded, Interpret, Encodable, Describes, Header, Control, Diffs, Extras;
    InterpretFrom(src, blocks, nw, 0);
    HeaderParts(blocks, |nw|);
    HeaderFirst(blocks, |nw|);
    StartState(src, blocks);
  }

  lemma HeaderFirst(blocks: seq<Block>, newsize: nat)
    requires Encodable(blocks, newsize)
    ensures var file, h := Encode(blocks, newsize), Header(blocks, newsize);
      |file| >= 32 && file[..8] == h[..8] && file[8..16] == h[8..16] && file[16..24] == h[16..24] && file[24..32] == h[24..32]
  {
    hide Header, Control, Diffs, Extras, Encodable;
  }

  lemma StartState(src: seq<Byte>, blocks: seq<Block>)
    ensures StateAt(src, blocks, 0) == State(32, 32 + 24 * |blocks|, 32 + 24 * |blocks| + |Diffs(blocks)|, 0, [])
  {
    assert blocks[..0] == [];
  }

  lemma HeaderParts(blocks: seq<Block>, newsize: nat)
    requires Encodable(blocks, newsize)
    ensures var h := Header(blocks, newsize);
      && h[..8] == MAGIC && Decoded(h[8..16]) == 24 * |blocks| && Decoded(h[16..24]) == |Diffs(blocks)| && Decoded(h[24..32]) == newsize
  {
    hide Encoded, Decoded, Diffs;
    DecodeEncode(24 * |blocks|);
    DecodeEncode(|Diffs(blocks)|);
    DecodeEncode(newsize);
    var h := Header(blocks, newsize);
    assert h[8..16] == Encoded(24 * |blocks|) && h[16..24] == Encoded(|Diffs(blocks)|) && h[24..32] == Encoded(newsize);
  }
}
