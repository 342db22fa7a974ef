/** buf_parse of buffer.c: cutting a buffer into lines. */
module LineParser {
  import opened Offsets
  import opened ByteBuffer

  /** A NUL byte ends a line like the delimiter does. */
  predicate Ends(c: Byte, delim: int) {
    c == 0 || c as int == delim
  }

  /** Length of the first segment: up to the first separator, or everything. */
  ghost function Segment(s: seq<Byte>, delim: int): (k: nat)
    ensures k <= |s| && (k < |s| ==> Ends(s[k], delim))
    ensures forall i :: 0 <= i < k ==> !Ends(s[i], delim)
  {
    if s == [] || Ends(s[0], delim) then 0 else 1 + Segment(s[1..], delim)
  }

  /** One call: the line, what is left, and whether the end was reached. A segment that does
      not fit is cut: the byte where the terminator goes is lost, and so is the one after it (or
      the separator), which is read before the size is checked. */
  datatype Line = Line(text: seq<Byte>, rest: seq<Byte>, eol: bool)

  ghost function FirstLine(s: seq<Byte>, delim: int, size: nat): Line
    requires size > 0
  {
    var k := Segment(s, delim);
    if k < size then Line(s[..k], if k < |s| then s[k + 1..] else [], k == |s|)
    else Line(s[..size - 1], if size < |s| then s[size + 1..] else [], |s| == size)
  }

  /** In terms of the bytes: the text is free of the delimiter and of NUL, and shorter than the
      size. It ends at the end of the content, or at a delimiter or NUL, which is consumed;
      or it is as long as possible and two more bytes are consumed, if there are two. */
  lemma FirstLineMeaning(s: seq<Byte>, delim: int, size: nat)
    requires size > 0
    ensures var l := FirstLine(s, delim, size);
      var t := |l.text|;
      && t < size && t <= |s| && l.text == s[..t] && (forall c :: c in l.text ==> c != 0 && c as int != delim)
      && (if t == |s| then l.eol && l.rest == []
          else if s[t] == 0 || s[t] as int == delim then !l.eol && l.rest == s[t + 1..]
          else t == size - 1 && if |s| == size then l.eol && l.rest == [] else !l.eol && l.rest == s[size + 1..])
  {
    var k := Segment(s, delim);
    forall i | 0 <= i < k ensures s[i] != 0 && s[i] as int != delim { assert !Ends(s[i], delim); }
  }

  /** The same for what a call leaves: the first t bytes are the line. */
  ghost predicate CutAt(s: seq<Byte>, delim: int, size: nat, line: seq<Byte>, t: int, rest: seq<Byte>, more: bool) {
    && 0 <= t < size <= |line| && t <= |s| && line[..t] == s[..t] && line[t] == 0
    && (forall c :: c in line[..t] ==> c != 0 && c as int != delim)
    && (if t == |s| then rest == [] && more == (t > 0)
        else if s[t] == 0 || s[t] as int == delim then rest == s[t + 1..] && more
        else t == size - 1 && rest == (if |s| == size then [] else s[size + 1..]) && more == (t > 0 || |s| > size))
  }

  lemma CutThere(s: seq<Byte>, delim: int, size: nat, line: seq<Byte>, more: bool)
    requires 0 < size <= |line| && IsText(line, FirstLine(s, delim, size).text)
    requires var l := FirstLine(s, delim, size); more == !(l.eol && l.text == [])
    ensures exists t :: CutAt(s, delim, size, line, t, FirstLine(s, delim, size).rest, more)
  {
    hide FirstLine;
    FirstLineMeaning(s, delim, size);
    var l := FirstLine(s, delim, size);
    assert CutAt(s, delim, size, line, |l.text|, l.rest, more);
  }

  /** The text of a C string in memory. */
  ghost predicate IsText(line: seq<Byte>, text: seq<Byte>) {
    |text| < |line| && line[..|text|] == text && line[|text|] == 0 && 0 !in text
  }

  /** Read one byte; the end of the buffer and the separators all read as 0. */
  method NextChar(b: Buffer, delim: int) returns (c: Byte, eol: bool)
    requires b.Valid() && b.data != null
    modifies b`offset, b`len
    ensures b.Valid()
    ensures var s := old(b.Contents());
      if s == [] then c == 0 && eol && b.Contents() == []
      else !eol && b.Contents() == s[1..] && c == if Ends(s[0], delim) then 0 else s[0]
  {
    ghost var s := b.Contents();
    var x := b.ReadU8();
    eol := x < 0;
    if s != [] { NumberOne(s[..1]); }
    c := if x <= 0 || x == delim then 0 else x;
    assert b.Contents() == b.View().bytes;
  }

  lemma NumberOne(s: seq<Byte>)
    requires |s| == 1
    ensures Number(s) == s[0]
  {
    assert s[..0] == [];
    assert Number(s[..0]) == 0;
  }

  /** n bytes of the segment were copied. */
  ghost predicate Copying(s: seq<Byte>, delim: int, size: nat, line: seq<Byte>, n: nat, rest: seq<Byte>, eol: bool) {
    && n <= size <= |line| && n <= Segment(s, delim) && line[..n] == s[..n] && rest == s[n..] && !eol
  }

  /** The segment and its terminator were copied. */
  ghost predicate Finished(s: seq<Byte>, delim: int, size: nat, line: seq<Byte>, n: nat, rest: seq<Byte>, eol: bool) {
    && 0 < n <= size <= |line| && n - 1 == Segment(s, delim) && line[..n - 1] == s[..n - 1] && line[n - 1] == 0
    && rest == (if n <= |s| then s[n..] else []) && eol == (n - 1 == |s|)
  }

  lemma CopyStep(s: seq<Byte>, delim: int, size: nat, line: seq<Byte>, n: nat, rest: seq<Byte>, next: seq<Byte>, c: Byte, eol: bool)
    requires Copying(s, delim, size, line, n, rest, false) && n < size
    requires if rest == [] then c == 0 && eol && next == []
             else !eol && next == rest[1..] && c == if Ends(rest[0], delim) then 0 else rest[0]
    ensures if c == 0 then Finished(s, delim, size, line[n := c], n + 1, next, eol)
            else Copying(s, delim, size, line[n := c], n + 1, next, eol)
  {
    if rest != [] { assert rest[0] == s[n]; }
  }

  /** The last element is overwritten by a terminator. */
  lemma FinishedLine(s: seq<Byte>, delim: int, size: nat, line: seq<Byte>, n: nat, rest: seq<Byte>, eol: bool)
    requires Finished(s, delim, size, line, n, rest, eol)
    ensures var l := FirstLine(s, delim, size);
      rest == l.rest && eol == l.eol && IsText(line[size - 1 := 0], l.text)
  {
    var k := Segment(s, delim);
    assert 0 !in s[..k] by {
      forall i | 0 <= i < k ensures s[..k][i] != 0 { assert !Ends(s[i], delim); }
    }
    assert line[size - 1 := 0][..k] == s[..k];
  }

  lemma FullLine(s: seq<Byte>, delim: int, size: nat, line: seq<Byte>, rest: seq<Byte>, next: seq<Byte>, eol: bool)
    requires size > 0 && Copying(s, delim, size, line, size, rest, false)
    requires next == (if rest == [] then [] else rest[1..]) && eol == (rest == [])
    ensures var l := FirstLine(s, delim, size);
      next == l.rest && eol == l.eol && IsText(line[size - 1 := 0], l.text)
  {
    var t := s[..size - 1];
    forall i | 0 <= i < |t| ensures t[i] != 0 { assert !Ends(s[i], delim); }
    assert line[size - 1 := 0][..size - 1] == s[..size - 1];
  }

  method PutByte(a: array<Byte>, i: nat, c: Byte)
    requires i < a.Length
    modifies a
    ensures a[..] == old(a[..])[i := c]
  {
    a[i] := c;
  }

  /** One round of the loop: read a byte, and store it while there is room. */
  method FillStep(b: Buffer, delim: int, line: array<Byte>, size: nat, n: nat, ghost s: seq<Byte>) returns (c: Byte, eol: bool)
    requires b.Valid() && b.data != null && line != b.data && 0 < size <= line.Length && n <= size
    requires Copying(s, delim, size, line[..], n, b.Contents(), false)
    modifies b`offset, b`len, line
    ensures b.Valid()
    ensures n >= size ==> var l := FirstLine(s, delim, size);
      b.Contents() == l.rest && eol == l.eol && IsText(line[..][size - 1 := 0], l.text)
    ensures n < size && c == 0 ==> Finished(s, delim, size, line[..], n + 1, b.Contents(), eol)
    ensures n < size && c != 0 ==> !eol && Copying(s, delim, size, line[..], n + 1, b.Contents(), false)
  {
    hide Segment, Ends, Copying, Finished, FirstLine, IsText, Slice, Buffer.View, Buffer.Contents, Buffer.Valid;
    ghost var rest, was := b.Contents(), line[..];
    c, eol := NextChar(b, delim);
    if n >= size {
      FullLine(s, delim, size, was, rest, b.Contents(), eol);
    } else {
      CopyStep(s, delim, size, was, n, rest, b.Contents(), c, eol);
      PutByte(line, n, c);
    }
  }

  /** The loop: copy until a separator, the end, or one byte beyond the size. */
  method Fill(b: Buffer, delim: int, line: array<Byte>, size: nat) returns (eol: bool)
    requires b.Valid() && b.data != null && line != b.data && 0 < size <= line.Length
    modifies b`offset, b`len, line
    ensures b.Valid()
    ensures var l := FirstLine(old(b.Contents()), delim, size);
      b.Contents() == l.rest && eol == l.eol && IsText(line[..][size - 1 := 0], l.text)
  {
    hide Segment, Ends, Copying, Finished, FirstLine, IsText, Slice, Buffer.View, Buffer.Contents, Buffer.Valid;
    ghost var s := b.Contents();
    var n, c: Byte := 0, 1;
    eol := false;
    CopyStart(s, delim, size, line[..]);
    while c != 0
      invariant b.Valid() && 0 <= n <= size && b.data == old(b.data)
      invariant c != 0 ==> !eol && Copying(s, delim, size, line[..], n, b.Contents(), false)
      invariant c == 0 ==> Finished(s, delim, size, line[..], n, b.Contents(), eol)
      decreases c != 0, size - n
    {
      c, eol := FillStep(b, delim, line, size, n, s);
      if n >= size { return; }
      n := n + 1;
    }
    FinishedLine(s, delim, size, line[..], n, b.Contents(), eol);
  }

  /** buf_parse. */
  method Parse(b: Buffer, delim: int, line: array<Byte>, size: nat) returns (more: bool)
    requires b.Valid() && b.data != null && line != b.data && 0 < size <= line.Length
    modifies b`offset, b`len, line
    ensures b.Valid()
    ensures var l := FirstLine(old(b.Contents()), delim, size);
      && b.Contents() == l.rest && IsText(line[..], l.text)
      && more == !(l.eol && l.text == [])
    ensures exists t :: CutAt(old(b.Contents()), delim, size, line[..], t, b.Contents(), more)
  {
    hide FirstLine, IsText;
    ghost var s := b.Contents();
    ghost var text := FirstLine(b.Contents(), delim, size).text;
    var eol := Fill(b, delim, line, size);
    ghost var was := line[..];
    line[size - 1] := 0;
    assert line[..] == was[size - 1 := 0];
    TextHasEnd(line[..], text);
    var k := StrLen(line);
    TextLength(line[..], text, k);
    more := !(eol && k == 0);
    CutThere(s, delim, size, line[..], more);
  }

  lemma CopyStart(s: seq<Byte>, delim: int, size: nat, line: seq<Byte>)
    requires size <= |line|
    ensures Copying(s, delim, size, line, 0, s, false)
  {
  }

  lemma TextHasEnd(line: seq<Byte>, text: seq<Byte>)
    requires IsText(line, text)
    ensures 0 in line
  {
    assert line[|text|] in line;
  }

  lemma TextLength(line: seq<Byte>, text: seq<Byte>, k: nat)
    requires IsText(line, text) && k < |line| && line[k] == 0 && 0 !in line[..k]
    ensures k == |text|
  {
  }

  /** strlen. */
  method StrLen(line: array<Byte>) returns (k: nat)
    requires 0 in line[..]
    ensures k < line.Length && line[k] == 0 && 0 !in line[..k]
  {
    k := 0;
    while line[k] != 0
      invariant k < line.Length && 0 !in line[..k]
      decreases line.Length - k
    {
      assert 0 in line[k + 1..] by { assert line[..] == line[..k] + [line[k]] + line[k + 1..]; }
      k := k + 1;
    }
  }

  // ---- all calls

  /** The segments between separators; the one after the last separator may be empty. */
  ghost function Segments(s: seq<Byte>, delim: int): (r: seq<seq<Byte>>)
    ensures r != []
    decreases |s|
  {
    var k := Segment(s, delim);
    if k == |s| then [s] else [s[..k]] + Segments(s[k + 1..], delim)
  }

  /** Without an empty last segment. */
  ghost function Lines(s: seq<Byte>, delim: int): seq<seq<Byte>> {
    var r := Segments(s, delim);
    if r[|r| - 1] == [] then r[..|r| - 1] else r
  }

  /** The lines that calls of buf_parse yield until one returns false. */
  ghost function Parsed(s: seq<Byte>, delim: int, size: nat): seq<seq<Byte>>
    requires size > 0
    decreases |s|
  {
    var l := FirstLine(s, delim, size);
    if l.eol && l.text == [] then []
    else
      RestShorter(s, delim, size);
      [l.text] + Parsed(l.rest, delim, size)
  }

  lemma RestShorter(s: seq<Byte>, delim: int, size: nat)
    requires size > 0
    ensures var l := FirstLine(s, delim, size); !(l.eol && l.text == []) ==> |l.rest| < |s|
    ensures var l := FirstLine(s, delim, size); l.eol && l.text == [] ==> l.rest == []
  {
  }

  lemma AppendLine(lines: seq<seq<Byte>>, text: seq<Byte>, more: seq<seq<Byte>>)
    ensures lines + ([text] + more) == lines + [text] + more
  {
  }

  lemma ParsedStep(s: seq<Byte>, delim: int, size: nat)
    requires size > 0
    ensures var l := FirstLine(s, delim, size);
      Parsed(s, delim, size) == if l.eol && l.text == [] then [] else [l.text] + Parsed(l.rest, delim, size)
  {
  }

  /** Call buf_parse until it returns false: the buffer is used up. */
  method ParseAll(b: Buffer, delim: int, line: array<Byte>, size: nat) returns (lines: seq<seq<Byte>>)
    requires b.Valid() && b.data != null && line != b.data && 0 < size <= line.Length
    modifies b`offset, b`len, line
    ensures b.Valid() && b.Contents() == []
    ensures lines == Parsed(old(b.Contents()), delim, size)
    ensures var s := old(b.Contents());
      0 <= delim < 256 && 0 !in s && Dense(s, delim, size) ==>
      Terminated(lines, delim) == if s == [] || s[|s| - 1] == delim then s else s + [delim]
  {
    hide FirstLine, IsText, Parsed, CutAt, Terminated, Dense;
    SplitsContent(b.Contents(), delim, size);
    lines := [];
    var more := true;
    ghost var all := Parsed(b.Contents(), delim, size);
    while more
      invariant b.Valid() && b.data == old(b.data)
      invariant if more then all == lines + Parsed(b.Contents(), delim, size) else all == lines && b.Contents() == []
      decreases more, b.len
    {
      RestShorter(b.Contents(), delim, size);
      ParsedStep(b.Contents(), delim, size);
      ghost var text := FirstLine(b.Contents(), delim, size).text;
      more := Parse(b, delim, line, size);
      TextHasEnd(line[..], text);
      var k := StrLen(line);
      TextLength(line[..], text, k);
      TextIs(line[..], text);
      if more {
        AppendLine(lines, text, Parsed(b.Contents(), delim, size));
        lines := lines + [line[..k]];
      }
    }
  }

  lemma SplitsContent(s: seq<Byte>, delim: int, size: nat)
    requires size > 0
    ensures 0 <= delim < 256 && 0 !in s && Dense(s, delim, size) ==>
      Terminated(Parsed(s, delim, size), delim) == if s == [] || s[|s| - 1] == delim then s else s + [delim]
  {
    hide Parsed, Terminated, Dense;
    if 0 <= delim < 256 && 0 !in s && Dense(s, delim, size) {
      LinesMeaning(s, delim, size);
    }
  }

  lemma TextIs(line: seq<Byte>, text: seq<Byte>)
    requires IsText(line, text)
    ensures |text| < |line| && line[..|text|] == text
  {
  }

  /** The lines, each with a delimiter behind it. */
  ghost function Terminated(lines: seq<seq<Byte>>, delim: Byte): seq<Byte> {
    if lines == [] then [] else lines[0] + [delim] + Terminated(lines[1..], delim)
  }

  /** Among any bytes as many as the size there is a delimiter. */
  ghost predicate Dense(s: seq<Byte>, delim: Byte, size: nat) {
    forall i, j :: 0 <= i && j == i + size && j <= |s| ==> delim in s[i..j]
  }

  lemma DenseRest(s: seq<Byte>, delim: Byte, size: nat, t: nat)
    requires Dense(s, delim, size) && t <= |s|
    ensures Dense(s[t..], delim, size)
  {
    forall i, j | 0 <= i && j == i + size && j <= |s[t..]| ensures delim in s[t..][i..j] {
      assert s[t..][i..j] == s[i + t..j + t];
    }
  }

  /** A line that is not the last one ends at a delimiter. */
  lemma EndsAtDelimiter(s: seq<Byte>, delim: Byte, size: nat)
    requires size > 0 && 0 !in s && Dense(s, delim, size)
    ensures var l := FirstLine(s, delim, size);
      var t := |l.text|;
      && t <= |s| && l.text == s[..t] && delim !in l.text && 0 !in l.text
      && if t == |s| then l.eol && l.rest == [] else s[t] == delim && !l.eol && l.rest == s[t + 1..]
  {
    hide FirstLine;
    FirstLineMeaning(s, delim, size);
    var l := FirstLine(s, delim, size);
    var t := |l.text|;
    if t < |s| {
      assert s[t] in s;
      assert t == size - 1 ==> s[0..size] == l.text + [s[t]] && delim in s[0..size];
    }
  }

  /** In terms of the bytes: if the content has no NUL, and delimiters close enough for all
      lines to fit, then the lines, which are free of delimiters, together with the delimiters
      behind them are the content, up to the delimiter behind the last line. */
  lemma {:induction false} LinesMeaning(s: seq<Byte>, delim: Byte, size: nat)
    requires size > 0 && 0 !in s && Dense(s, delim, size)
    ensures var lines := Parsed(s, delim, size);
      && Terminated(lines, delim) == (if s == [] || s[|s| - 1] == delim then s else s + [delim])
      && forall x :: x in lines ==> delim !in x && 0 !in x
    decreases |s|
  {
    hide FirstLine, Parsed, Dense, Terminated;
    EndsAtDelimiter(s, delim, size);
    ParsedStep(s, delim, size);
    var l := FirstLine(s, delim, size);
    var t := |l.text|;
    if t == |s| {
      NoMoreLines(delim, size);
      TerminatedCons(s, [], delim);
      assert l.text == s && s + [delim] + [] == s + [delim];
      assert s != [] ==> s[|s| - 1] in s;
    } else {
      DenseRest(s, delim, size, t + 1);
      LinesMeaning(l.rest, delim, size);
      TerminatedCons(l.text, Parsed(l.rest, delim, size), delim);
      assert s == l.text + [delim] + l.rest;
      Associated(l.text, delim, l.rest);
    }
  }

  lemma Associated(a: seq<Byte>, c: Byte, b: seq<Byte>)
    ensures a + [c] + (b + [c]) == a + [c] + b + [c]
  {
  }

  lemma NoMoreLines(delim: int, size: nat)
    requires size > 0
    ensures Parsed([], delim, size) == []
  {
  }

  lemma TerminatedCons(x: seq<Byte>, lines: seq<seq<Byte>>, delim: Byte)
    ensures Terminated([x] + lines, delim) == x + [delim] + Terminated(lines, delim)
    ensures Terminated([], delim) == []
  {
    assert ([x] + lines)[1..] == lines;
  }

  /** The calls yield the segments, in order, exactly if every segment is shorter than the
      size. */
  lemma {:induction false} ParsedLinesIff(s: seq<Byte>, delim: int, size: nat)
    requires size > 0
    ensures Parsed(s, delim, size) == Lines(s, delim) <==> forall x :: x in Segments(s, delim) ==> |x| < size
    decreases |s|
  {
    hide Segments, Parsed, FirstLine, Lines;
    var k := Segment(s, delim);
    if k >= size {
      LongFirst(s, delim, size);
    } else if k == |s| {
      LastOnly(s, delim, size);
    } else {
      var rest := s[k + 1..];
      SegmentsCons(s, delim, size);
      ParsedLinesIff(rest, delim, size);
      SameHead(s[..k], Parsed(rest, delim, size), Lines(rest, delim));
      InCons(s[..k], Segments(rest, delim), size);
    }
  }

  lemma SegmentsStep(s: seq<Byte>, delim: int)
    requires Segment(s, delim) < |s|
    ensures var k := Segment(s, delim); Segments(s, delim) == [s[..k]] + Segments(s[k + 1..], delim)
  {
    hide Segment;
  }

  lemma LastOf(x: seq<Byte>, r: seq<seq<Byte>>)
    requires r != []
    ensures var q := [x] + r; q[|q| - 1] == r[|r| - 1] && q[..|q| - 1] == [x] + r[..|r| - 1]
  {
  }

  lemma ShortLine(s: seq<Byte>, delim: int, size: nat)
    requires Segment(s, delim) < |s| && Segment(s, delim) < size
    ensures var k := Segment(s, delim); FirstLine(s, delim, size) == Line(s[..k], s[k + 1..], false)
  {
    hide Segment;
  }

  lemma SegmentsCons(s: seq<Byte>, delim: int, size: nat)
    requires Segment(s, delim) < |s| && Segment(s, delim) < size
    ensures var k := Segment(s, delim);
      && Segments(s, delim) == [s[..k]] + Segments(s[k + 1..], delim)
      && Lines(s, delim) == [s[..k]] + Lines(s[k + 1..], delim)
      && Parsed(s, delim, size) == [s[..k]] + Parsed(s[k + 1..], delim, size)
  {
    hide Segment, Segments, Parsed, FirstLine;
    var k := Segment(s, delim);
    SegmentsStep(s, delim);
    LastOf(s[..k], Segments(s[k + 1..], delim));
    ShortLine(s, delim, size);
    ParsedStep(s, delim, size);
  }

  lemma SameHead(x: seq<Byte>, a: seq<seq<Byte>>, b: seq<seq<Byte>>)
    ensures [x] + a == [x] + b <==> a == b
  {
    assert ([x] + a)[1..] == a && ([x] + b)[1..] == b;
  }

  lemma InCons(x: seq<Byte>, r: seq<seq<Byte>>, size: nat)
    requires |x| < size
    ensures (forall y :: y in [x] + r ==> |y| < size) <==> (forall y :: y in r ==> |y| < size)
  {
    assert forall y :: y in [x] + r <==> y == x || y in r;
  }

  lemma LastOnly(s: seq<Byte>, delim: int, size: nat)
    requires Segment(s, delim) == |s| < size
    ensures Parsed(s, delim, size) == Lines(s, delim) && Segments(s, delim) == [s]
  {
    assert s[..|s|] == s && Segments(s, delim) == [s];
    if s != [] { assert Parsed([], delim, size) == []; }
  }

  lemma LongFirst(s: seq<Byte>, delim: int, size: nat)
    requires size > 0 && Segment(s, delim) >= size
    ensures Parsed(s, delim, size) != Lines(s, delim)
    ensures exists x :: x in Segments(s, delim) && |x| >= size
  {
    var k := Segment(s, delim);
    assert Segments(s, delim)[0] == s[..k];
    assert s[..k] in Segments(s, delim);
    assert Lines(s, delim)[0] == s[..k];
    if Parsed(s, delim, size) != [] { assert |Parsed(s, delim, size)[0]| == size - 1; }
  }
}
