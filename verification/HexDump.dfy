/** Printing into a buffer, and format_hex_ex, the hex dump of buffer.c. */
module HexDump {
  import opened Offsets
  import opened ByteBuffer

  /** The string at the start of a buffer's memory. */
  ghost predicate IsString(memory: seq<Byte>, text: seq<Byte>) {
    |text| < |memory| && memory[..|text|] == text && memory[|text|] == 0 && 0 !in text
  }

  function Min(a: int, b: int): int {
    if a < b then a else b
  }

  /** vsnprintf of a text without format directives behind a[from..p]: as much as fits, and
      a terminator; the last byte of the room is cleared in any case. */
  method Print(a: array<Byte>, from: nat, p: nat, cap: nat, text: seq<Byte>)
    requires 0 < cap && from <= p && p + cap <= a.Length
    modifies a
    ensures var n := Min(|text|, cap - 1);
      a[from..p + n] == old(a[from..p]) + text[..n] && a[p + n] == 0
  {
    var n := Min(|text|, cap - 1);
    CopyIn(a, p, text[..n] + [0]);
    assert a[..p + n] == old(a[..p]) + text[..n];
    a[p + cap - 1] := 0;
    assert a[from..p + n] == a[..p + n][from..];
  }

  /** buf_printf: the part of the text that fits before the terminator is appended; false
      if it was cut. */
  method Printf(b: Buffer, text: seq<Byte>) returns (ok: bool)
    requires b.Valid() && 0 !in text
    modifies b`len, b.data
    ensures b.Valid()
    ensures var cap, n := old(b.View()).back, Min(|text|, old(b.View()).back - 1);
      if b.data == null || cap == 0 then !ok && b.View() == old(b.View())
      else b.View() == old(b.View()).Appended(text[..n]) && ok == (n == |text|) && b.data[b.offset + b.len] == 0
  {
    ok := false;
    var cap := b.capacity - b.offset - b.len;
    if b.data != null && cap > 0 {
      var end := b.offset + b.len;
      Print(b.data, b.offset, end, cap, text);
      b.len := b.len + Min(|text|, cap - 1);
      ok := |text| < cap;
    }
  }

  /** buf_catrunc: if nothing fits any more, the end of the memory is overwritten; the
      length stays as it is. */
  method CatTrunc(b: Buffer, str: seq<Byte>)
    requires b.Valid() && b.data != null && 0 !in str
    modifies b.data
    ensures b.View().back <= 1 && |str| + 1 < b.capacity - b.offset ==>
      b.data[..b.capacity] == old(b.data[..b.capacity - |str| - 1]) + str + [0]
    ensures !(b.View().back <= 1 && |str| + 1 < b.capacity - b.offset) ==> b.data[..] == old(b.data[..])
  {
    if b.capacity - (b.offset + b.len) <= 1 {
      var len := |str| + 1;
      if len < b.capacity - b.offset {
        CopyIn(b.data, b.capacity - len, str + [0]);
      }
    }
  }

  // ---- the hex dump

  /** One lower-case hex digit. */
  function HexDigit(v: nat): (c: Byte)
    requires v < 16
    ensures c != 0
  {
    if v < 10 then 48 + v else 87 + v
  }

  function TwoDigits(x: Byte): (s: seq<Byte>)
    ensures |s| == 2 && 0 !in s
  {
    [HexDigit(x / 16), HexDigit(x % 16)]
  }

  /** The separator goes in front of every byte but the first whose index is a multiple of
      the break. */
  ghost function Before(i: nat, gap: nat, sep: seq<Byte>): seq<Byte> {
    if i > 0 && gap > 0 && i % gap == 0 then sep else []
  }

  ghost function Dump(data: seq<Byte>, gap: nat, sep: seq<Byte>): seq<Byte> {
    if data == [] then []
    else
      var l := |data| - 1;
      Dump(data[..l], gap, sep) + Before(l, gap, sep) + TwoDigits(data[l])
  }

  /** What a memory of cap bytes shows of a text: all of it if two bytes stay free, else a
      prefix, with the marker over its end where the marker fits. */
  ghost function Shown(text: seq<Byte>, cap: nat): seq<Byte>
    requires cap > 0
  {
    if |text| <= cap - 2 then text
    else if cap > |MORE| + 1 then text[..cap - 1 - |MORE|] + MORE
    else text[..cap - 1]
  }

  /** In terms of the bytes: a text that leaves two bytes free is shown; any other fills the
      memory but one byte for the terminator, and ends in "[more...]" if that fits with a
      terminator and one more byte. */
  lemma ShownMeaning(text: seq<Byte>, cap: nat)
    requires cap > 0
    ensures var s := Shown(text, cap);
      if |text| + 2 <= cap then s == text
      else && |s| == cap - 1
           && (cap > 10 ==> s[..cap - 10] == text[..cap - 10] && forall i :: 0 <= i < 9 ==> s[cap - 10..][i] as int == "[more...]"[i] as int)
           && (cap <= 10 ==> s == text[..cap - 1])
  {
  }

  /** "[more...]" */
  const MORE: seq<Byte> := [91, 109, 111, 114, 101, 46, 46, 46, 93]

  datatype Option<T> = None | Some(value: T)

  ghost function SepOf(sep: Option<seq<Byte>>): seq<Byte> {
    if sep.Some? then sep.value else []
  }

  /** The buffer shows as much of the text as fits before the terminator. */
  ghost predicate Printed(b: Buffer, text: seq<Byte>, cap: nat)
    reads b, b.data
  {
    && b.Valid() && b.data != null && b.data.Length == b.capacity == cap && b.offset == 0 && cap > 0
    && 0 !in text && b.Contents() == text[..Min(|text|, cap - 1)] && b.data[b.len] == 0
  }

  method PrintMore(b: Buffer, ghost text: seq<Byte>, more: seq<Byte>, ghost cap: nat)
    requires Printed(b, text, cap) && 0 !in more
    modifies b`len, b.data
    ensures Printed(b, text + more, cap) && b.data == old(b.data)
  {
    var _ := Printf(b, more);
    Prefixes(text, more, cap - 1);
  }

  lemma Prefixes(a: seq<Byte>, b: seq<Byte>, n: nat)
    ensures (a + b)[..Min(|a + b|, n)] == a[..Min(|a|, n)] + b[..Min(|b|, n - Min(|a|, n))]
  {
  }

  lemma DumpNext(data: seq<Byte>, i: nat, gap: nat, sep: seq<Byte>)
    requires i < |data|
    ensures Dump(data[..i + 1], gap, sep) == Dump(data[..i], gap, sep) + Before(i, gap, sep) + TwoDigits(data[i])
  {
    assert data[..i + 1][..i] == data[..i];
  }

  lemma PrintedStart(b: Buffer, gap: nat, sep: seq<Byte>, cap: nat)
    requires b.Valid() && b.data != null && b.data.Length == cap > 0 && b.View() == Deque(0, [], cap) && b.data[0] == 0
    ensures Printed(b, Dump([], gap, sep), cap)
  {
  }

  lemma SepBefore(i: nat, gap: nat, sep: seq<Byte>)
    requires i > 0 && gap > 0 && i % gap == 0
    ensures Before(i, gap, sep) == sep
  {
  }

  lemma NoSepBefore(i: nat, gap: nat, sep: seq<Byte>)
    requires sep == [] || gap == 0 || i == 0 || i % gap != 0
    ensures Before(i, gap, sep) == []
  {
  }

  /** The marker for a truncated text, and the string. */
  method Finish(b: Buffer, ghost text: seq<Byte>, ghost cap: nat) returns (out: array<Byte>)
    requires Printed(b, text, cap)
    modifies b.data
    ensures out == b.data && IsString(out[..], Shown(text, cap))
  {
    ghost var was := b.data[..];
    assert was[..b.len] == b.Contents();
    CatTrunc(b, MORE);
    out := b.data;
    assert out[..b.capacity] == out[..];
  }

  /** Separators before the first n bytes. */
  ghost function Breaks(n: nat, gap: nat): nat
    requires gap > 0
  {
    if n == 0 then 0 else (n - 1) / gap
  }

  lemma {:induction false} DumpLength(data: seq<Byte>, gap: nat, sep: seq<Byte>)
    requires gap > 0
    ensures |Dump(data, gap, sep)| == 2 * |data| + Breaks(|data|, gap) * |sep|
    decreases |data|
  {
    if data != [] {
      var l := |data| - 1;
      DumpLength(data[..l], gap, sep);
      if l > 0 { NextBreak(l, gap); }
      Distribute(Breaks(l, gap), |sep|);
    }
  }

  lemma Distribute(a: nat, b: nat)
    ensures (a + 1) * b == a * b + b
  {
  }

  lemma NextBreak(l: nat, gap: nat)
    requires l > 0 && gap > 0
    ensures l / gap == (l - 1) / gap + if l % gap == 0 then 1 else 0
  {
    var q, r := l / gap, l % gap;
    assert l == q * gap + r;
    if r == 0 {
      assert l - 1 == (q - 1) * gap + (gap - 1);
      Quotient(l - 1, gap, q - 1, gap - 1);
    } else {
      Quotient(l - 1, gap, q, r - 1);
    }
  }

  lemma Quotient(x: int, m: nat, q: int, r: int)
    requires m > 0 && x == q * m + r && 0 <= r < m
    ensures x / m == q && x % m == r
  {
    ModUnique(x, m, q, r);
    assert (x / m - q) * m == 0;
  }

  /** The computed size leaves two bytes free: nothing is ever cut or marked. */
  lemma DumpFits(data: seq<Byte>, gap: nat, sep: seq<Byte>)
    requires gap > 0
    ensures var cap := |data| * 2 + |data| / gap * |sep| + 2;
      cap > 0 && |Dump(data, gap, sep)| <= cap - 2 && Shown(Dump(data, gap, sep), cap) == Dump(data, gap, sep)
  {
    DumpLength(data, gap, sep);
    if data != [] { NextBreak(|data|, gap); }
    Grow(Breaks(|data|, gap), |data| / gap, |sep|);
  }

  lemma Grow(a: nat, b: nat, c: nat)
    requires a <= b
    ensures 0 <= a * c <= b * c
  {
  }

  /** format_hex_ex. Without an output limit the size is computed from the separator. */
  method FormatHex(data: seq<Byte>, maxoutput: nat, gap: nat, sep: Option<seq<Byte>>) returns (out: array<Byte>)
    requires maxoutput == 0 ==> sep.Some? && gap > 0
    requires sep.Some? ==> 0 !in sep.value && gap > 0
    requires (if maxoutput > 0 then maxoutput else |data| * 2 + |data| / gap * |sep.value| + 2) < BUF_SIZE_MAX
    ensures var text := Dump(data, gap, SepOf(sep));
      var shown := if maxoutput > 0 then Shown(text, maxoutput) else text;
      |shown| < out.Length && out[..|shown|] == shown && out[|shown|] == 0 && 0 !in shown
  {
    hide Printed, Dump, Before, TwoDigits, Shown;
    var cap := if maxoutput > 0 then maxoutput else |data| * 2 + |data| / gap * |sep.value| + 2;
    var b := new Buffer.AllocGc(cap);
    ghost var s := SepOf(sep);
    assert data[..0] == [];
    PrintedStart(b, gap, s, cap);
    for i := 0 to |data|
      invariant Printed(b, Dump(data[..i], gap, s), cap) && fresh(b.data)
    {
      DumpNext(data, i, gap, s);
      if sep.Some? && i > 0 && i % gap == 0 {
        SepBefore(i, gap, s);
        PrintMore(b, Dump(data[..i], gap, s), sep.value, cap);
      } else {
        NoSepBefore(i, gap, s);
        assert Dump(data[..i], gap, s) + [] == Dump(data[..i], gap, s);
      }
      PrintMore(b, Dump(data[..i], gap, s) + Before(i, gap, s), TwoDigits(data[i]), cap);
    }
    assert data[..|data|] == data;
    out := Finish(b, Dump(data, gap, s), cap);
    if maxoutput == 0 { DumpFits(data, gap, s); }
  }

  // ---- reading the dump

  lemma DumpParts(data: seq<Byte>, gap: nat, sep: seq<Byte>)
    requires data != []
    ensures var l := |data| - 1; Dump(data, gap, sep) == Dump(data[..l], gap, sep) + (Before(l, gap, sep) + TwoDigits(data[l]))
  {
  }

  /** The two digits of byte i follow two digits for every byte before it and one separator
      for every break. */
  lemma {:induction false} DigitsAt(data: seq<Byte>, gap: nat, sep: seq<Byte>, i: nat)
    requires gap > 0 && i < |data|
    ensures var o := 2 * i + i / gap * |sep|;
      0 <= o && o + 2 <= |Dump(data, gap, sep)| && Dump(data, gap, sep)[o..o + 2] == TwoDigits(data[i])
    decreases |data|
  {
    hide Dump, TwoDigits, Before;
    var l := |data| - 1;
    DumpParts(data, gap, sep);
    var head := Dump(data[..l], gap, sep);
    if i < l {
      DigitsAt(data[..l], gap, sep, i);
      var o := 2 * i + i / gap * |sep|;
      SliceOfHead(head, Before(l, gap, sep) + TwoDigits(data[l]), o);
    } else {
      DumpLength(data[..l], gap, sep);
      HeadLength(l, gap, sep);
      Tail(head, Before(l, gap, sep), TwoDigits(data[l]));
    }
  }

  /** The value of a hex digit. */
  function DigitValue(c: int): int {
    if c <= 57 then c - 48 else c - 87
  }

  lemma TwoDigitsMeaning(x: Byte)
    ensures var s := TwoDigits(x);
      && (48 <= s[0] <= 57 || 97 <= s[0] <= 102) && (48 <= s[1] <= 57 || 97 <= s[1] <= 102)
      && 16 * DigitValue(s[0]) + DigitValue(s[1]) == x
  {
  }

  /** In terms of the bytes: at the offset of byte i stand its two digits, the high one first,
      as '0' to '9' or 'a' to 'f'. */
  lemma DumpMeaning(data: seq<Byte>, gap: nat, sep: seq<Byte>, i: nat)
    requires gap > 0 && i < |data|
    ensures var o, d := 2 * i + i / gap * |sep|, Dump(data, gap, sep);
      && 0 <= o && o + 2 <= |d|
      && (48 <= d[o] <= 57 || 97 <= d[o] <= 102) && (48 <= d[o + 1] <= 57 || 97 <= d[o + 1] <= 102)
      && 16 * DigitValue(d[o]) + DigitValue(d[o + 1]) == data[i]
  {
    hide Dump, TwoDigits;
    DigitsAt(data, gap, sep, i);
    TwoDigitsMeaning(data[i]);
    var o, d := 2 * i + i / gap * |sep|, Dump(data, gap, sep);
    assert d[o..o + 2][0] == d[o] && d[o..o + 2][1] == d[o + 1];
  }

  /** In front of the digits of every byte whose index is a multiple of the break, but the
      first, stands the separator; that makes up the whole length. */
  lemma {:induction false} SeparatorAt(data: seq<Byte>, gap: nat, sep: seq<Byte>, i: nat)
    requires gap > 0 && 0 < i < |data| && i % gap == 0
    ensures var o, d := 2 * i + i / gap * |sep|, Dump(data, gap, sep);
      0 <= o - |sep| && o <= |d| && d[o - |sep|..o] == sep
    ensures |Dump(data, gap, sep)| == 2 * |data| + (|data| - 1) / gap * |sep|
    decreases |data|
  {
    hide Dump, TwoDigits;
    var l := |data| - 1;
    DumpParts(data, gap, sep);
    DumpLength(data, gap, sep);
    var head := Dump(data[..l], gap, sep);
    DumpLength(data[..l], gap, sep);
    HeadLength(l, gap, sep);
    if i < l {
      SeparatorAt(data[..l], gap, sep, i);
      PartOfHead(head, Before(l, gap, sep) + TwoDigits(data[l]), 2 * i + i / gap * |sep| - |sep|, 2 * i + i / gap * |sep|);
    } else {
      MiddlePart(head, sep, TwoDigits(data[l]));
    }
  }

  lemma PartOfHead(a: seq<Byte>, b: seq<Byte>, i: nat, j: nat)
    requires i <= j <= |a|
    ensures (a + b)[i..j] == a[i..j]
  {
  }

  lemma MiddlePart(a: seq<Byte>, b: seq<Byte>, c: seq<Byte>)
    ensures (a + (b + c))[|a|..|a + b|] == b
  {
  }

  /** Without a separator the break does not matter. */
  lemma {:induction false} PlainDump(data: seq<Byte>, gap: nat)
    ensures Dump(data, gap, []) == Dump(data, 1, [])
  {
    if data != [] { PlainDump(data[..|data| - 1], gap); }
  }

  lemma HeadLength(l: nat, gap: nat, sep: seq<Byte>)
    requires gap > 0
    ensures 2 * l + Breaks(l, gap) * |sep| + |Before(l, gap, sep)| == 2 * l + l / gap * |sep|
  {
    if l > 0 { NextBreak(l, gap); }
    Distribute(Breaks(l, gap), |sep|);
  }

  lemma SliceOfHead(a: seq<Byte>, b: seq<Byte>, o: nat)
    requires o + 2 <= |a|
    ensures (a + b)[o..o + 2] == a[o..o + 2]
  {
  }

  lemma Tail(a: seq<Byte>, b: seq<Byte>, c: seq<Byte>)
    ensures (a + (b + c))[|a + b|..|a + b| + |c|] == c && |a + (b + c)| == |a + b| + |c|
  {
  }

  lemma TwoDigitsInjective(x: Byte, y: Byte)
    requires TwoDigits(x) == TwoDigits(y)
    ensures x == y
  {
    assert TwoDigits(x)[0] == HexDigit(x / 16) && TwoDigits(x)[1] == HexDigit(x % 16);
    assert TwoDigits(y)[0] == HexDigit(y / 16) && TwoDigits(y)[1] == HexDigit(y % 16);
  }

  /** The data can be recovered from the dump. */
  lemma DumpInjective(a: seq<Byte>, b: seq<Byte>, gap: nat, sep: seq<Byte>)
    requires gap > 0 && Dump(a, gap, sep) == Dump(b, gap, sep)
    ensures a == b
  {
    hide Dump, TwoDigits;
    SameLength(a, b, gap, sep);
    forall i | 0 <= i < |a| ensures a[i] == b[i] {
      DigitsAt(a, gap, sep, i);
      DigitsAt(b, gap, sep, i);
      TwoDigitsInjective(a[i], b[i]);
    }
  }

  lemma SameLength(a: seq<Byte>, b: seq<Byte>, gap: nat, sep: seq<Byte>)
    requires gap > 0 && |Dump(a, gap, sep)| == |Dump(b, gap, sep)|
    ensures |a| == |b|
  {
    hide Dump;
    DumpLength(a, gap, sep);
    DumpLength(b, gap, sep);
    if |a| < |b| {
      BreaksGrow(|a|, |b|, gap);
      Grow(Breaks(|a|, gap), Breaks(|b|, gap), |sep|);
      assert false;
    } else if |b| < |a| {
      BreaksGrow(|b|, |a|, gap);
      Grow(Breaks(|b|, gap), Breaks(|a|, gap), |sep|);
      assert false;
    }
  }

  lemma {:induction false} BreaksGrow(m: nat, n: nat, gap: nat)
    requires m <= n && gap > 0
    ensures Breaks(m, gap) <= Breaks(n, gap)
    decreases n - m
  {
    if m < n {
      BreaksGrow(m, n - 1, gap);
      if n > 1 { NextBreak(n - 1, gap); }
    }
  }
}
