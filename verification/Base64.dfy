/** base64.c: the encoder and the decoder of section 4 of RFC 4648. */
module Base64 {
  import opened Offsets

  /** The 64 digits in order: A-Z, a-z, 0-9, + and /. */
  function Digit(k: nat): (c: char)
    requires k < 64
  {
    if k < 26 then 'A' + k as char
    else if k < 52 then 'a' + (k - 26) as char
    else if k < 62 then '0' + (k - 52) as char
    else if k == 62 then '+' else '/'
  }

  predicate IsDigit(c: char) {
    exists k: nat | k < 64 :: Digit(k) == c
  }

  /** Three bytes as one number, missing bytes as 0. */
  function Word(d: seq<Byte>): (v: nat)
    requires d != []
    ensures v < 0x100_0000
  {
    var a: int, b: int, c: int := d[0], if |d| > 1 then d[1] else 0, if |d| > 2 then d[2] else 0;
    65536 * a + 256 * b + c
  }

  /** The four characters for the first three bytes; a missing byte leaves padding. */
  ghost function Group(d: seq<Byte>): (s: string)
    requires d != []
    ensures |s| == 4
  {
    var v := Word(d);
    [Digit(v / 262144), Digit(v / 4096 % 64), if |d| > 1 then Digit(v / 64 % 64) else '=', if |d| > 2 then Digit(v % 64) else '=']
  }

  ghost function Rest(d: seq<Byte>): seq<Byte> {
    if |d| <= 3 then [] else d[3..]
  }

  ghost function Encoded64(d: seq<Byte>): (s: string)
    ensures |s| == (|d| + 2) / 3 * 4
    decreases |d|
  {
    if d == [] then "" else Group(d) + Encoded64(Rest(d))
  }

  // ---- the encoding in terms of characters and bytes

  /** The value of a character in the alphabet of section 4 of RFC 4648. */
  function Sextet(c: char): int {
    if 'A' <= c <= 'Z' then c as int - 'A' as int
    else if 'a' <= c <= 'z' then c as int - 'a' as int + 26
    else if '0' <= c <= '9' then c as int - '0' as int + 52
    else if c == '+' then 62
    else if c == '/' then 63
    else -1
  }

  lemma DigitMeaning(k: nat)
    requires k < 64
    ensures Sextet(Digit(k)) == k
  {
  }

  /** Four characters hold three bytes, six bits each, high bits first; of two bytes or one
      the missing bits are 0, and padding stands for characters without any. */
  ghost predicate Holds(s: string, d: seq<Byte>)
    requires |s| == 4 && d != []
  {
    && 0 <= Sextet(s[0]) && 0 <= Sextet(s[1])
    && (if |d| == 1 then
          s[2] == s[3] == '=' && 262144 * Sextet(s[0]) + 4096 * Sextet(s[1]) == 65536 * d[0] as int
        else if |d| == 2 then
          && 0 <= Sextet(s[2]) && s[3] == '='
          && 262144 * Sextet(s[0]) + 4096 * Sextet(s[1]) + 64 * Sextet(s[2]) == 65536 * d[0] as int + 256 * d[1] as int
        else
          && 0 <= Sextet(s[2]) && 0 <= Sextet(s[3])
          && 262144 * Sextet(s[0]) + 4096 * Sextet(s[1]) + 64 * Sextet(s[2]) + Sextet(s[3])
             == 65536 * d[0] as int + 256 * d[1] as int + d[2] as int)
  }

  lemma GroupHolds(d: seq<Byte>)
    requires d != []
    ensures Holds(Group(d), d)
  {
    hide Digit, Sextet;
    var v := Word(d);
    Digits24(v);
    WordEnds(d);
    DigitMeaning(v / 262144);
    DigitMeaning(v / 4096 % 64);
    DigitMeaning(v / 64 % 64);
    DigitMeaning(v % 64);
  }

  /** Characters 4j to 4j + 3 of the encoding hold the bytes from 3j on. */
  lemma {:induction false} EncodedMeaning(data: seq<Byte>, j: nat)
    requires 3 * j < |data|
    ensures 4 * j + 4 <= |Encoded64(data)| && Holds(Encoded64(data)[4 * j..4 * j + 4], data[3 * j..])
    decreases j
  {
    hide Group, Holds;
    var g, s := Group(data), Encoded64(data);
    assert s == g + Encoded64(Rest(data));
    if j == 0 {
      assert s[..4] == g && data[0..] == data && s[4 * j..4 * j + 4] == s[..4];
      GroupHolds(data);
    } else {
      var rest := Rest(data);
      EncodedMeaning(rest, j - 1);
      assert rest[3 * (j - 1)..] == data[3 * j..];
      assert s[4 * j..4 * j + 4] == Encoded64(rest)[4 * (j - 1)..4 * (j - 1) + 4];
    }
  }

  /** A digit or the padding character. */
  predicate Coding(c: char) {
    c == '=' || IsDigit(c)
  }

  lemma {:induction false} EncodedCoding(d: seq<Byte>)
    ensures forall c :: c in Encoded64(d) ==> Coding(c)
    decreases |d|
  {
    if d != [] { EncodedCoding(Rest(d)); }
  }

  /** strlen. */
  method StrLen(s: array<char>) returns (n: nat)
    requires exists k :: 0 <= k < s.Length && s[k] == '\0'
    ensures n < s.Length && s[n] == '\0' && forall k :: 0 <= k < n ==> s[k] != '\0'
  {
    n := 0;
    while s[n] != '\0'
      invariant n < s.Length && forall k :: 0 <= k < n ==> s[k] != '\0'
      decreases s.Length - n
    {
      n := n + 1;
    }
  }

  /** The bytes from position i on. */
  ghost function Left(data: seq<Byte>, i: nat): seq<Byte> {
    if i <= |data| then data[i..] else []
  }

  /** One round of the encoder: gather up to three bytes, write four characters. */
  method EncodeGroup(data: seq<Byte>, i: nat, s: array<char>, p: nat)
    requires i < |data| && p + 4 <= s.Length
    modifies s
    ensures s[..] == old(s[..p]) + Group(data[i..]) + old(s[p + 4..])
  {
    hide Digit;
    ghost var d := data[i..];
    var c: int := data[i];
    c := c * 256;
    if i + 1 < |data| { c := c + data[i + 1]; }
    c := c * 256;
    if i + 2 < |data| { c := c + data[i + 2]; }
    assert c == Word(d);
    s[p], s[p + 1] := Digit(c / 262144 % 64), Digit(c / 4096 % 64);
    s[p + 2], s[p + 3] := Digit(c / 64 % 64), Digit(c % 64);
    if i + 3 > |data| { s[p + 3] := '='; }
    if i + 3 > |data| + 1 { s[p + 2] := '='; }
    ghost var four := [s[p], s[p + 1], s[p + 2], s[p + 3]];
    assert four == Group(d);
    assert s[..] == old(s[..p]) + four + old(s[p + 4..]);
  }

  lemma EncodedStep(data: seq<Byte>, i: nat)
    requires i < |data|
    ensures Encoded64(Left(data, i)) == Group(data[i..]) + Encoded64(Left(data, i + 3))
  {
    assert Rest(Left(data, i)) == Left(data, i + 3);
  }

  /** The first p characters encode the bytes before i. */
  ghost predicate EncodedTo(data: seq<Byte>, cells: string, p: int, i: int) {
    && i % 3 == 0 && 0 <= i <= |data| + 2 && p == i / 3 * 4 && p < |cells| == |data| * 4 / 3 + 4
    && cells[..p] + Encoded64(Left(data, i)) == Encoded64(data)
  }

  lemma EncodedStart(data: seq<Byte>, cells: string)
    requires |cells| == |data| * 4 / 3 + 4
    ensures EncodedTo(data, cells, 0, 0)
  {
    hide Encoded64;
    LeftAll(data);
  }

  lemma EncodedNext(data: seq<Byte>, was: string, now: string, p: nat, i: nat)
    requires EncodedTo(data, was, p, i) && i < |data| && p + 4 <= |was|
    requires now == was[..p] + Group(data[i..]) + was[p + 4..]
    ensures EncodedTo(data, now, p + 4, i + 3)
  {
    hide Encoded64, Left, Group;
    NextThree(i, |data|);
    EncodedStep(data, i);
    GroupAppended(was, now, p, Group(data[i..]), Encoded64(Left(data, i + 3)));
  }

  lemma NextThree(i: nat, n: nat)
    requires i < n && i % 3 == 0
    ensures (i + 3) % 3 == 0 && (i + 3) / 3 * 4 == i / 3 * 4 + 4 < n * 4 / 3 + 4
  {
  }

  lemma RoomForGroup(data: seq<Byte>, cells: string, p: int, i: int)
    requires EncodedTo(data, cells, p, i)
    ensures 0 <= p < |cells| && 0 <= i && (i < |data| ==> p + 4 <= |cells|)
    ensures i >= |data| ==> p == (|data| + 2) / 3 * 4 && cells[..p] == Encoded64(data)
  {
    hide Encoded64, Left;
    if i >= |data| { EncodedEnds(data, i); }
  }

  lemma GroupAppended(was: string, now: string, p: nat, four: string, rest: string)
    requires |four| == 4 && p + 4 <= |was| && now == was[..p] + four + was[p + 4..]
    ensures now[..p + 4] + rest == was[..p] + (four + rest)
  {
  }

  /** Encode into a new buffer of the size the source allocates, which always suffices. */
  method Encode64(data: seq<Byte>) returns (s: array<char>, n: nat)
    ensures fresh(s) && s.Length == |data| * 4 / 3 + 4
    ensures n == (|data| + 2) / 3 * 4 < s.Length && s[n] == '\0'
    ensures s[..n] == Encoded64(data)
    ensures forall j: nat :: 3 * j < |data| ==> 4 * j + 4 <= n && Holds(s[4 * j..4 * j + 4], data[3 * j..])
  {
    hide Group, Encoded64, Coding, Left, Digit, EncodedTo;
    s := new char[|data| * 4 / 3 + 4](_ => '\0');
    var p, i := 0, 0;
    EncodedStart(data, s[..]);
    while i < |data|
      invariant 0 <= i && 0 <= p && EncodedTo(data, s[..], p, i)
    {
      ghost var was := s[..];
      RoomForGroup(data, was, p, i);
      EncodeGroup(data, i, s, p);
      EncodedNext(data, was, s[..], p, i);
      p := p + 4;
      i := i + 3;
    }
    RoomForGroup(data, s[..], p, i);
    ghost var text := s[..p];
    s[p] := '\0';
    assert s[..p] == text;
    n := StrLen(s);
    NoTerminator(data, text);
    forall j: nat | 3 * j < |data| ensures 4 * j + 4 <= n && Holds(s[4 * j..4 * j + 4], data[3 * j..]) {
      EncodedMeaning(data, j);
      assert s[4 * j..4 * j + 4] == text[4 * j..4 * j + 4];
    }
  }

  lemma LeftAll(data: seq<Byte>)
    ensures Left(data, 0) == data
  {
  }

  lemma EncodedEnds(data: seq<Byte>, i: nat)
    requires |data| <= i
    ensures Encoded64(Left(data, i)) == []
  {
  }

  lemma NoTerminator(data: seq<Byte>, s: string)
    requires s == Encoded64(data)
    ensures forall k :: 0 <= k < |s| ==> s[k] != '\0'
  {
    EncodedCoding(data);
    forall k | 0 <= k < |s| ensures s[k] != '\0' {
      assert s[k] in s && Coding(s[k]);
    }
  }

  // ---- decoding

  const UINT: int := 0x1_0000_0000
  const DECODE_ERROR: int := 0xffff_ffff

  /** The position of a digit in the alphabet, -1 for any other character. */
  method Pos(c: char) returns (k: int)
    ensures k == PosOf(c)
  {
    hide Digit;
    k := 0;
    while k < 64
      invariant 0 <= k <= 64 && forall j: nat :: j < k ==> Digit(j) != c
    {
      if Digit(k) == c { FirstPos(c, k); return; }
      k := k + 1;
    }
    return -1;
  }

  ghost function PosOf(c: char): (k: int)
    ensures -1 <= k < 64 && (k == -1 <==> !IsDigit(c)) && (k >= 0 ==> Digit(k) == c)
  {
    if IsDigit(c) then var k: nat :| k < 64 && Digit(k) == c; k else -1
  }

  lemma FirstPos(c: char, k: nat)
    requires k < 64 && Digit(k) == c
    ensures PosOf(c) == k
  {
  }

  /** What one character adds to the value of a token: unsigned 32-bit arithmetic. */
  ghost function Shifted(val: int, c: char): int {
    (val * 64 + if c == '=' then 0 else PosOf(c)) % UINT
  }

  /** The value of the first i characters of a token. */
  ghost function Value(t: string, i: nat): (v: int)
    requires i <= |t|
    ensures 0 <= v < UINT
  {
    if i == 0 then 0 else Shifted(Value(t, i - 1), t[i - 1])
  }

  /** Number of padding characters among the first i. */
  ghost function Padding(t: string, i: nat): (n: nat)
    requires i <= |t|
    ensures n <= i
  {
    if i == 0 then 0 else Padding(t, i - 1) + if t[i - 1] == '=' then 1 else 0
  }

  /** Padding ends the token, and is at most two characters. */
  ghost predicate WellFormed(t: string) {
    && |t| >= 4 && (forall i, j :: 0 <= i < j < 4 && t[i] == '=' ==> t[j] == '=') && Padding(t, 4) <= 2
  }

  /** marker << 24 | val. */
  function Tagged(marker: nat, val: int): int
    requires marker < 256 && 0 <= val < UINT
  {
    var high := (val / 0x100_0000) as bv8 | marker as bv8;
    high as int * 0x100_0000 + val % 0x100_0000
  }

  ghost function Token(t: string): int {
    if WellFormed(t) then Tagged(Padding(t, 4), Value(t, 4)) else DECODE_ERROR
  }

  /** token_decode. */
  method TokenDecode(t: string) returns (r: int)
    ensures r == Token(t)
  {
    hide Shifted, Tagged;
    if |t| < 4 { return DECODE_ERROR; }
    var val, marker := 0, 0;
    for i := 0 to 4
      invariant 0 <= val < UINT && val == Value(t, i) && marker == Padding(t, i)
      invariant forall j, k :: 0 <= j < k < i && t[j] == '=' ==> t[k] == '='
      invariant marker > 0 ==> i > 0 && t[i - 1] == '='
    {
      var d := 0;
      if t[i] == '=' {
        marker := marker + 1;
      } else if marker > 0 {
        return DECODE_ERROR;
      } else {
        d := Pos(t[i]);
      }
      val := Shift(val, t[i], d);
    }
    if marker > 2 { return DECODE_ERROR; }
    return Tagged(marker, val);
  }

  /** One round of the loop: unsigned arithmetic wraps around. */
  method Shift(val: int, c: char, d: int) returns (v: int)
    requires d == if c == '=' then 0 else PosOf(c)
    ensures v == Shifted(val, c) && 0 <= v < UINT
  {
    v := (val * 64 + d) % UINT;
  }

  /** The bytes that a token carries. */
  function Bytes(token: int): (b: seq<Byte>)
    requires 0 <= token < UINT
    ensures 1 <= |b| <= 3
  {
    var marker := token / 0x100_0000 % 256;
    if marker < 1 then [token / 65536 % 256, token / 256 % 256, token % 256]
    else if marker < 2 then [token / 65536 % 256, token / 256 % 256]
    else [token / 65536 % 256]
  }

  /** What a decoding run leaves: the bytes written and whether it succeeded. */
  datatype Decoding = Decoding(ok: bool, out: seq<Byte>)

  lemma TokenRange(t: string)
    ensures 0 <= Token(t) < UINT && (Token(t) != DECODE_ERROR ==> |t| >= 4)
  {
  }

  /** Decode the rest s of the input after the bytes out. A non-negative size is the room
      for the bytes; it fails when that is used up. */
  ghost function DecodeFrom(s: string, out: seq<Byte>, size: int): (r: Decoding)
    decreases |s|
  {
    if s == "" || !Coding(s[0]) then Decoding(true, out)
    else if Token(s) == DECODE_ERROR then Decoding(false, out)
    else
      TokenRange(s);
      var b := Bytes(Token(s));
      if 0 <= size < |out| + |b| then Decoding(false, out + b[..if |out| < size then size - |out| else 0])
      else DecodeFrom(s[4..], out + b, size)
  }

  /** Store the bytes of one token while there is room. */
  method Store(token: int, data: array<Byte>, q: nat, size: int) returns (ok: bool, q': nat)
    requires 0 <= token < UINT && (size < 0 ==> q + 3 <= data.Length) && (size >= 0 ==> q <= size <= data.Length)
    modifies data
    ensures ok <==> size < 0 || q + |Bytes(token)| <= size
    ensures q' == if ok then q + |Bytes(token)| else size
    ensures q' <= data.Length && data[..q'] == old(data[..q]) + Bytes(token)[..q' - q] && data[q'..] == old(data[q'..])
  {
    ok, q' := false, q;
    var marker := token / 0x100_0000 % 256;
    if size >= 0 && q' >= size { return; }
    data[q'] := token / 65536 % 256;
    q' := q' + 1;
    if marker < 2 {
      if size >= 0 && q' >= size { return; }
      data[q'] := token / 256 % 256;
      q' := q' + 1;
    }
    if marker < 1 {
      if size >= 0 && q' >= size { return; }
      data[q'] := token % 256;
      q' := q' + 1;
    }
    ok := true;
  }

  lemma DecodeEnd(s: string, out: seq<Byte>, size: int)
    requires s == "" || !(s[0] == '=' || IsDigit(s[0]))
    ensures DecodeFrom(s, out, size) == Decoding(true, out)
  {
  }

  /** One token more. */
  lemma DecodeStep(s: string, out: seq<Byte>, size: int)
    requires s != "" && (s[0] == '=' || IsDigit(s[0]))
    ensures if Token(s) == DECODE_ERROR then DecodeFrom(s, out, size) == Decoding(false, out)
            else
              && 0 <= Token(s) < UINT && |s| >= 4
              && var b := Bytes(Token(s));
                 if 0 <= size < |out| + |b|
                 then DecodeFrom(s, out, size) == Decoding(false, out + b[..if |out| < size then size - |out| else 0])
                 else DecodeFrom(s, out, size) == DecodeFrom(s[4..], out + b, size)
  {
    hide IsDigit, Token, Bytes;
    TokenRange(s);
  }

  /** Where a run stands: p characters are read, q bytes are written, the rest of the
      memory is as it was. */
  ghost predicate Running(str: string, size: int, was: seq<Byte>, now: seq<Byte>, p: nat, q: nat) {
    && p <= |str| && q <= |now| == |was| && (if size >= 0 then q <= size else p % 4 == 0 && q <= p / 4 * 3)
    && DecodeFrom(str, [], size) == DecodeFrom(str[p..], now[..q], size)
    && now[q..] == was[q..]
  }

  /** What a run leaves in memory. */
  ghost predicate Ended(d: Decoding, was: seq<Byte>, now: seq<Byte>, r: int) {
    r == (if d.ok then |d.out| else -1) && |d.out| <= |was| && now == d.out + was[|d.out|..]
  }

  lemma RunStart(str: string, size: int, was: seq<Byte>)
    ensures Running(str, size, was, was, 0, 0)
  {
    assert str[0..] == str && was[..0] == [];
  }

  /** After one token the run has ended or goes on. */
  lemma RunStep(str: string, size: int, was: seq<Byte>, now: seq<Byte>, next: seq<Byte>, p: nat, q: nat, q': nat, ok: bool)
    requires Running(str, size, was, now, p, q) && size <= |was| && |next| == |now|
    requires p < |str| && (str[p] == '=' || IsDigit(str[p]))
    requires var t := Token(str[p..]);
      if t == DECODE_ERROR then next == now && !ok
      else
        && 0 <= t < UINT && q' <= |next| && (ok <==> size < 0 || q + |Bytes(t)| <= size)
        && q' == (if ok then q + |Bytes(t)| else size)
        && q <= q' && next[..q'] == now[..q] + Bytes(t)[..q' - q] && next[q'..] == now[q'..]
    ensures if ok then p + 4 <= |str| && Running(str, size, was, next, p + 4, q')
            else Ended(DecodeFrom(str, [], size), was, next, -1)
  {
    hide IsDigit, Token, Bytes, DecodeFrom;
    DecodeStep(str[p..], now[..q], size);
    var t := Token(str[p..]);
    if t == DECODE_ERROR {
      assert next == next[..q] + next[q..];
    } else {
      assert next == next[..q'] + next[q'..];
      assert next[q'..] == now[q..][q' - q..] && was[q'..] == was[q..][q' - q..];
      if ok {
        assert str[p..][4..] == str[p + 4..];
        assert Bytes(t)[..q' - q] == Bytes(t);
      }
    }
  }

  lemma RunEnd(str: string, size: int, was: seq<Byte>, now: seq<Byte>, p: nat, q: nat)
    requires Running(str, size, was, now, p, q)
    requires p == |str| || !(str[p] == '=' || IsDigit(str[p]))
    ensures Ended(DecodeFrom(str, [], size), was, now, q)
  {
    hide IsDigit, DecodeFrom;
    DecodeEnd(str[p..], now[..q], size);
    assert now == now[..q] + now[q..];
  }

  /** Decode into data. Without a size the caller provides three bytes for each token. */
  method Decode64(str: string, data: array<Byte>, size: int) returns (r: int)
    requires size < 0 ==> |str| / 4 * 3 <= data.Length
    requires size <= data.Length
    modifies data
    ensures Ended(DecodeFrom(str, [], size), old(data[..]), data[..], r)
    ensures var d := DecodeFrom(str, [], size);
      r == (if d.ok then |d.out| else -1) && |d.out| <= data.Length && data[..] == d.out + old(data[..])[|d.out|..]
  {
    hide Bytes, IsDigit, Token, DecodeFrom;
    var p, q: nat := 0, 0;
    ghost var was := data[..];
    RunStart(str, size, was);
    while p < |str| && (str[p] == '=' || IsDigit(str[p]))
      invariant 0 <= p <= |str| && Running(str, size, was, data[..], p, q)
      decreases |str| - p
    {
      ghost var now := data[..];
      var token := TokenDecode(str[p..]);
      if token == DECODE_ERROR {
        RunStep(str, size, was, now, now, p, q, q, false);
        return -1;
      }
      TokenRange(str[p..]);
      ghost var from := q;
      var ok;
      ok, q := Store(token, data, q, size);
      RunStep(str, size, was, now, data[..], p, from, q, ok);
      if !ok { return -1; }
      p := p + 4;
    }
    RunEnd(str, size, was, data[..], p, q);
    return q;
  }

  // ---- the decoder undoes the encoder

  lemma DigitPos(k: nat)
    requires k < 64
    ensures PosOf(Digit(k)) == k && Digit(k) != '='
  {
  }

  /** Four base-64 digits of a 24-bit number. */
  lemma Digits24(v: nat)
    requires v < 0x100_0000
    ensures v / 262144 < 64 && ((v / 262144 * 64 + v / 4096 % 64) * 64 + v / 64 % 64) * 64 + v % 64 == v
  {
    assert v / 4096 == 64 * (v / 262144) + v / 4096 % 64;
    assert v / 64 == 64 * (v / 4096) + v / 64 % 64;
  }

  lemma ShiftDigit(val: nat, k: nat)
    requires val < 0x4_0000 && k < 64
    ensures Shifted(val, Digit(k)) == val * 64 + k && Shifted(val, '=') == val * 64
  {
    DigitPos(k);
  }

  /** A character of a group: a digit, or padding in place of a zero digit. */
  ghost predicate Stands(c: char, k: nat)
    requires k < 64
  {
    c == Digit(k) || (c == '=' && k == 0)
  }

  lemma ValueOf(t: string, a: nat, b: nat, c: nat, e: nat)
    requires |t| >= 4 && a < 64 && b < 64 && c < 64 && e < 64
    requires Stands(t[0], a) && Stands(t[1], b) && Stands(t[2], c) && Stands(t[3], e)
    ensures Value(t, 4) == ((a * 64 + b) * 64 + c) * 64 + e
  {
    hide Digit, Shifted, IsDigit;
    ShiftDigit(0, a);
    ShiftDigit(a, b);
    ShiftDigit(a * 64 + b, c);
    ShiftDigit((a * 64 + b) * 64 + c, e);
    assert Value(t, 1) == a;
    assert Value(t, 2) == a * 64 + b;
    assert Value(t, 3) == (a * 64 + b) * 64 + c;
  }

  lemma PaddingOf(t: string)
    requires |t| >= 4 && t[0] != '=' && t[1] != '=' && (t[2] == '=' ==> t[3] == '=')
    ensures WellFormed(t) && Padding(t, 4) == (if t[2] == '=' then 2 else if t[3] == '=' then 1 else 0)
  {
    assert Padding(t, 2) == 0;
  }

  /** The encoding of up to three bytes has their number as its value, and one padding
      character for each missing byte. */
  lemma GroupValue(d: seq<Byte>, rest: string)
    requires d != []
    ensures var t := Group(d) + rest;
      Value(t, 4) == Word(d) && Padding(t, 4) == (if |d| < 3 then 3 - |d| else 0) && WellFormed(t) && Coding(t[0])
  {
    hide Digit, Shifted, Word, Value, Padding, WellFormed;
    var t, v := Group(d) + rest, Word(d);
    Digits24(v);
    WordEnds(d);
    var a, b, c, e := v / 262144, v / 4096 % 64, v / 64 % 64, v % 64;
    DigitPos(a);
    DigitPos(b);
    DigitPos(c);
    DigitPos(e);
    ValueOf(t, a, b, c, e);
    PaddingOf(t);
  }

  /** Missing bytes leave zero digits. */
  lemma WordEnds(d: seq<Byte>)
    requires d != []
    ensures |d| < 2 ==> Word(d) / 64 % 64 == 0
    ensures |d| < 3 ==> Word(d) % 64 == 0
  {
  }

  lemma GroupBytes(d: seq<Byte>, rest: string)
    requires d != []
    ensures var t := Group(d) + rest;
      Token(t) != DECODE_ERROR && Bytes(Token(t)) == d[..if |d| < 3 then |d| else 3]
  {
    hide Value, Padding, Group, Word, Bytes, Tagged;
    GroupValue(d, rest);
    var marker := if |d| < 3 then 3 - |d| else 0;
    TagRead(marker, Word(d));
    BytesOfWord(d, marker);
  }

  lemma BytesOfWord(d: seq<Byte>, marker: nat)
    requires d != [] && marker == if |d| < 3 then 3 - |d| else 0
    ensures Bytes(marker * 0x100_0000 + Word(d)) == d[..3 - marker]
  {
    var a: int, b: int, c: int := d[0], if |d| > 1 then d[1] else 0, if |d| > 2 then d[2] else 0;
    assert Word(d) == 65536 * a + 256 * b + c;
    assert (marker * 0x100_0000 + Word(d)) / 65536 == marker * 256 + a;
    assert (marker * 0x100_0000 + Word(d)) / 256 == marker * 65536 + 256 * a + b;
  }

  lemma TagRead(marker: nat, val: nat)
    requires marker < 3 && val < 0x100_0000
    ensures Tagged(marker, val) == marker * 0x100_0000 + val
  {
    assert val / 0x100_0000 == 0;
  }

  lemma PosMeaning(c: char)
    ensures PosOf(c) == Sextet(c)
  {
    hide Digit, Sextet;
    SextetDigit(c);
    if Sextet(c) >= 0 {
      DigitPos(Sextet(c));
    } else if IsDigit(c) {
      DigitMeaning(PosOf(c));
    }
  }

  lemma SextetDigit(c: char)
    ensures -1 <= Sextet(c) < 64 && (Sextet(c) >= 0 ==> Digit(Sextet(c)) == c)
  {
  }

  /** A token in terms of characters and bytes: padding is accepted in the last place, or the
      last two; the bytes are those of the 24-bit number that the characters hold. */
  lemma TokenMeaning(t: string)
    requires |t| >= 4 && forall i :: 0 <= i < 4 ==> t[i] == '=' || Sextet(t[i]) >= 0
    ensures t[0] == '=' || t[1] == '=' || (t[2] == '=' && t[3] != '=') <==> Token(t) == DECODE_ERROR
    ensures Token(t) != DECODE_ERROR ==>
      (var v := 262144 * Sextet(t[0]) + 4096 * Sextet(t[1]) + (if t[2] == '=' then 0 else 64 * Sextet(t[2]))
              + if t[3] == '=' then 0 else Sextet(t[3]);
       var b := Bytes(Token(t));
       && 0 <= v < 0x100_0000 && |b| == (if t[2] == '=' then 1 else if t[3] == '=' then 2 else 3)
       && b[0] as int == v / 65536 && (|b| > 1 ==> b[1] as int == v / 256 % 256) && (|b| > 2 ==> b[2] as int == v % 256))
  {
    hide Digit, Sextet, Value, Tagged, WellFormed, Padding, Bytes;
    if t[0] == '=' || t[1] == '=' || (t[2] == '=' && t[3] != '=') {
      IllFormed(t);
    } else {
      forall i | 0 <= i < 4 ensures -1 <= Sextet(t[i]) < 64 && (Sextet(t[i]) >= 0 ==> Digit(Sextet(t[i])) == t[i]) { SextetDigit(t[i]); }
      var c, e := if t[2] == '=' then 0 else Sextet(t[2]), if t[3] == '=' then 0 else Sextet(t[3]);
      EqualsIsNone();
      ValueOf(t, Sextet(t[0]), Sextet(t[1]), c, e);
      PaddingOf(t);
      TagRead(Padding(t, 4), Value(t, 4));
      BytesMeaning(Padding(t, 4), Value(t, 4));
    }
  }

  lemma EqualsIsNone()
    ensures Sextet('=') == -1
  {
  }

  lemma IllFormed(t: string)
    requires |t| >= 4 && (t[0] == '=' || t[1] == '=' || (t[2] == '=' && t[3] != '='))
    ensures !WellFormed(t)
  {
    assert Padding(t, 0) == 0;
    assert Padding(t, 1) == if t[0] == '=' then 1 else 0;
    assert Padding(t, 2) == Padding(t, 1) + if t[1] == '=' then 1 else 0;
    assert Padding(t, 3) == Padding(t, 2) + if t[2] == '=' then 1 else 0;
  }

  lemma BytesMeaning(marker: nat, v: nat)
    requires marker < 3 && v < 0x100_0000
    ensures var b := Bytes(marker * 0x100_0000 + v);
      && |b| == 3 - marker && marker * 0x100_0000 + v != DECODE_ERROR
      && b[0] as int == v / 65536 && (|b| > 1 ==> b[1] as int == v / 256 % 256) && (|b| > 2 ==> b[2] as int == v % 256)
  {
    var token := marker * 0x100_0000 + v;
    assert token / 65536 == marker * 256 + v / 65536 && token / 256 == marker * 65536 + v / 256;
  }

  /** Decoding an encoding gives the bytes back, and fails exactly when the room is too
      small. */
  lemma {:induction false} DecodeEncoded(d: seq<Byte>, out: seq<Byte>, size: int)
    requires size < 0 || |out| <= size
    ensures DecodeFrom(Encoded64(d), out, size) ==
      if size < 0 || |out| + |d| <= size then Decoding(true, out + d) else Decoding(false, out + d[..size - |out|])
    decreases |d|
  {
    hide Bytes, Token, Group, IsDigit, DecodeFrom;
    if d == [] {
      DecodeEnd("", out, size);
      assert out + d == out;
    } else {
      var rest := Encoded64(Rest(d));
      var s := Group(d) + rest;
      GroupBytes(d, rest);
      FirstCoding(d, rest);
      DecodeStep(s, out, size);
      var b := Bytes(Token(s));
      assert s[4..] == rest;
      Head(d, out, b, size);
      if size < 0 || |out| + |b| <= size { DecodeEncoded(Rest(d), out + b, size); }
    }
  }

  /** Encode, then decode: the bytes come back at the start of the memory, which is otherwise
      left alone; with a size, the result is -1 exactly if they do not fit. */
  method RoundTrip(d: seq<Byte>, data: array<Byte>, size: int) returns (r: int)
    requires size < 0 ==> (|d| + 2) / 3 * 3 <= data.Length
    requires size <= data.Length
    modifies data
    ensures r == if 0 <= size < |d| then -1 else |d|
    ensures var kept := if 0 <= size < |d| then d[..size] else d;
      |kept| <= data.Length && data[..] == kept + old(data[|kept|..])
  {
    hide Encoded64, DecodeFrom;
    var s, n := Encode64(d);
    DecodeEncoded(d, [], size);
    assert [] + d == d;
    r := Decode64(s[..n], data, size);
  }

  /** The first bytes of d, written before the others. */
  lemma Head(d: seq<Byte>, out: seq<Byte>, b: seq<Byte>, size: int)
    requires d != [] && b == d[..if |d| < 3 then |d| else 3]
    ensures |b| + |Rest(d)| == |d| && out + b + Rest(d) == out + d
    ensures |out| <= size < |out| + |b| ==> out + b[..size - |out|] == out + d[..size - |out|]
    ensures |out| + |b| <= size <= |out| + |d| ==> out + b + Rest(d)[..size - |out + b|] == out + d[..size - |out|]
  {
    assert d == b + Rest(d);
  }

  lemma FirstCoding(d: seq<Byte>, rest: string)
    requires d != []
    ensures var c := (Group(d) + rest)[0]; c == '=' || IsDigit(c)
  {
    GroupValue(d, rest);
  }
}
