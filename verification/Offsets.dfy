/** offtout and offtin: signed 64-bit lengths as eight bytes, low byte first, with the
    sign in the top bit of the last byte. */
module Offsets {

  type Byte = b: nat | b < 256

  /** The largest magnitude that fits beside the sign bit, plus one. */
  const LIMIT: int := 0x8000_0000_0000_0000

  ghost function Power256(n: nat): nat {
    if n == 0 then 1 else 256 * Power256(n - 1)
  }

  /** The n lowest base-256 digits of y. */
  ghost function Digits(y: nat, n: nat): (s: seq<Byte>)
    ensures |s| == n
  {
    if n == 0 then [] else [y % 256] + Digits(y / 256, n - 1)
  }

  ghost function Value(s: seq<Byte>): nat {
    if s == [] then 0 else s[0] + 256 * Value(s[1..])
  }

  lemma {:induction false} ValueOfDigits(y: nat, n: nat)
    requires y < Power256(n)
    ensures Value(Digits(y, n)) == y
  {
    if n > 0 {
      ValueOfDigits(y / 256, n - 1);
      assert Digits(y, n)[1..] == Digits(y / 256, n - 1);
    }
  }

  /** Eight bytes for x: the digits of its magnitude, and the sign. */
  ghost function Encoded(x: int): (s: seq<Byte>)
    requires -LIMIT < x < LIMIT
    ensures |s| == 8
  {
    var y := if x < 0 then -x else x;
    TopDigit(y, 8);
    var d := Digits(y, 8);
    if x < 0 then d[7 := d[7] + 128] else d
  }

  ghost function Decoded(s: seq<Byte>): int
    requires |s| == 8
  {
    if s[7] >= 128 then 0 - Value(s[7 := s[7] - 128]) else Value(s)
  }

  /** Eight digits as a number, the low one first. */
  lemma EightDigits(s: seq<Byte>)
    requires |s| == 8
    ensures Value(s) == s[0] as int + 0x100 * s[1] as int + 0x1_0000 * s[2] as int + 0x100_0000 * s[3] as int
      + 0x1_0000_0000 * s[4] as int + 0x100_0000_0000 * s[5] as int + 0x1_0000_0000_0000 * s[6] as int + 0x100_0000_0000_0000 * s[7] as int
  {
    assert Value(s[8..]) == 0;
    assert Value(s[7..]) == s[7] by { assert s[7..][1..] == s[8..]; }
    assert s[6..][1..] == s[7..] && s[5..][1..] == s[6..] && s[4..][1..] == s[5..];
    assert s[3..][1..] == s[4..] && s[2..][1..] == s[3..] && s[1..][1..] == s[2..] && s[0..] == s;
    var v4: int := Value(s[4..]);
    assert v4 == s[4] as int + 0x100 * s[5] as int + 0x1_0000 * s[6] as int + 0x100_0000 * s[7] as int;
    assert Value(s[2..]) == s[2] as int + 0x100 * s[3] as int + 0x1_0000 * v4;
  }

  /** What the bytes of a number are: the sign in the top bit, the magnitude in the digits. */
  lemma BytesOfNumber(x: int)
    requires -LIMIT < x < LIMIT
    ensures var s := Encoded(x);
      && (s[7] >= 128 <==> x < 0)
      && (if x < 0 then -x else x) == s[0] as int + 0x100 * s[1] as int + 0x1_0000 * s[2] as int + 0x100_0000 * s[3] as int
         + 0x1_0000_0000 * s[4] as int + 0x100_0000_0000 * s[5] as int + 0x1_0000_0000_0000 * s[6] as int
         + 0x100_0000_0000_0000 * (s[7] as int % 128)
  {
    hide Value, Digits;
    var y := if x < 0 then -x else x;
    Powers();
    TopDigit(y, 8);
    ValueOfDigits(y, 8);
    EightDigits(Digits(y, 8));
  }

  /** And back. */
  lemma NumberOfBytes(s: seq<Byte>)
    requires |s| == 8
    ensures var y := s[0] as int + 0x100 * s[1] as int + 0x1_0000 * s[2] as int + 0x100_0000 * s[3] as int
         + 0x1_0000_0000 * s[4] as int + 0x100_0000_0000 * s[5] as int + 0x1_0000_0000_0000 * s[6] as int
         + 0x100_0000_0000_0000 * (s[7] as int % 128);
      Decoded(s) == if s[7] >= 128 then -y else y
  {
    hide Value;
    EightDigits(if s[7] >= 128 then s[7 := s[7] - 128] else s);
  }

  /** The last of n digits of a number below half the range is below 128. */
  lemma {:induction false} TopDigit(y: nat, n: nat)
    requires n > 0 && 2 * y < Power256(n)
    ensures Digits(y, n)[n - 1] < 128
    decreases n
  {
    if n > 1 {
      assert Power256(n) == 256 * Power256(n - 1);
      TopDigit(y / 256, n - 1);
      assert Digits(y, n)[n - 1] == Digits(y / 256, n - 1)[n - 2];
    } else {
      assert Power256(1) == 256 * Power256(0);
    }
  }

  /** Reading back what was written. */
  lemma DecodeEncode(x: int)
    requires -LIMIT < x < LIMIT
    ensures Decoded(Encoded(x)) == x
  {
    var y := if x < 0 then -x else x;
    Powers();
    TopDigit(y, 8);
    ValueOfDigits(y, 8);
    var d := Digits(y, 8);
    if x < 0 {
      assert Encoded(x)[7 := Encoded(x)[7] - 128] == d;
    }
  }

  lemma Powers()
    ensures Power256(8) == 2 * LIMIT
  {
    assert Power256(2) == 0x1_0000 && Power256(4) == 0x1_0000_0000 by {
      assert Power256(1) == 256;
      assert Power256(3) == 0x100_0000;
    }
    assert Power256(5) == 0x100_0000_0000;
    assert Power256(6) == 0x1_0000_0000_0000;
    assert Power256(7) == 0x100_0000_0000_0000;
  }

  /** offtout: write x, digit by digit. */
  method OffTOut(x: int) returns (buf: seq<Byte>)
    requires -LIMIT < x < LIMIT
    ensures buf == Encoded(x)
  {
    var y: nat := if x < 0 then -x else x;
    hide Digits;
    ghost var y0 := y;
    buf := [];
    for k := 0 to 8
      invariant |buf| == k && Digits(y0, 8) == buf + Digits(y, 8 - k)
    {
      NextDigit(y, 8 - k, buf);
      buf := buf + [y % 256];
      y := y / 256;
    }
    assert buf == Digits(y0, 8);
    Powers();
    TopDigit(y0, 8);
    if x < 0 { buf := buf[7 := buf[7] + 128]; }
  }

  lemma NextDigit(y: nat, n: nat, buf: seq<Byte>)
    requires n > 0
    ensures buf + Digits(y, n) == buf + [y % 256] + Digits(y / 256, n - 1)
  {
  }

  /** offtin: read eight bytes, from the highest digit down. */
  method OffTIn(buf: seq<Byte>) returns (y: int)
    requires |buf| == 8
    ensures y == Decoded(buf)
  {
    ghost var d: seq<Byte> := if buf[7] >= 128 then buf[7 := buf[7] - 128] else buf;
    y := buf[7] % 128;
    assert d[7..] == [y] && Value([y]) == y by { assert [y][1..] == []; }
    var k := 7;
    while k > 0
      invariant 0 <= k <= 7 && y == Value(d[k..])
    {
      k := k - 1;
      assert d[k..] == [buf[k]] + d[k + 1..];
      y := y * 256 + buf[k];
    }
    assert d[0..] == d;
    if buf[7] >= 128 { y := -y; }
  }
}
