/**
 * UTF-8 as `String::from_utf8` accepts it: the well-formed byte sequences of
 * the Unicode Standard, Table 3-7 (no overlong forms, no surrogates, nothing
 * above U+10FFFF). `Encode` is the inverse used to state what `Decode` means.
 */
module Utf8 {
  import opened Wrappers

  type byte = x: int | 0 <= x < 256

  predicate IsContinuation(b: byte)
  {
    0x80 <= b <= 0xBF
  }

  /** Bytes that occur in no well-formed UTF-8 text. */
  predicate NeverInUtf8(b: byte)
  {
    b == 0xC0 || b == 0xC1 || b >= 0xF5
  }

  /** Allowed range of the second byte of a three- or four-byte sequence led by `lead`. */
  function SecondByteLow(lead: byte): byte
  {
    if lead == 0xE0 then 0xA0 else if lead == 0xF0 then 0x90 else 0x80
  }

  function SecondByteHigh(lead: byte): byte
  {
    if lead == 0xED then 0x9F else if lead == 0xF4 then 0x8F else 0xBF
  }

  /**
   * The character encoded at the start of `b` and the number of bytes it takes,
   * or None when `b` does not start with a well-formed sequence.
   */
  function DecodeFirst(b: seq<byte>): (r: Option<(char, nat)>)
    requires |b| > 0
    ensures r.Some? ==> 1 <= r.value.1 <= 4 && r.value.1 <= |b|
    ensures r.Some? ==> (r.value.1 == 1 <==> b[0] < 0x80)
    ensures r.Some? && r.value.1 == 1 ==> r.value.0 as int == b[0]
    ensures r.Some? ==> forall i :: 1 <= i < r.value.1 ==> IsContinuation(b[i])
    ensures r.Some? ==> !NeverInUtf8(b[0])
    ensures b[0] < 0x80 ==> r.Some?
  {
    var b0 := b[0];
    if b0 < 0x80 then
      Some((b0 as char, 1))
    else if 0xC2 <= b0 <= 0xDF then
      if |b| >= 2 && IsContinuation(b[1]) then
        Some((((b0 as int - 0xC0) * 64 + (b[1] as int - 0x80)) as char, 2))
      else None
    else if 0xE0 <= b0 <= 0xEF then
      if |b| >= 3 && SecondByteLow(b0) <= b[1] <= SecondByteHigh(b0) && IsContinuation(b[2]) then
        Some((((b0 as int - 0xE0) * 4096 + (b[1] as int - 0x80) * 64 + (b[2] as int - 0x80)) as char, 3))
      else None
    else if 0xF0 <= b0 <= 0xF4 then
      if |b| >= 4 && SecondByteLow(b0) <= b[1] <= SecondByteHigh(b0)
         && IsContinuation(b[2]) && IsContinuation(b[3]) then
        Some((((b0 as int - 0xF0) * 262144 + (b[1] as int - 0x80) * 4096 + (b[2] as int - 0x80) * 64 + (b[3] as int - 0x80)) as char, 4))
      else None
    else None
  }

  /** `String::from_utf8`: the decoded text, or None for ill-formed input. */
  function Decode(b: seq<byte>): (r: Option<string>)
    decreases |b|
  {
    if b == [] then Some("")
    else match DecodeFirst(b)
      case None => None
      case Some((c, n)) =>
        match Decode(b[n..])
        case None => None
        case Some(rest) => Some([c] + rest)
  }

  /** The UTF-8 encoding of one character. */
  function EncodeChar(c: char): (r: seq<byte>)
    ensures 1 <= |r| <= 4
  {
    var v := c as int;
    if v < 0x80 then [v]
    else if v < 0x800 then [0xC0 + v / 64, 0x80 + v % 64]
    else if v < 0x10000 then [0xE0 + v / 4096, 0x80 + (v / 64) % 64, 0x80 + v % 64]
    else [0xF0 + v / 262144, 0x80 + (v / 4096) % 64, 0x80 + (v / 64) % 64, 0x80 + v % 64]
  }

  function Encode(s: string): (r: seq<byte>)
  {
    if s == [] then [] else EncodeChar(s[0]) + Encode(s[1..])
  }

  /** Each character's encoding is read back as that character, whatever follows it. */
  lemma DecodeFirstOfEncodeChar(c: char, rest: seq<byte>)
    ensures DecodeFirst(EncodeChar(c) + rest) == Some((c, |EncodeChar(c)|))
  {
    var v := c as int;
    if v < 0x80 {
    } else if v < 0x800 {
      DecodeFirstOfTwo(c, rest);
    } else if v < 0x10000 {
      DecodeFirstOfThree(c, rest);
    } else {
      DecodeFirstOfFour(c, rest);
    }
  }

  lemma DecodeFirstOfTwo(c: char, rest: seq<byte>)
    requires 0x80 <= c as int < 0x800
    ensures DecodeFirst(EncodeChar(c) + rest) == Some((c, 2))
  {
    var v := c as int;
    var q, r := v / 64, v % 64;
    assert v == 64 * q + r && 0 <= r < 64;
    var b := EncodeChar(c) + rest;
    assert b[0] == 0xC0 + q && b[1] == 0x80 + r;
  }

  lemma DecodeFirstOfThree(c: char, rest: seq<byte>)
    requires 0x800 <= c as int < 0x10000
    ensures DecodeFirst(EncodeChar(c) + rest) == Some((c, 3))
  {
    var v := c as int;
    var hi, q, r := v / 4096, (v / 64) % 64, v % 64;
    assert v / 64 == 64 * hi + q && 0 <= q < 64;
    assert v == 64 * (v / 64) + r && 0 <= r < 64;
    assert v == 4096 * hi + 64 * q + r;
    var b := EncodeChar(c) + rest;
    assert b[0] == 0xE0 + hi && b[1] == 0x80 + q && b[2] == 0x80 + r;
    assert hi == 0 ==> q >= 32;
    assert hi == 13 ==> q < 32;
  }

  lemma DecodeFirstOfFour(c: char, rest: seq<byte>)
    requires 0x10000 <= c as int
    ensures DecodeFirst(EncodeChar(c) + rest) == Some((c, 4))
  {
    var v := c as int;
    var top, hi, q, r := v / 262144, (v / 4096) % 64, (v / 64) % 64, v % 64;
    assert v / 4096 == 64 * top + hi && 0 <= hi < 64;
    assert v / 64 == 64 * (v / 4096) + q && 0 <= q < 64;
    assert v == 64 * (v / 64) + r && 0 <= r < 64;
    assert v == 262144 * top + 4096 * hi + 64 * q + r;
    var b := EncodeChar(c) + rest;
    assert b[0] == 0xF0 + top && b[1] == 0x80 + hi && b[2] == 0x80 + q && b[3] == 0x80 + r;
    assert top == 0 ==> hi >= 16;
    assert top == 4 ==> hi < 16;
  }

  /** Decoding inverts encoding. */
  lemma {:induction false} DecodeEncode(s: string)
    ensures Decode(Encode(s)) == Some(s)
  {
    if s != [] {
      var e := EncodeChar(s[0]);
      DecodeFirstOfEncodeChar(s[0], Encode(s[1..]));
      assert Encode(s) == e + Encode(s[1..]);
      assert (e + Encode(s[1..]))[|e|..] == Encode(s[1..]);
      DecodeEncode(s[1..]);
      assert [s[0]] + s[1..] == s;
    }
  }

  /** ASCII bytes decode one character each, in front of whatever the rest decodes to. */
  lemma {:induction false} DecodeAsciiPrefix(a: seq<byte>, b: seq<byte>)
    requires forall i :: 0 <= i < |a| ==> a[i] < 0x80
    ensures Decode(a + b).Some? <==> Decode(b).Some?
    ensures Decode(b).Some? ==> Decode(a + b).value == AsciiText(a) + Decode(b).value
  {
    if a != [] {
      assert (a + b)[1..] == a[1..] + b;
      DecodeAsciiPrefix(a[1..], b);
    } else {
      assert a + b == b;
    }
  }

  /** Well-formed input that starts with `n` ASCII bytes decodes to text that starts with those characters. */
  lemma DecodeAsciiStart(b: seq<byte>, n: nat)
    requires n <= |b| && forall i :: 0 <= i < n ==> b[i] < 0x80
    requires Decode(b).Some?
    ensures |Decode(b).value| >= n && forall i :: 0 <= i < n ==> Decode(b).value[i] as int == b[i]
  {
    var head, tail := b[..n], b[n..];
    assert b == head + tail;
    DecodeAsciiPrefix(head, tail);
  }

  /** The characters of an all-ASCII byte string. */
  function AsciiText(a: seq<byte>): (s: string)
    requires forall i :: 0 <= i < |a| ==> a[i] < 0x80
    ensures |s| == |a| && forall i :: 0 <= i < |a| ==> s[i] as int == a[i]
  {
    if a == [] then "" else [a[0] as char] + AsciiText(a[1..])
  }

  /** The bytes of an all-ASCII string. */
  function AsciiBytes(s: string): (b: seq<byte>)
    requires forall i :: 0 <= i < |s| ==> s[i] as int < 0x80
    ensures |b| == |s| && forall i :: 0 <= i < |s| ==> b[i] == s[i] as int
  {
    if s == [] then [] else [s[0] as int] + AsciiBytes(s[1..])
  }

  /** An ASCII string written as bytes decodes to itself. */
  lemma DecodeAscii(s: string)
    requires forall i :: 0 <= i < |s| ==> s[i] as int < 0x80
    ensures Decode(AsciiBytes(s)) == Some(s)
  {
    var b := AsciiBytes(s);
    DecodeAsciiPrefix(b, []);
    assert b + [] == b;
    assert AsciiText(b) == s;
  }

  /** An ASCII byte of well-formed input shows up as that character in the text. */
  lemma {:induction false} DecodeKeepsAscii(b: seq<byte>, k: nat)
    requires k < |b| && b[k] < 0x80
    requires Decode(b).Some?
    ensures (b[k] as char) in Decode(b).value
    decreases |b|
  {
    var n := DecodeFirst(b).value.1;
    if k >= n {
      assert b[n..][k - n] == b[k];
      DecodeKeepsAscii(b[n..], k - n);
    }
  }

  /** One byte that belongs to no well-formed sequence makes the whole input ill-formed. */
  lemma {:induction false} DecodeRejectsNeverByte(b: seq<byte>, k: nat)
    requires k < |b| && NeverInUtf8(b[k])
    ensures Decode(b).None?
    decreases |b|
  {
    match DecodeFirst(b)
    case None =>
    case Some((c, n)) =>
      if k >= n {
        assert b[n..][k - n] == b[k];
        DecodeRejectsNeverByte(b[n..], k - n);
      }
  }
}
