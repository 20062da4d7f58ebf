/**
 Percent-encoding of free-text URI components as JavaScript's `encodeURIComponent` does it:
 every character outside the unescaped set is written as its UTF-8 bytes (section 3 of
 RFC 3629), each byte as `%` followed by two upper-case hexadecimal digits (section 2.1 of
 RFC 3986). Dafny characters are Unicode scalar values, so the lone-surrogate error case of
 JavaScript strings cannot arise.

 The partner of `Encode` is `Decode`, which reads `%XX` escapes back into bytes and then the
 bytes back into characters; `DecodeEncode` proves the round trip for every string.
 */
module Percent {
  import opened Common

  type Byte = x: int | 0 <= x < 256

  /** The characters `encodeURIComponent` keeps: ALPHA, DIGIT and - _ . ! ~ * ' ( ) */
  predicate Unescaped(c: char) {
    ('A' <= c <= 'Z') || ('a' <= c <= 'z') || ('0' <= c <= '9') || c in "-_.!~*'()"
  }

  predicate IsHexDigit(c: char) {
    ('0' <= c <= '9') || ('A' <= c <= 'F') || ('a' <= c <= 'f')
  }

  /** The upper-case hexadecimal digit of `n`. */
  function HexChar(n: nat): (c: char)
    requires n < 16
    ensures IsHexDigit(c) && HexValue(c) == n
  {
    if n < 10 then ('0' as int + n) as char else ('A' as int + n - 10) as char
  }

  function HexValue(c: char): (v: nat)
    requires IsHexDigit(c)
    ensures v < 16
  {
    if '0' <= c <= '9' then c as int - '0' as int
    else if 'A' <= c <= 'F' then c as int - 'A' as int + 10
    else c as int - 'a' as int + 10
  }

  /** `%` and the two upper-case hexadecimal digits of byte `b`. */
  function EscapeByte(b: Byte): (e: string)
    ensures |e| == 3 && e[0] == '%' && IsHexDigit(e[1]) && IsHexDigit(e[2])
    ensures HexValue(e[1]) * 16 + HexValue(e[2]) == b
  {
    ['%', HexChar(b / 16), HexChar(b % 16)]
  }

  function EscapeBytes(bs: seq<Byte>): (e: string)
    ensures forall i :: 0 <= i < |e| ==> e[i] == '%' || IsHexDigit(e[i])
  {
    if |bs| == 0 then "" else EscapeByte(bs[0]) + EscapeBytes(bs[1..])
  }

  /** Scalar values are below 0x110000 and outside the surrogate range. */
  predicate IsScalar(cp: int) {
    (0 <= cp < 0xD800) || (0xE000 <= cp < 0x11_0000)
  }

  /** UTF-8 encoding of one character (section 3 of RFC 3629). */
  function Utf8(c: char): (bs: seq<Byte>)
    ensures 1 <= |bs| <= 4
  {
    var cp := c as int;
    if cp < 0x80 then [cp]
    else if cp < 0x800 then [0xC0 + cp / 64, 0x80 + cp % 64]
    else if cp < 0x1_0000 then [0xE0 + cp / 4096, 0x80 + (cp / 64) % 64, 0x80 + cp % 64]
    else [0xF0 + cp / 0x4_0000, 0x80 + (cp / 4096) % 64, 0x80 + (cp / 64) % 64, 0x80 + cp % 64]
  }

  function Utf8String(s: string): seq<Byte> {
    if |s| == 0 then [] else Utf8(s[0]) + Utf8String(s[1..])
  }

  function EncodeChar(c: char): (e: string)
    ensures forall i :: 0 <= i < |e| ==> Unescaped(e[i]) || e[i] == '%' || IsHexDigit(e[i])
  {
    if Unescaped(c) then [c] else EscapeBytes(Utf8(c))
  }

  /** `encodeURIComponent(s)`. The result never contains a URI delimiter such as `&`, `=`, `?` or `#`. */
  function Encode(s: string): (e: string)
    ensures forall i :: 0 <= i < |e| ==> Unescaped(e[i]) || e[i] == '%' || IsHexDigit(e[i])
  {
    if |s| == 0 then "" else EncodeChar(s[0]) + Encode(s[1..])
  }

  /** Reads a percent-encoded string back into bytes; `None` for a malformed escape or an escapable character. */
  function DecodeBytes(t: string): Option<seq<Byte>> {
    if |t| == 0 then Some([])
    else if t[0] == '%' then
      if |t| >= 3 && IsHexDigit(t[1]) && IsHexDigit(t[2]) then
        match DecodeBytes(t[3..])
        case None => None
        case Some(rest) => Some([HexValue(t[1]) * 16 + HexValue(t[2])] + rest)
      else None
    else if Unescaped(t[0]) then
      match DecodeBytes(t[1..])
      case None => None
      case Some(rest) => Some([t[0] as int] + rest)
    else None
  }

  /** The number of bytes a UTF-8 sequence starting with `b` has; 0 for a byte that cannot start one. */
  function SequenceLength(b: Byte): nat {
    if b < 0x80 then 1
    else if 0xC0 <= b < 0xE0 then 2
    else if 0xE0 <= b < 0xF0 then 3
    else if 0xF0 <= b < 0xF8 then 4
    else 0
  }

  predicate IsContinuation(b: Byte) {
    0x80 <= b < 0xC0
  }

  /** The scalar value of one complete UTF-8 sequence, if it is one. */
  function DecodeScalar(bs: seq<Byte>): Option<char>
    requires 1 <= |bs| <= 4 && SequenceLength(bs[0]) == |bs|
  {
    if exists i :: 1 <= i < |bs| && !IsContinuation(bs[i]) then None
    else
      var b: seq<int> := bs;
      var cp :=
        if |b| == 1 then b[0]
        else if |b| == 2 then (b[0] - 0xC0) * 64 + (b[1] - 0x80)
        else if |b| == 3 then (b[0] - 0xE0) * 4096 + (b[1] - 0x80) * 64 + (b[2] - 0x80)
        else (b[0] - 0xF0) * 0x4_0000 + (b[1] - 0x80) * 4096 + (b[2] - 0x80) * 64 + (b[3] - 0x80);
      if IsScalar(cp) then Some(cp as char) else None
  }

  /** Reads a byte sequence as UTF-8 text. */
  function DecodeUtf8(bs: seq<Byte>): Option<string>
    decreases |bs|
  {
    if |bs| == 0 then Some("")
    else
      var n := SequenceLength(bs[0]);
      if n == 0 || |bs| < n then None
      else match DecodeScalar(bs[..n])
        case None => None
        case Some(c) =>
          match DecodeUtf8(bs[n..])
          case None => None
          case Some(rest) => Some([c] + rest)
  }

  /** `decodeURIComponent`, restricted to the strings `Encode` can produce. */
  function Decode(t: string): Option<string> {
    match DecodeBytes(t)
    case None => None
    case Some(bs) => DecodeUtf8(bs)
  }

  lemma {:induction false} DecodeEscapedBytes(bs: seq<Byte>, rest: string)
    ensures DecodeBytes(EscapeBytes(bs) + rest) ==
      (match DecodeBytes(rest) case None => None case Some(r) => Some(bs + r))
  {
    if |bs| > 0 {
      var e := EscapeByte(bs[0]);
      assert EscapeBytes(bs) + rest == e + (EscapeBytes(bs[1..]) + rest);
      assert (e + (EscapeBytes(bs[1..]) + rest))[3..] == EscapeBytes(bs[1..]) + rest;
      DecodeEscapedBytes(bs[1..], rest);
      match DecodeBytes(rest) {
        case None =>
        case Some(r) =>
          calc {
            DecodeBytes(EscapeBytes(bs) + rest);
            DecodeBytes(e + (EscapeBytes(bs[1..]) + rest));
            Some([bs[0]] + (bs[1..] + r));
            { assert [bs[0]] + (bs[1..] + r) == bs + r; }
            Some(bs + r);
          }
      }
    } else {
      assert EscapeBytes(bs) + rest == rest;
      match DecodeBytes(rest) {
        case None =>
        case Some(r) => assert bs + r == r;
      }
    }
  }

  /** An unescaped character is ASCII, so its UTF-8 form is the single byte of its code. */
  lemma UnescapedIsAscii(c: char)
    requires Unescaped(c)
    ensures c as int < 0x80 && Utf8(c) == [c as int]
  {
  }

  lemma DecodeEncodedChar(c: char, rest: string)
    ensures DecodeBytes(EncodeChar(c) + rest) ==
      (match DecodeBytes(rest) case None => None case Some(r) => Some(Utf8(c) + r))
  {
    if Unescaped(c) {
      UnescapedIsAscii(c);
      assert ([c] + rest)[1..] == rest;
    } else {
      DecodeEscapedBytes(Utf8(c), rest);
    }
  }

  /** Percent-decoding an encoded string yields exactly the UTF-8 bytes of the original. */
  lemma {:induction false} DecodeBytesEncode(s: string)
    ensures DecodeBytes(Encode(s)) == Some(Utf8String(s))
  {
    if |s| > 0 {
      DecodeBytesEncode(s[1..]);
      DecodeEncodedChar(s[0], Encode(s[1..]));
    }
  }

  /** Decoding the UTF-8 form of one character gives the character back. */
  lemma DecodeScalarUtf8(c: char)
    ensures SequenceLength(Utf8(c)[0]) == |Utf8(c)|
    ensures DecodeScalar(Utf8(c)) == Some(c)
  {
    var cp := c as int;
    if cp < 0x80 {
    } else if cp < 0x800 {
      DecodeTwo(c);
    } else if cp < 0x1_0000 {
      DecodeThree(c);
    } else {
      DecodeFour(c);
    }
  }

  lemma DecodeTwo(c: char)
    requires 0x80 <= c as int < 0x800
    ensures SequenceLength(Utf8(c)[0]) == 2 && DecodeScalar(Utf8(c)) == Some(c)
  {
    var cp := c as int;
    var bs := Utf8(c);
    assert bs == [0xC0 + cp / 64, 0x80 + cp % 64];
    assert IsContinuation(bs[1]);
    assert cp == (cp / 64) * 64 + cp % 64;
  }

  lemma DecodeThree(c: char)
    requires 0x800 <= c as int < 0x1_0000
    ensures SequenceLength(Utf8(c)[0]) == 3 && DecodeScalar(Utf8(c)) == Some(c)
  {
    var cp := c as int;
    var bs := Utf8(c);
    assert bs == [0xE0 + cp / 4096, 0x80 + (cp / 64) % 64, 0x80 + cp % 64];
    assert IsContinuation(bs[1]) && IsContinuation(bs[2]);
    assert cp / 64 == (cp / 4096) * 64 + (cp / 64) % 64;
    assert cp == (cp / 64) * 64 + cp % 64;
  }

  lemma DecodeFour(c: char)
    requires 0x1_0000 <= c as int
    ensures SequenceLength(Utf8(c)[0]) == 4 && DecodeScalar(Utf8(c)) == Some(c)
  {
    var cp := c as int;
    var bs := Utf8(c);
    assert cp < 0x11_0000;
    assert bs == [0xF0 + cp / 0x4_0000, 0x80 + (cp / 4096) % 64, 0x80 + (cp / 64) % 64, 0x80 + cp % 64];
    assert IsContinuation(bs[1]) && IsContinuation(bs[2]) && IsContinuation(bs[3]);
    assert cp / 4096 == (cp / 0x4_0000) * 64 + (cp / 4096) % 64;
    assert cp / 64 == (cp / 4096) * 64 + (cp / 64) % 64;
    assert cp == (cp / 64) * 64 + cp % 64;
  }

  lemma {:induction false} DecodeUtf8String(s: string)
    ensures DecodeUtf8(Utf8String(s)) == Some(s)
  {
    if |s| > 0 {
      var bs := Utf8(s[0]);
      var all := Utf8String(s);
      DecodeScalarUtf8(s[0]);
      assert all[..|bs|] == bs;
      assert all[|bs|..] == Utf8String(s[1..]);
      DecodeUtf8String(s[1..]);
      assert s == [s[0]] + s[1..];
    }
  }

  /** `decodeURIComponent(encodeURIComponent(s)) == s`: the encoding loses nothing. */
  lemma DecodeEncode(s: string)
    ensures Decode(Encode(s)) == Some(s)
  {
    DecodeBytesEncode(s);
    DecodeUtf8String(s);
  }
}
