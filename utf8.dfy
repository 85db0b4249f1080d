/** UTF-8, as Python's `str.encode("utf-8")` and strict `bytes.decode("utf-8")`
    apply it: the library encodes every response text before handing it to
    the XML parser and decodes the canonical XML back for `str()`. */
module Utf8 {

  import opened Base

  newtype byte = x: int | 0 <= x < 256

  predicate IsContinuation(b: byte) {
    0x80 <= b < 0xC0
  }

  /** The one to four bytes of one scalar value. */
  function EncodeChar(c: char): (r: seq<byte>)
    ensures 1 <= |r| <= 4
    ensures (c as int < 0x80) == (|r| == 1)
  {
    var n := c as int;
    if n < 0x80 then [n as byte]
    else if n < 0x800 then [(0xC0 + n / 64) as byte, (0x80 + n % 64) as byte]
    else if n < 0x10000 then
      [(0xE0 + n / 4096) as byte, (0x80 + n / 64 % 64) as byte, (0x80 + n % 64) as byte]
    else
      [(0xF0 + n / 262144) as byte, (0x80 + n / 4096 % 64) as byte,
       (0x80 + n / 64 % 64) as byte, (0x80 + n % 64) as byte]
  }

  /** `s.encode("utf-8")` */
  function Encode(s: string): seq<byte>
  {
    if s == [] then [] else EncodeChar(s[0]) + Encode(s[1..])
  }

  /** The first scalar value of `b` and the number of bytes it takes, when
      they form a well-formed sequence (no overlong form, no surrogate,
      nothing above U+10FFFF); `None` where a strict decoder fails. */
  function DecodeFirst(b: seq<byte>): (r: Option<(char, nat)>)
    ensures r.Some? ==> 1 <= r.value.1 <= |b| && r.value.1 <= 4
  {
    if |b| == 0 then None
    else if b[0] < 0x80 then Some((b[0] as int as char, 1))
    else if 0xC2 <= b[0] <= 0xDF then
      if |b| >= 2 && IsContinuation(b[1]) then
        Some((((b[0] as int - 0xC0) * 64 + (b[1] as int - 0x80)) as char, 2))
      else None
    else if 0xE0 <= b[0] <= 0xEF then
      if |b| >= 3 && IsContinuation(b[1]) && IsContinuation(b[2]) then
        var n := (b[0] as int - 0xE0) * 4096 + (b[1] as int - 0x80) * 64 + (b[2] as int - 0x80);
        if n < 0x800 || 0xD800 <= n < 0xE000 then None else Some((n as char, 3))
      else None
    else if 0xF0 <= b[0] <= 0xF4 then
      if |b| >= 4 && IsContinuation(b[1]) && IsContinuation(b[2]) && IsContinuation(b[3]) then
        var n := (b[0] as int - 0xF0) * 262144 + (b[1] as int - 0x80) * 4096
                 + (b[2] as int - 0x80) * 64 + (b[3] as int - 0x80);
        if n < 0x10000 || n > 0x10FFFF then None else Some((n as char, 4))
      else None
    else None
  }

  /** `b.decode("utf-8")`; `None` where Python raises UnicodeDecodeError. */
  function Decode(b: seq<byte>): Option<string>
    decreases |b|
  {
    if b == [] then Some([])
    else match DecodeFirst(b)
      case None => None
      case Some((c, k)) =>
        match Decode(b[k..])
        case None => None
        case Some(s) => Some([c] + s)
  }

  lemma {:induction false} EncodeAppend(s: string, t: string)
    ensures Encode(s + t) == Encode(s) + Encode(t)
  {
    if s == [] {
      assert s + t == t;
    } else {
      assert (s + t)[1..] == s[1..] + t;
      EncodeAppend(s[1..], t);
    }
  }

  /** An ASCII character is its own single byte. */
  lemma EncodeAscii(c: char)
    requires c as int < 0x80
    ensures EncodeChar(c) == [c as int as byte]
  {
  }

  lemma SplitBase64(n: int)
    requires n >= 0
    ensures n == n / 64 * 64 + n % 64
    ensures n / 64 == n / 4096 * 64 + n / 64 % 64
    ensures n / 4096 == n / 262144 * 64 + n / 4096 % 64
  {
  }

  /** A two-byte encoding decodes to its character. */
  lemma DecodeTwo(c: char, rest: seq<byte>)
    requires 0x80 <= c as int < 0x800
    ensures DecodeFirst(EncodeChar(c) + rest) == Some((c, 2))
  {
    SplitBase64(c as int);
  }

  /** A three-byte encoding decodes to its character. */
  lemma DecodeThree(c: char, rest: seq<byte>)
    requires 0x800 <= c as int < 0x10000
    ensures DecodeFirst(EncodeChar(c) + rest) == Some((c, 3))
  {
    var n := c as int;
    SplitBase64(n);
    var b := EncodeChar(c) + rest;
    assert b[0] as int == 0xE0 + n / 4096;
    assert b[1] as int == 0x80 + n / 64 % 64 && b[2] as int == 0x80 + n % 64;
    assert (b[0] as int - 0xE0) * 4096 + (b[1] as int - 0x80) * 64 + (b[2] as int - 0x80) == n;
  }

  /** A four-byte encoding decodes to its character. */
  lemma DecodeFour(c: char, rest: seq<byte>)
    requires 0x10000 <= c as int
    ensures DecodeFirst(EncodeChar(c) + rest) == Some((c, 4))
  {
    var n := c as int;
    SplitBase64(n);
    var b := EncodeChar(c) + rest;
    assert b[0] as int == 0xF0 + n / 262144 && b[1] as int == 0x80 + n / 4096 % 64;
    assert b[2] as int == 0x80 + n / 64 % 64 && b[3] as int == 0x80 + n % 64;
    assert (b[0] as int - 0xF0) * 262144 + (b[1] as int - 0x80) * 4096
           + (b[2] as int - 0x80) * 64 + (b[3] as int - 0x80) == n;
  }

  /** The first character of an encoding is decoded from its own bytes. */
  lemma DecodeFirstEncodeChar(c: char, rest: seq<byte>)
    ensures DecodeFirst(EncodeChar(c) + rest) == Some((c, |EncodeChar(c)|))
  {
    var n := c as int;
    if n < 0x80 {
    } else if n < 0x800 {
      DecodeTwo(c, rest);
    } else if n < 0x10000 {
      DecodeThree(c, rest);
    } else {
      DecodeFour(c, rest);
    }
  }

  /** Decoding undoes encoding: `s.encode("utf-8").decode("utf-8") == s`. */
  lemma {:induction false} DecodeEncode(s: string)
    ensures Decode(Encode(s)) == Some(s)
  {
    if s != [] {
      var head := EncodeChar(s[0]);
      var tail := Encode(s[1..]);
      DecodeFirstEncodeChar(s[0], tail);
      assert (head + tail)[|head|..] == tail;
      DecodeEncode(s[1..]);
      assert [s[0]] + s[1..] == s;
    }
  }
}
