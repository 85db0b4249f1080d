/** Percent-encoding of a session relevance expression, as
    `urllib.parse.quote(relevance, safe=':+')` performs it (section 2.1 of
    RFC 3986): the text is UTF-8 encoded and every byte outside the
    unreserved set and `:+` becomes `%` and two upper-case hex digits.
    Because `safe` replaces Python's default `/`, a slash is escaped too. */
module Percent {

  import opened Base
  import opened Utf8
  import opened Strings

  /** Letters, digits and `_.-~`: bytes `quote` never escapes. */
  predicate Unreserved(b: byte) {
    ('A' as int <= b as int <= 'Z' as int) || ('a' as int <= b as int <= 'z' as int)
    || ('0' as int <= b as int <= '9' as int)
    || b as int == '_' as int || b as int == '.' as int
    || b as int == '-' as int || b as int == '~' as int
  }

  /** Bytes written literally when `safe=':+'`. */
  predicate Literal(b: byte) {
    Unreserved(b) || b as int == ':' as int || b as int == '+' as int
  }

  function HexDigit(d: int): char
    requires 0 <= d < 16
  {
    if d < 10 then ('0' as int + d) as char else ('A' as int + d - 10) as char
  }

  predicate IsHexDigit(c: char) {
    '0' <= c <= '9' || 'A' <= c <= 'F'
  }

  function QuoteByte(b: byte): string
  {
    if Literal(b) then [b as int as char] else ['%', HexDigit(b as int / 16), HexDigit(b as int % 16)]
  }

  function QuoteBytes(bs: seq<byte>): string
  {
    if bs == [] then [] else QuoteByte(bs[0]) + QuoteBytes(bs[1..])
  }

  /** `quote(s, safe=':+')` */
  function Quote(s: string): string
  {
    QuoteBytes(Encode(s))
  }

  /** The form body that `session_relevance_xml` posts to the `query` endpoint. */
  function RelevanceBody(relevance: string): string
  {
    "relevance=" + Quote(relevance)
  }

  /** Characters that can appear in quoted text. */
  predicate QuotedChar(c: char) {
    c == '%' || IsHexDigit(c) || (c as int < 0x80 && Literal(c as int as byte))
  }

  lemma {:induction false} QuoteBytesAlphabet(bs: seq<byte>)
    ensures forall i :: 0 <= i < |QuoteBytes(bs)| ==> QuotedChar(QuoteBytes(bs)[i])
  {
    if bs != [] {
      QuoteBytesAlphabet(bs[1..]);
      var h, t := QuoteByte(bs[0]), QuoteBytes(bs[1..]);
      assert QuoteBytes(bs) == h + t;
      forall i | 0 <= i < |h + t| ensures QuotedChar((h + t)[i]) {
        if i >= |h| { assert (h + t)[i] == t[i - |h|]; }
      }
    }
  }

  /** Value of an upper-case hex digit. */
  function HexValue(c: char): int
    requires IsHexDigit(c)
  {
    if c <= '9' then c as int - '0' as int else c as int - 'A' as int + 10
  }

  /** Strict percent-decoding back to bytes: every `%` must be followed by
      two upper-case hex digits, every other character must be ASCII. */
  function Unquote(s: string): Option<seq<byte>>
    decreases |s|
  {
    if s == [] then Some([])
    else if s[0] == '%' then
      if |s| >= 3 && IsHexDigit(s[1]) && IsHexDigit(s[2]) then
        match Unquote(s[3..])
        case None => None
        case Some(rest) => Some([(HexValue(s[1]) * 16 + HexValue(s[2])) as byte] + rest)
      else None
    else if s[0] as int < 0x80 then
      match Unquote(s[1..])
      case None => None
      case Some(rest) => Some([s[0] as int as byte] + rest)
    else None
  }

  /** Decoding one quoted byte in front of decodable text. */
  lemma UnquoteStep(b: byte, t: string, rest: seq<byte>)
    requires Unquote(t) == Some(rest)
    ensures Unquote(QuoteByte(b) + t) == Some([b] + rest)
  {
    var s := QuoteByte(b) + t;
    if Literal(b) {
      assert s[0] == b as int as char && s[1..] == t;
    } else {
      var hi, lo := b as int / 16, b as int % 16;
      assert s[0] == '%' && s[1] == HexDigit(hi) && s[2] == HexDigit(lo) && s[3..] == t;
      assert HexValue(HexDigit(hi)) == hi && HexValue(HexDigit(lo)) == lo;
      assert (hi * 16 + lo) as byte == b;
    }
  }

  /** Decoding a quoted byte string gives the bytes back. */
  lemma {:induction false} UnquoteQuoteBytes(bs: seq<byte>)
    ensures Unquote(QuoteBytes(bs)) == Some(bs)
  {
    if bs != [] {
      UnquoteQuoteBytes(bs[1..]);
      UnquoteStep(bs[0], QuoteBytes(bs[1..]), bs[1..]);
      assert [bs[0]] + bs[1..] == bs;
    }
  }

  /** The whole round trip: percent-decoding and then UTF-8 decoding a
      quoted expression gives the expression back. */
  lemma QuoteRoundTrip(s: string)
    ensures Unquote(Quote(s)).Some?
    ensures Decode(Unquote(Quote(s)).value) == Some(s)
  {
    UnquoteQuoteBytes(Encode(s));
    DecodeEncode(s);
  }

  /** A character outside the quoted alphabet never occurs in quoted text. */
  lemma QuoteExcludes(relevance: string, c: char)
    requires !QuotedChar(c)
    ensures CountChar(Quote(relevance), c) == 0
  {
    QuoteBytesAlphabet(Encode(relevance));
    CountAbsent(Quote(relevance), c);
  }

  /** The quoted expression can never break the form encoding: the body
      is `relevance=` followed by the quoted text, which holds no `=`, `&`,
      `/` or space. */
  lemma RelevanceBodyShape(relevance: string)
    ensures StartsWith(RelevanceBody(relevance), "relevance=")
    ensures var q := RelevanceBody(relevance)[|"relevance="|..];
      q == Quote(relevance)
      && forall i :: 0 <= i < |q| ==> q[i] != '=' && q[i] != '&' && q[i] != '/' && q[i] != ' '
  {
    StartsWithAppend("relevance=", Quote(relevance));
    QuoteBytesAlphabet(Encode(relevance));
    assert RelevanceBody(relevance)[|"relevance="|..] == Quote(relevance);
  }
}
