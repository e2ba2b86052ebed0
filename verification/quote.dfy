/**
  `requests.utils.quote` (Python's `urllib.parse.quote` with `safe="/"`):
  letters, digits, `_.-~` and `/` pass through, every other character is
  written as its UTF-8 bytes, each as `%` and two upper-case hex digits, as
  section 2.1 of RFC 3986 describes.
 */
module Quoting {
  import opened Wrappers

  type Byte = b: int | 0 <= b < 256

  /** The characters `quote` leaves alone. */
  predicate Safe(c: char) {
    ('A' <= c <= 'Z') || ('a' <= c <= 'z') || ('0' <= c <= '9')
    || c == '_' || c == '.' || c == '-' || c == '~' || c == '/'
  }

  predicate IsHexUpper(c: char) {
    ('0' <= c <= '9') || ('A' <= c <= 'F')
  }

  function HexDigit(n: nat): (c: char)
    requires n < 16
    ensures IsHexUpper(c)
  {
    if n < 10 then ('0' as int + n) as char else ('A' as int + n - 10) as char
  }

  function HexValue(c: char): (n: nat)
    requires IsHexUpper(c)
    ensures n < 16
  {
    if c <= '9' then c as int - '0' as int else c as int - 'A' as int + 10
  }

  lemma HexRoundTrip(n: nat)
    requires n < 16
    ensures HexValue(HexDigit(n)) == n
  {
  }

  /** The UTF-8 encoding of one Unicode scalar value: one byte below 0x80, up to four above. */
  function Utf8(c: char): (bs: seq<Byte>)
    ensures 1 <= |bs| <= 4
    ensures c as int < 0x80 <==> |bs| == 1
    ensures c as int < 0x80 ==> bs[0] == c as int
    ensures c as int >= 0x80 ==> forall k :: 0 <= k < |bs| ==> bs[k] >= 0x80
  {
    var n := c as int;
    if n < 0x80 then [n]
    else if n < 0x800 then [0xC0 + n / 64, 0x80 + n % 64]
    else if n < 0x1_0000 then [0xE0 + n / 4096, 0x80 + (n / 64) % 64, 0x80 + n % 64]
    else [0xF0 + n / 262144, 0x80 + (n / 4096) % 64, 0x80 + (n / 64) % 64, 0x80 + n % 64]
  }

  function Utf8Encode(s: string): seq<Byte> {
    if s == [] then [] else Utf8(s[0]) + Utf8Encode(s[1..])
  }

  /** Each byte as `%` followed by its two hex digits. */
  function PercentBytes(bs: seq<Byte>): (r: string)
    ensures |r| == 3 * |bs|
    ensures forall k :: 0 <= k < |r| ==> r[k] == '%' || IsHexUpper(r[k])
  {
    if bs == [] then "" else ['%', HexDigit(bs[0] / 16), HexDigit(bs[0] % 16)] + PercentBytes(bs[1..])
  }

  function QuoteChar(c: char): (r: string)
    ensures Safe(c) ==> r == [c]
    ensures !Safe(c) ==> r == PercentBytes(Utf8(c))
  {
    if Safe(c) then [c] else PercentBytes(Utf8(c))
  }

  /**
    `quote(s)`: the result holds only safe characters, `%` and hex digits,
    so in particular no space, `&`, `=`, `?` or `#` that would end or split a
    query parameter.
   */
  function Quote(s: string): (r: string)
    ensures |r| >= |s|
    ensures forall k :: 0 <= k < |r| ==> Safe(r[k]) || r[k] == '%' || IsHexUpper(r[k])
  {
    if s == [] then "" else QuoteChar(s[0]) + Quote(s[1..])
  }

  /** Quoting works character by character, so it distributes over concatenation. */
  lemma {:induction false} QuoteAppend(a: string, b: string)
    ensures Quote(a + b) == Quote(a) + Quote(b)
  {
    if a == [] {
      assert a + b == b;
    } else {
      assert (a + b)[0] == a[0] && (a + b)[1..] == a[1..] + b;
      QuoteAppend(a[1..], b);
    }
  }

  /** A text of safe characters is left exactly as it is. */
  lemma {:induction false} QuoteSafe(s: string)
    requires forall k :: 0 <= k < |s| ==> Safe(s[k])
    ensures Quote(s) == s
  {
    if s != [] {
      QuoteSafe(s[1..]);
      assert [s[0]] + s[1..] == s;
    }
  }

  /**
    Reading a quoted text back to bytes: `%` and two hex digits is one byte,
    any other ASCII character stands for itself; anything else is malformed.
   */
  function UnquoteBytes(s: string): (r: Option<seq<Byte>>)
  {
    if s == [] then Some([])
    else if s[0] == '%' then
      if |s| >= 3 && IsHexUpper(s[1]) && IsHexUpper(s[2]) then
        match UnquoteBytes(s[3..])
        case Some(rest) => Some([16 * HexValue(s[1]) + HexValue(s[2])] + rest)
        case None => None
      else None
    else if s[0] as int < 0x80 then
      match UnquoteBytes(s[1..])
      case Some(rest) => Some([s[0] as int] + rest)
      case None => None
    else None
  }

  /** The two hex digits written for a byte read back as that byte. */
  lemma HexPairRoundTrip(b: Byte)
    ensures 16 * HexValue(HexDigit(b / 16)) + HexValue(HexDigit(b % 16)) == b
  {
    HexRoundTrip(b / 16);
    HexRoundTrip(b % 16);
  }

  /** The first escape of a non-empty byte list is `%` and the two hex digits of its first byte. */
  lemma PercentBytesFirst(bs: seq<Byte>, rest: string)
    requires bs != []
    ensures var s := PercentBytes(bs) + rest;
            && |s| >= 3 && s[0] == '%' && s[1] == HexDigit(bs[0] / 16) && s[2] == HexDigit(bs[0] % 16)
            && s[3..] == PercentBytes(bs[1..]) + rest
  {
    var head := ['%', HexDigit(bs[0] / 16), HexDigit(bs[0] % 16)];
    assert PercentBytes(bs) == head + PercentBytes(bs[1..]);
    AfterPrefix(head, PercentBytes(bs[1..]), rest);
  }

  /** A non-empty sequence followed by more is its first element followed by the rest and the more. */
  lemma ConsSplit<T>(s: seq<T>, t: seq<T>)
    requires s != []
    ensures [s[0]] + (s[1..] + t) == s + t
  {
    assert s == [s[0]] + s[1..];
    assert [s[0]] + (s[1..] + t) == ([s[0]] + s[1..]) + t;
  }

  /** Dropping a prefix from a three-part concatenation leaves the other two parts. */
  lemma AfterPrefix<T>(head: seq<T>, t: seq<T>, rest: seq<T>)
    ensures (head + t) + rest == head + (t + rest)
    ensures (head + t + rest)[|head|..] == t + rest
    ensures forall k :: 0 <= k < |head| ==> (head + t + rest)[k] == head[k]
  {
    assert (head + t) + rest == head + (t + rest);
  }

  /** The escape written for a byte decodes to that byte followed by the decoding of the rest. */
  lemma UnquoteEscape(s: string, b: Byte)
    requires |s| >= 3 && s[0] == '%' && s[1] == HexDigit(b / 16) && s[2] == HexDigit(b % 16)
    ensures UnquoteBytes(s[3..]).Some? ==> UnquoteBytes(s) == Some([b] + UnquoteBytes(s[3..]).value)
  {
    HexPairRoundTrip(b);
  }

  lemma {:induction false} UnquotePercentBytes(bs: seq<Byte>, rest: string, tail: seq<Byte>)
    requires UnquoteBytes(rest) == Some(tail)
    ensures UnquoteBytes(PercentBytes(bs) + rest) == Some(bs + tail)
  {
    if bs != [] {
      var b, s := bs[0], PercentBytes(bs) + rest;
      PercentBytesFirst(bs, rest);
      UnquotePercentBytes(bs[1..], rest, tail);
      UnquoteEscape(s, b);
      ConsSplit(bs, tail);
    } else {
      assert PercentBytes(bs) + rest == rest;
      assert bs + tail == tail;
    }
  }

  /** Decoding the quoted text gives back the UTF-8 bytes of the original: nothing is lost or confused. */
  lemma {:induction false} QuoteRoundTrip(s: string)
    ensures UnquoteBytes(Quote(s)) == Some(Utf8Encode(s))
  {
    if s != [] {
      QuoteRoundTrip(s[1..]);
      var rest := Quote(s[1..]);
      if Safe(s[0]) {
        assert (QuoteChar(s[0]) + rest)[1..] == rest;
      } else {
        UnquotePercentBytes(Utf8(s[0]), rest, Utf8Encode(s[1..]));
      }
    }
  }

  /** Texts that quote to the same text have the same UTF-8 encoding. */
  lemma QuoteInjective(a: string, b: string)
    requires Quote(a) == Quote(b)
    ensures Utf8Encode(a) == Utf8Encode(b)
  {
    QuoteRoundTrip(a);
    QuoteRoundTrip(b);
  }
}
