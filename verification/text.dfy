/**
  Character classes and string operations the catalogue code takes from
  Python's `str`: `isspace`/`strip`, `lower`, `replace`, `", ".join` and
  `str()` of an integer.
 */
module Text {

  predicate IsDigit(c: char) {
    '0' <= c <= '9'
  }

  predicate IsUpper(c: char) {
    'A' <= c <= 'Z'
  }

  predicate IsLowerOrDigit(c: char) {
    'a' <= c <= 'z' || IsDigit(c)
  }

  /** Python's `str.isspace`: the characters `str.strip()` removes when called without arguments. */
  predicate IsSpace(c: char) {
    var n := c as int;
    (9 <= n <= 13) || (0x1C <= n <= 0x20) || n == 0x85 || n == 0xA0 || n == 0x1680
    || (0x2000 <= n <= 0x200A) || n == 0x2028 || n == 0x2029 || n == 0x202F
    || n == 0x205F || n == 0x3000
  }

  function TrimStart(s: string): (r: string)
    ensures |r| <= |s|
    ensures r == [] || !IsSpace(r[0])
  {
    if s != [] && IsSpace(s[0]) then TrimStart(s[1..]) else s
  }

  /** `TrimStart` drops a prefix of whitespace and keeps the rest. */
  lemma {:induction false} TrimStartDropsSpace(s: string)
    ensures var r := TrimStart(s); r == s[|s| - |r|..] && forall k :: 0 <= k < |s| - |r| ==> IsSpace(s[k])
  {
    if s != [] && IsSpace(s[0]) {
      TrimStartDropsSpace(s[1..]);
    }
  }

  function TrimEnd(s: string): (r: string)
    ensures |r| <= |s|
    ensures r == [] || !IsSpace(r[|r| - 1])
  {
    if s != [] && IsSpace(s[|s| - 1]) then TrimEnd(s[..|s| - 1]) else s
  }

  /** `TrimEnd` drops a suffix of whitespace and keeps the rest. */
  lemma {:induction false} TrimEndDropsSpace(s: string)
    ensures var r := TrimEnd(s); r == s[..|r|] && forall k :: |r| <= k < |s| ==> IsSpace(s[k])
  {
    if s != [] && IsSpace(s[|s| - 1]) {
      TrimEndDropsSpace(s[..|s| - 1]);
    }
  }

  /** Python's `str.strip()`: removes leading and trailing whitespace and nothing else. */
  function Strip(s: string): (r: string)
    ensures r == [] || (!IsSpace(r[0]) && !IsSpace(r[|r| - 1]))
    ensures |r| <= |s|
  {
    var t := TrimStart(s);
    TrimEndDropsSpace(t);
    TrimEnd(t)
  }

  /**
    `Strip` keeps a contiguous piece of the text, and what it removes on
    either side is whitespace.
   */
  lemma StripRemovesOnlySpace(s: string)
    ensures var r := Strip(s); var i := |s| - |TrimStart(s)|;
            && i + |r| <= |s| && r == s[i..][..|r|]
            && (forall k :: 0 <= k < i ==> IsSpace(s[k]))
            && (forall k :: i + |r| <= k < |s| ==> IsSpace(s[k]))
  {
    var t := TrimStart(s);
    var r := TrimEnd(t);
    TrimStartDropsSpace(s);
    TrimEndDropsSpace(t);
    var i := |s| - |t|;
    assert t == s[i..] && r == t[..|r|];
    forall k | i + |r| <= k < |s| ensures IsSpace(s[k]) {
      assert s[k] == t[k - i] && IsSpace(t[k - i]);
    }
  }

  /** Stripping a string that has no leading or trailing whitespace changes nothing. */
  lemma StripKeeps(s: string)
    requires s == [] || (!IsSpace(s[0]) && !IsSpace(s[|s| - 1]))
    ensures Strip(s) == s
  {
    StripRemovesOnlySpace(s);
  }

  /** An upper-case ASCII letter becomes its lower-case letter; any other character is kept. */
  function LowerChar(c: char): (d: char)
    ensures !IsUpper(d)
    ensures !IsUpper(c) ==> d == c
    ensures IsUpper(c) ==> d == (c as int + 32) as char
  {
    if IsUpper(c) then (c as int + 32) as char else c
  }

  /** `str.lower()` on the ASCII letters: every upper-case letter becomes lower-case, nothing else changes. */
  function Lower(s: string): (r: string)
    ensures |r| == |s|
    ensures forall k :: 0 <= k < |s| ==> r[k] == LowerChar(s[k])
  {
    if s == [] then [] else [LowerChar(s[0])] + Lower(s[1..])
  }

  /** `str.replace(a, b)` for one-character `a` and `b`. */
  function ReplaceChar(s: string, a: char, b: char): (r: string)
    ensures |r| == |s|
    ensures a != b ==> forall k :: 0 <= k < |r| ==> r[k] != a
    ensures forall k :: 0 <= k < |s| && s[k] != a ==> r[k] == s[k]
    ensures forall k :: 0 <= k < |s| && s[k] == a ==> r[k] == b
  {
    if s == [] then [] else [if s[0] == a then b else s[0]] + ReplaceChar(s[1..], a, b)
  }

  /** `", ".join(parts)`. */
  function Join(parts: seq<string>): (r: string)
  {
    if parts == [] then ""
    else if |parts| == 1 then parts[0]
    else parts[0] + ", " + Join(parts[1..])
  }

  /** Splits a string at every `", "`; the reading a consumer of a joined name list performs. */
  function SplitAtSeparator(s: string): (r: seq<string>)
    ensures |r| >= 1
  {
    if s == [] then [""]
    else if |s| >= 2 && s[0] == ',' && s[1] == ' ' then [""] + SplitAtSeparator(s[2..])
    else
      var rest := SplitAtSeparator(s[1..]);
      [[s[0]] + rest[0]] + rest[1..]
  }

  lemma {:induction false} SplitAtSeparatorPrefix(x: string, rest: string)
    requires ',' !in x
    ensures SplitAtSeparator(x + ", " + rest) == [x] + SplitAtSeparator(rest)
  {
    if x == [] {
      assert x + ", " + rest == [',', ' '] + rest;
      assert (x + ", " + rest)[2..] == rest;
    } else {
      assert (x + ", " + rest)[1..] == x[1..] + ", " + rest;
      SplitAtSeparatorPrefix(x[1..], rest);
      assert [x[0]] + x[1..] == x;
    }
  }

  lemma {:induction false} SplitAtSeparatorWhole(x: string)
    requires ',' !in x
    ensures SplitAtSeparator(x) == [x]
  {
    if x != [] {
      SplitAtSeparatorWhole(x[1..]);
      assert [x[0]] + x[1..] == x;
    }
  }

  /**
    A list of names joined with `", "` can be read back exactly, provided it
    is not empty and no name contains a comma.
   */
  lemma {:induction false} JoinSplitRoundTrip(parts: seq<string>)
    requires |parts| >= 1
    requires forall k :: 0 <= k < |parts| ==> ',' !in parts[k]
    ensures SplitAtSeparator(Join(parts)) == parts
  {
    if |parts| == 1 {
      SplitAtSeparatorWhole(parts[0]);
    } else {
      JoinSplitRoundTrip(parts[1..]);
      SplitAtSeparatorPrefix(parts[0], Join(parts[1..]));
    }
  }

  function DigitChar(d: nat): (c: char)
    requires d < 10
    ensures IsDigit(c)
  {
    ('0' as int + d) as char
  }

  /** Decimal digits of a natural number, most significant first, as `str(n)` writes them. */
  function NatText(n: nat): (r: string)
    ensures |r| >= 1
    ensures forall k :: 0 <= k < |r| ==> IsDigit(r[k])
  {
    if n < 10 then [DigitChar(n)] else NatText(n / 10) + [DigitChar(n % 10)]
  }

  /** `str(i)` for a Python integer. */
  function IntText(i: int): (r: string)
    ensures |r| >= 1
  {
    if i < 0 then "-" + NatText(-i) else NatText(i)
  }

  /** The value of a string of decimal digits. */
  function DigitsValue(s: string): nat
    requires forall k :: 0 <= k < |s| ==> IsDigit(s[k])
  {
    if s == [] then 0
    else
      assert IsDigit(s[|s| - 1]);
      10 * DigitsValue(s[..|s| - 1]) + (s[|s| - 1] as int - '0' as int)
  }

  lemma {:induction false} NatTextValue(n: nat)
    ensures DigitsValue(NatText(n)) == n
  {
    var r := NatText(n);
    if n >= 10 {
      NatTextValue(n / 10);
      assert r[..|r| - 1] == NatText(n / 10);
    }
  }

  lemma IntTextSign(i: int)
    ensures IntText(i)[0] == '-' <==> i < 0
  {
    if i >= 0 { assert IsDigit(NatText(i)[0]); }
  }

  /** `str()` of an integer determines the integer: different numbers never print alike. */
  lemma IntTextInjective(i: int, j: int)
    requires IntText(i) == IntText(j)
    ensures i == j
  {
    IntTextSign(i);
    IntTextSign(j);
    if i < 0 && j < 0 {
      assert NatText(-i) == IntText(i)[1..] == NatText(-j);
      NatTextValue(-i);
      NatTextValue(-j);
    } else if i >= 0 && j >= 0 {
      assert NatText(i) == IntText(i) == IntText(j) == NatText(j);
      NatTextValue(i);
      NatTextValue(j);
    }
  }
}
