/**
  Reading prices out of the marketplace's search page: every span text
  carrying `R$` is cut down to its digits and commas, the decimal comma
  becomes a point, the text is converted with Python's `float()` (fragments
  that do not convert are skipped), and the prices found are averaged and
  rounded to cents.
 */
module PriceText {
  import opened Wrappers
  import opened Text

  /** `re.sub(r"[^\d,]", "", text)`: every character other than a digit or a comma is deleted. */
  function KeepDigitsAndCommas(s: string): (r: string)
    ensures |r| <= |s|
    ensures forall k :: 0 <= k < |r| ==> IsDigit(r[k]) || r[k] == ','
  {
    if s == [] then []
    else
      (if IsDigit(s[0]) || s[0] == ',' then [s[0]] else []) + KeepDigitsAndCommas(s[1..])
  }

  /** Deleting the other characters keeps every digit and every comma, as many times as it occurs. */
  lemma {:induction false} KeepDigitsAndCommasCounts(s: string)
    ensures forall c :: IsDigit(c) || c == ',' ==> multiset(KeepDigitsAndCommas(s))[c] == multiset(s)[c]
  {
    if s != [] {
      KeepDigitsAndCommasCounts(s[1..]);
      assert s == [s[0]] + s[1..];
    }
  }

  /** The text handed to `float()`: digits and commas kept, then every comma turned into a point. */
  function NormalizeFragment(s: string): (r: string)
    ensures forall k :: 0 <= k < |r| ==> IsDigit(r[k]) || r[k] == '.'
  {
    ReplaceChar(KeepDigitsAndCommas(s), ',', '.')
  }

  /** In a normalised fragment the points are exactly the commas of the original text, and the digits are its digits. */
  lemma {:induction false} NormalizeFragmentCounts(s: string)
    ensures multiset(NormalizeFragment(s))['.'] == multiset(s)[',']
    ensures forall c :: IsDigit(c) ==> multiset(NormalizeFragment(s))[c] == multiset(s)[c]
  {
    var kept := KeepDigitsAndCommas(s);
    KeepDigitsAndCommasCounts(s);
    ReplaceCounts(kept);
  }

  lemma {:induction false} ReplaceCounts(t: string)
    requires forall k :: 0 <= k < |t| ==> IsDigit(t[k]) || t[k] == ','
    ensures multiset(ReplaceChar(t, ',', '.'))['.'] == multiset(t)[',']
    ensures forall c :: IsDigit(c) ==> multiset(ReplaceChar(t, ',', '.'))[c] == multiset(t)[c]
  {
    if t != [] {
      ReplaceCounts(t[1..]);
      var r := ReplaceChar(t, ',', '.');
      var rest := ReplaceChar(t[1..], ',', '.');
      assert r == [r[0]] + rest;
      assert t == [t[0]] + t[1..];
      assert multiset(r) == multiset{r[0]} + multiset(rest);
      assert multiset(t) == multiset{t[0]} + multiset(t[1..]);
      assert r[0] == (if t[0] == ',' then '.' else t[0]);
    }
  }

  predicate HasDigit(s: string) {
    exists k :: 0 <= k < |s| && IsDigit(s[k])
  }

  /** Position of the first point, or `|s|` when there is none. */
  function FirstPoint(s: string): (p: nat)
    ensures p <= |s|
    ensures p < |s| ==> s[p] == '.'
    ensures '.' !in s[..p]
  {
    if s == [] then 0
    else if s[0] == '.' then 0
    else
      var p := 1 + FirstPoint(s[1..]);
      assert s[..p] == [s[0]] + s[1..][..p - 1];
      p
  }

  function Pow10(n: nat): (p: nat)
    ensures p >= 1
  {
    if n == 0 then 1 else 10 * Pow10(n - 1)
  }

  /** The number written with `whole` before the point and `places` fraction digits reading `fraction`. */
  function DecimalValue(whole: nat, fraction: nat, places: nat): (r: real)
    ensures r >= whole as real
  {
    whole as real + fraction as real / Pow10(places) as real
  }

  /**
    Python's `float()` applied to a string of digits and points: it converts
    when there is at least one digit and at most one point (`"12"`, `"12.5"`,
    `"12."`, `".5"`), and raises `ValueError` otherwise (`""`, `"."`, `"1.2.3"`).
   */
  function ParseDecimal(s: string): (r: Option<real>)
    requires forall k :: 0 <= k < |s| ==> IsDigit(s[k]) || s[k] == '.'
    ensures r.Some? ==> r.value >= 0.0
  {
    if !HasDigit(s) || multiset(s)['.'] > 1 then None
    else
      var p := FirstPoint(s);
      if p == |s| then
        assert s[..p] == s;
        Some(DigitsValue(s) as real)
      else
        assert s == s[..p] + [s[p]] + s[p + 1..];
        assert multiset(s)['.'] == multiset(s[..p])['.'] + 1 + multiset(s[p + 1..])['.'];
        assert '.' !in s[p + 1..];
        var whole, fraction := s[..p], s[p + 1..];
        Some(DecimalValue(DigitsValue(whole), DigitsValue(fraction), |fraction|))
  }

  /** `float()` accepts exactly the texts with a digit and at most one point; without a point it reads a whole number. */
  lemma ParseDecimalAccepts(s: string)
    requires forall k :: 0 <= k < |s| ==> IsDigit(s[k]) || s[k] == '.'
    ensures ParseDecimal(s).Some? <==> HasDigit(s) && multiset(s)['.'] <= 1
    ensures ParseDecimal(s).Some? && '.' !in s ==> ParseDecimal(s).value == DigitsValue(s) as real
  {
    if HasDigit(s) && multiset(s)['.'] <= 1 && '.' !in s {
      assert s[..|s|] == s;
    }
  }

  lemma PointCount(whole: string, fraction: string)
    requires '.' !in whole && '.' !in fraction
    ensures multiset(whole + "." + fraction)['.'] == 1
  {
    assert multiset(whole + "." + fraction) == multiset(whole) + multiset{'.'} + multiset(fraction);
  }

  lemma FirstPointAfter(whole: string, fraction: string)
    requires '.' !in whole
    ensures FirstPoint(whole + "." + fraction) == |whole|
  {
    var s := whole + "." + fraction;
    var p := FirstPoint(s);
    assert s[|whole|] == '.';
    assert forall k :: 0 <= k < |whole| ==> s[k] == whole[k];
    assert p <= |whole| by {
      assert s[..|whole| + 1] == whole + ".";
    }
  }

  /** With exactly one point, `float()` reads the digits before it as the whole part and those after it as the fraction. */
  lemma ParseWithPoint(whole: string, fraction: string)
    requires forall k :: 0 <= k < |whole| ==> IsDigit(whole[k])
    requires forall k :: 0 <= k < |fraction| ==> IsDigit(fraction[k])
    requires |whole| + |fraction| > 0
    ensures ParseDecimal(whole + "." + fraction)
         == Some(DecimalValue(DigitsValue(whole), DigitsValue(fraction), |fraction|))
  {
    var s := whole + "." + fraction;
    PointTextCharacters(whole, fraction);
    assert multiset(s)['.'] == 1 && FirstPoint(s) == |whole| by {
      assert '.' !in whole && '.' !in fraction;
      PointCount(whole, fraction);
      FirstPointAfter(whole, fraction);
    }
    assert s[..|whole|] == whole && s[|whole| + 1..] == fraction;
    ParseDecimalAtPoint(s, whole, fraction);
  }

  /** Digits around one point make a text of digits and points that holds a digit. */
  lemma PointTextCharacters(whole: string, fraction: string)
    requires forall k :: 0 <= k < |whole| ==> IsDigit(whole[k])
    requires forall k :: 0 <= k < |fraction| ==> IsDigit(fraction[k])
    requires |whole| + |fraction| > 0
    ensures forall k :: 0 <= k < |whole + "." + fraction| ==> IsDigit((whole + "." + fraction)[k]) || (whole + "." + fraction)[k] == '.'
    ensures HasDigit(whole + "." + fraction)
  {
    var s := whole + "." + fraction;
    forall k | 0 <= k < |s| ensures IsDigit(s[k]) || s[k] == '.' {
      if k < |whole| { assert s[k] == whole[k]; }
      else if k > |whole| { assert s[k] == fraction[k - |whole| - 1]; }
    }
    if |whole| > 0 { assert IsDigit(s[0]); } else { assert IsDigit(s[1]); }
  }

  /** An accepted text with a point reads as the digits before its first point and those after it. */
  lemma ParseDecimalAtPoint(s: string, whole: string, fraction: string)
    requires forall k :: 0 <= k < |s| ==> IsDigit(s[k]) || s[k] == '.'
    requires forall k :: 0 <= k < |whole| ==> IsDigit(whole[k])
    requires forall k :: 0 <= k < |fraction| ==> IsDigit(fraction[k])
    requires HasDigit(s) && multiset(s)['.'] <= 1 && FirstPoint(s) == |whole| < |s|
    requires s[..|whole|] == whole && s[|whole| + 1..] == fraction
    ensures ParseDecimal(s) == Some(DecimalValue(DigitsValue(whole), DigitsValue(fraction), |fraction|))
  {
  }

  /** The price a span text stands for, if `float()` accepts its normalised form. */
  function FragmentPrice(text: string): (r: Option<real>)
    ensures r.Some? ==> r.value >= 0.0
  {
    ParseDecimal(NormalizeFragment(text))
  }

  /** A fragment converts exactly when it holds a digit and at most one comma. */
  lemma FragmentPriceConverts(text: string)
    ensures FragmentPrice(text).Some? <==> HasDigit(text) && multiset(text)[','] <= 1
  {
    var n := NormalizeFragment(text);
    NormalizeFragmentCounts(text);
    ParseDecimalAccepts(n);
    if HasDigit(text) {
      var k :| 0 <= k < |text| && IsDigit(text[k]);
      assert text[k] in multiset(text);
      assert text[k] in multiset(n);
      assert text[k] in n;
    }
    if HasDigit(n) {
      var k :| 0 <= k < |n| && IsDigit(n[k]);
      assert n[k] in multiset(n);
      assert n[k] in text;
    }
  }

  /** One GET of a search page: a transport failure (connection error, timeout), or a status and the texts of the spans carrying `R$`. */
  datatype Reply = TransportError | Response(status: int, spans: seq<string>)

  /** `raise_for_status()` raises for 4xx and 5xx statuses; together with a transport failure this abandons the search. */
  predicate Failed(r: Reply) {
    r.TransportError? || 400 <= r.status < 600
  }

  /** The values present in a list of optional values, in order. */
  function Present<T>(opts: seq<Option<T>>): (r: seq<T>)
    ensures |r| <= |opts|
  {
    if opts == [] then []
    else Present(opts[..|opts| - 1]) + (if opts[|opts| - 1].Some? then [opts[|opts| - 1].value] else [])
  }

  /** Present values of consecutive lists concatenate: no element's fate depends on another. */
  lemma {:induction false} PresentAppend<T>(a: seq<Option<T>>, b: seq<Option<T>>)
    ensures Present(a + b) == Present(a) + Present(b)
    decreases |b|
  {
    if b == [] {
      assert a + b == a;
    } else {
      assert (a + b)[..|a + b| - 1] == a + b[..|b| - 1];
      PresentAppend(a, b[..|b| - 1]);
    }
  }

  /** Every value present is kept. */
  lemma {:induction false} PresentComplete<T>(opts: seq<Option<T>>, k: nat)
    requires k < |opts| && opts[k].Some?
    ensures opts[k].value in Present(opts)
  {
    var init := opts[..|opts| - 1];
    if k < |init| {
      assert init[k] == opts[k];
      PresentComplete(init, k);
    }
  }

  /** Every value kept was present. */
  lemma {:induction false} PresentSound<T>(opts: seq<Option<T>>, x: T)
    requires x in Present(opts)
    ensures exists k :: 0 <= k < |opts| && opts[k] == Some(x)
  {
    var init := opts[..|opts| - 1];
    if x in Present(init) {
      PresentSound(init, x);
      var k :| 0 <= k < |init| && init[k] == Some(x);
      assert opts[k] == init[k];
    } else {
      assert opts[|opts| - 1] == Some(x);
    }
  }

  /** Nothing is dropped exactly when every value is present. */
  lemma {:induction false} PresentKeepsAll<T>(opts: seq<Option<T>>)
    ensures |Present(opts)| == |opts| <==> forall k :: 0 <= k < |opts| ==> opts[k].Some?
  {
    if opts != [] {
      var init := opts[..|opts| - 1];
      PresentKeepsAll(init);
      if forall k :: 0 <= k < |opts| ==> opts[k].Some? {
        forall k | 0 <= k < |init| ensures init[k].Some? { assert init[k] == opts[k]; }
      } else {
        var k :| 0 <= k < |opts| && opts[k].None?;
        if k < |init| { assert init[k] == opts[k]; }
      }
    }
  }

  /** What each span text converts to, span by span. */
  function Conversions(spans: seq<string>): (r: seq<Option<real>>)
    ensures |r| == |spans|
    ensures forall k :: 0 <= k < |spans| ==> r[k] == FragmentPrice(spans[k])
  {
    seq(|spans|, k requires 0 <= k < |spans| => FragmentPrice(spans[k]))
  }

  /** The prices the span texts stand for, in order, skipping those `float()` rejects. */
  function ParsedPrices(spans: seq<string>): (r: seq<real>)
  {
    Present(Conversions(spans))
  }

  /**
    Every fragment that converts contributes its price, every price comes
    from a fragment that converts, and prices are lost exactly when some
    fragment is rejected; none of them is negative.
   */
  lemma ParsedPricesFaithful(spans: seq<string>)
    ensures forall k :: 0 <= k < |spans| && FragmentPrice(spans[k]).Some? ==> FragmentPrice(spans[k]).value in ParsedPrices(spans)
    ensures forall x :: x in ParsedPrices(spans) ==> x >= 0.0 && exists k :: 0 <= k < |spans| && FragmentPrice(spans[k]) == Some(x)
    ensures |ParsedPrices(spans)| == |spans| <==> forall k :: 0 <= k < |spans| ==> FragmentPrice(spans[k]).Some?
  {
    var opts := Conversions(spans);
    forall k | 0 <= k < |spans| && FragmentPrice(spans[k]).Some?
      ensures FragmentPrice(spans[k]).value in ParsedPrices(spans)
    {
      PresentComplete(opts, k);
    }
    forall x | x in ParsedPrices(spans)
      ensures x >= 0.0 && exists k :: 0 <= k < |spans| && FragmentPrice(spans[k]) == Some(x)
    {
      PresentSound(opts, x);
    }
    PresentKeepsAll(opts);
  }

  /** Taking one more span adds its conversion at the end. */
  lemma ConversionsStep(spans: seq<string>, i: nat)
    requires i < |spans|
    ensures Conversions(spans[..i + 1]) == Conversions(spans[..i]) + [FragmentPrice(spans[i])]
  {
    var a, b := Conversions(spans[..i + 1]), Conversions(spans[..i]) + [FragmentPrice(spans[i])];
    assert |a| == |b|;
    forall k | 0 <= k < |a| ensures a[k] == b[k] {
      assert spans[..i + 1][k] == spans[k];
      assert a[k] == FragmentPrice(spans[k]);
      if k < i {
        assert spans[..i][k] == spans[k];
        assert b[k] == Conversions(spans[..i])[k];
      } else {
        assert b[k] == FragmentPrice(spans[i]);
      }
    }
  }

  /**
    The loop over the matched spans: each text is normalised and converted,
    a conversion failure skips that span, and every price found is appended.
   */
  method ExtractPrices(spans: seq<string>) returns (prices: seq<real>)
    ensures prices == ParsedPrices(spans)
  {
    prices := [];
    var i := 0;
    while i < |spans|
      invariant 0 <= i <= |spans|
      invariant prices == ParsedPrices(spans[..i])
    {
      var value := NormalizeFragment(spans[i]);
      var price := ParseDecimal(value);
      ConversionsStep(spans, i);
      PresentAppend(Conversions(spans[..i]), [price]);
      if price.Some? {
        prices := prices + [price.value];
      }
      i := i + 1;
    }
    assert spans[..i] == spans;
  }

  function Sum(xs: seq<real>): real {
    if xs == [] then 0.0 else Sum(xs[..|xs| - 1]) + xs[|xs| - 1]
  }

  function Mean(xs: seq<real>): real
    requires |xs| > 0
  {
    Sum(xs) / |xs| as real
  }

  lemma {:induction false} SumBounds(xs: seq<real>, lo: real, hi: real)
    requires forall k :: 0 <= k < |xs| ==> lo <= xs[k] <= hi
    ensures |xs| as real * lo <= Sum(xs) <= |xs| as real * hi
  {
    if xs != [] {
      SumBounds(xs[..|xs| - 1], lo, hi);
    }
  }

  /** The arithmetic mean lies within any bounds that hold of every price, so between the smallest and the largest. */
  lemma MeanWithinRange(xs: seq<real>, lo: real, hi: real)
    requires |xs| > 0
    requires forall k :: 0 <= k < |xs| ==> lo <= xs[k] <= hi
    ensures lo <= Mean(xs) <= hi
  {
    SumBounds(xs, lo, hi);
    QuotientBounds(Sum(xs), |xs| as real, lo, hi);
  }

  lemma QuotientBounds(total: real, n: real, lo: real, hi: real)
    requires n > 0.0
    requires n * lo <= total <= n * hi
    ensures lo <= total / n <= hi
  {
  }

  lemma {:induction false} SumNonNegative(xs: seq<real>)
    requires forall k :: 0 <= k < |xs| ==> xs[k] >= 0.0
    ensures Sum(xs) >= 0.0
  {
    if xs != [] {
      SumNonNegative(xs[..|xs| - 1]);
    }
  }

  /** `round(x, 2)`: a multiple of 0.01 within half a cent of `x`; never negative for a non-negative `x`. */
  function Round2(x: real): (r: real)
    ensures x - 0.005 < r <= x + 0.005
    ensures (r * 100.0).Floor as real == r * 100.0
    ensures x >= 0.0 ==> r >= 0.0
  {
    (x * 100.0 + 0.5).Floor as real / 100.0
  }

  /** Mean of the prices found rounded to cents, or nothing when no price was found. */
  function AveragePrice(prices: seq<real>): (r: Option<real>)
    ensures r.None? <==> prices == []
  {
    if prices == [] then None else Some(Round2(Mean(prices)))
  }

  /**
    The representative price of prices that all lie in `[lo, hi]` lies
    within half a cent of that range; taking `lo` as the smallest price and
    `hi` as the largest gives "between min and max up to rounding", and
    taking `lo` as 0 gives "never negative".
   */
  lemma AveragePriceBounds(prices: seq<real>, lo: real, hi: real)
    requires prices != []
    requires forall k :: 0 <= k < |prices| ==> lo <= prices[k] <= hi
    ensures AveragePrice(prices).Some?
    ensures lo - 0.005 < AveragePrice(prices).value <= hi + 0.005
    ensures lo >= 0.0 ==> AveragePrice(prices).value >= 0.0
  {
    MeanWithinRange(prices, lo, hi);
  }

  /** The representative price of prices none of which is negative is not negative. */
  lemma AveragePriceNonNegative(prices: seq<real>)
    requires prices != []
    requires forall k :: 0 <= k < |prices| ==> prices[k] >= 0.0
    ensures AveragePrice(prices).Some? && AveragePrice(prices).value >= 0.0
  {
    SumNonNegative(prices);
  }
}
