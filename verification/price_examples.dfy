/**
  Worked examples of reading prices from span texts, in the page's own
  format (`R$`, a point between thousands, a decimal comma).
 */
module PriceExamples {
  import opened Wrappers
  import opened Text
  import opened PriceText

  /** The character filter works on each part of a text separately. */
  lemma {:induction false} KeepAppend(a: string, b: string)
    ensures KeepDigitsAndCommas(a + b) == KeepDigitsAndCommas(a) + KeepDigitsAndCommas(b)
  {
    if a != [] {
      assert (a + b)[0] == a[0] && (a + b)[1..] == a[1..] + b;
      KeepAppend(a[1..], b);
    } else {
      assert a + b == b;
    }
  }

  /** A text of digits and commas passes the filter unchanged. */
  lemma {:induction false} KeepAll(s: string)
    requires forall k :: 0 <= k < |s| ==> IsDigit(s[k]) || s[k] == ','
    ensures KeepDigitsAndCommas(s) == s
  {
    if s != [] {
      KeepAll(s[1..]);
      assert [s[0]] + s[1..] == s;
    }
  }

  /** A text without digits and commas is deleted entirely. */
  lemma {:induction false} KeepNone(s: string)
    requires forall k :: 0 <= k < |s| ==> !IsDigit(s[k]) && s[k] != ','
    ensures KeepDigitsAndCommas(s) == ""
  {
    if s != [] {
      KeepNone(s[1..]);
    }
  }

  /** A currency prefix and a thousands point are deleted; the digits and the decimal comma remain. */
  lemma {:induction false} KeepThousands(prefix: string, whole: string, rest: string)
    requires forall k :: 0 <= k < |prefix| ==> !IsDigit(prefix[k]) && prefix[k] != ','
    requires forall k :: 0 <= k < |whole| ==> IsDigit(whole[k])
    requires forall k :: 0 <= k < |rest| ==> IsDigit(rest[k]) || rest[k] == ','
    ensures KeepDigitsAndCommas(prefix + (whole + ("." + rest))) == whole + rest
  {
    var tail := "." + rest;
    var body := whole + tail;
    KeepNone(".");
    KeepAll(rest);
    KeepAppend(".", rest);
    assert KeepDigitsAndCommas(tail) == rest;
    KeepAll(whole);
    KeepAppend(whole, tail);
    assert KeepDigitsAndCommas(body) == whole + rest;
    KeepNone(prefix);
    KeepAppend(prefix, body);
  }

  /** The one comma of a digits-comma-digits text becomes the point. */
  lemma {:induction false} CommaToPoint(whole: string, cents: string)
    requires forall k :: 0 <= k < |whole| ==> IsDigit(whole[k])
    requires forall k :: 0 <= k < |cents| ==> IsDigit(cents[k])
    ensures ReplaceChar(whole + "," + cents, ',', '.') == whole + "." + cents
  {
    var t := whole + "," + cents;
    var u := whole + "." + cents;
    var r := ReplaceChar(t, ',', '.');
    forall k | 0 <= k < |r| ensures r[k] == u[k] {
      if k < |whole| {
        assert t[k] == whole[k] && u[k] == whole[k];
      } else if k == |whole| {
        assert t[k] == ',' && u[k] == '.';
      } else {
        assert t[k] == cents[k - |whole| - 1] && u[k] == cents[k - |whole| - 1];
      }
    }
    assert r == u;
  }

  /**
    A price written as `R$ 1.234,56` (any prefix without digits or commas,
    the thousands, a point, the hundreds, a comma, the cents) is read as the
    whole number made of the thousands and hundreds digits plus the cents.
   */
  lemma {:induction false} ThousandsPrice(prefix: string, thousands: string, hundreds: string, cents: string)
    requires forall k :: 0 <= k < |prefix| ==> !IsDigit(prefix[k]) && prefix[k] != ','
    requires forall k :: 0 <= k < |thousands| ==> IsDigit(thousands[k])
    requires forall k :: 0 <= k < |hundreds| ==> IsDigit(hundreds[k])
    requires forall k :: 0 <= k < |cents| ==> IsDigit(cents[k])
    requires |thousands| + |hundreds| + |cents| > 0
    ensures FragmentPrice(prefix + (thousands + ("." + (hundreds + "," + cents))))
         == Some(DecimalValue(DigitsValue(thousands + hundreds), DigitsValue(cents), |cents|))
  {
    var rest := hundreds + "," + cents;
    forall k | 0 <= k < |rest| ensures IsDigit(rest[k]) || rest[k] == ',' {
      if k < |hundreds| { assert rest[k] == hundreds[k]; }
      else if k > |hundreds| { assert rest[k] == cents[k - |hundreds| - 1]; }
    }
    KeepThousands(prefix, thousands, rest);
    var whole := thousands + hundreds;
    assert thousands + rest == whole + "," + cents;
    assert forall k :: 0 <= k < |whole| ==> IsDigit(whole[k]);
    CommaToPoint(whole, cents);
    ParseWithPoint(whole, cents);
  }

  /** A price written as `R$ 20,50` is read as its whole part plus its cents. */
  lemma {:induction false} CommaPrice(prefix: string, whole: string, cents: string)
    requires forall k :: 0 <= k < |prefix| ==> !IsDigit(prefix[k]) && prefix[k] != ','
    requires forall k :: 0 <= k < |whole| ==> IsDigit(whole[k])
    requires forall k :: 0 <= k < |cents| ==> IsDigit(cents[k])
    requires |whole| + |cents| > 0
    ensures FragmentPrice(prefix + (whole + "," + cents))
         == Some(DecimalValue(DigitsValue(whole), DigitsValue(cents), |cents|))
  {
    var body := whole + "," + cents;
    forall k | 0 <= k < |body| ensures IsDigit(body[k]) || body[k] == ',' {
      if k < |whole| { assert body[k] == whole[k]; }
      else if k > |whole| { assert body[k] == cents[k - |whole| - 1]; }
    }
    KeepNone(prefix);
    KeepAll(body);
    KeepAppend(prefix, body);
    assert KeepDigitsAndCommas(prefix + body) == body;
    CommaToPoint(whole, cents);
    assert NormalizeFragment(prefix + body) == whole + "." + cents;
    ParseWithPoint(whole, cents);
  }

  /** Two fraction digits are cents. */
  lemma CentsValue(whole: nat, cents: nat)
    ensures DecimalValue(whole, cents, 2) == whole as real + cents as real / 100.0
  {
    assert Pow10(2) == 100;
  }

  lemma DigitsExample()
    ensures DigitsValue("1234") == 1234
    ensures DigitsValue("56") == 56
  {
    assert "1234"[..3] == "123" && "123"[..2] == "12" && "12"[..1] == "1" && "1"[..0] == "";
    assert "56"[..1] == "5" && "5"[..0] == "";
  }

  /** "R$ 1.234,56" stands for 1234.56: the thousands point is deleted and the comma is the decimal point. */
  lemma {:induction false} ThousandsSeparatorExample(text: string)
    requires text == "R$ 1.234,56"
    ensures FragmentPrice(text) == Some(1234.56)
  {
    assert text == "R$ " + ("1" + ("." + ("234" + "," + "56")));
    ThousandsPrice("R$ ", "1", "234", "56");
    ThousandsValue();
  }

  /** The digits "1" and "234" with 56 cents make 1234.56. */
  lemma ThousandsValue()
    ensures DecimalValue(DigitsValue("1" + "234"), DigitsValue("56"), |"56"|) == 1234.56
  {
    assert "1" + "234" == "1234";
    DigitsExample();
    CentsValue(1234, 56);
  }

  lemma TwoDigitsExample()
    ensures DigitsValue("10") == 10 && DigitsValue("00") == 0
    ensures DigitsValue("20") == 20 && DigitsValue("50") == 50
  {
    assert "10"[..1] == "1" && "00"[..1] == "0" && "20"[..1] == "2" && "50"[..1] == "5";
    assert "1"[..0] == "" && "0"[..0] == "" && "2"[..0] == "" && "5"[..0] == "";
  }

  lemma {:induction false} FragmentExample(text: string, whole: string, cents: string, price: real)
    requires text == "R$ " + (whole + "," + cents)
    requires (whole, cents, price) == ("10", "00", 10.0) || (whole, cents, price) == ("20", "50", 20.5)
    ensures FragmentPrice(text) == Some(price)
  {
    TwoDigitsExample();
    CommaPrice("R$ ", whole, cents);
    CentsValue(DigitsValue(whole), DigitsValue(cents));
  }

  /** Two spans that both convert contribute both prices, in order. */
  lemma {:induction false} ParsedPricesPair(a: string, b: string)
    requires FragmentPrice(a).Some? && FragmentPrice(b).Some?
    ensures ParsedPrices([a, b]) == [FragmentPrice(a).value, FragmentPrice(b).value]
  {
    PairConversions(a, b);
    PresentPair(FragmentPrice(a), FragmentPrice(b));
  }

  /** The prices of two spans are the present ones of their two conversions. */
  lemma PairConversions(a: string, b: string)
    ensures ParsedPrices([a, b]) == Present([FragmentPrice(a), FragmentPrice(b)])
  {
    assert Conversions([a, b]) == [FragmentPrice(a), FragmentPrice(b)];
  }

  /** Two present values are both kept, in order. */
  lemma {:induction false} PresentPair(p: Option<real>, q: Option<real>)
    requires p.Some? && q.Some?
    ensures Present([p, q]) == [p.value, q.value]
  {
    PresentAppend([p], [q]);
    assert [p, q] == [p] + [q];
    assert [p][..0] == [] && [q][..0] == [];
  }

  lemma {:induction false} AverageExample(prices: seq<real>)
    requires prices == [10.0, 20.5]
    ensures AveragePrice(prices) == Some(15.25)
  {
    assert prices[..1] == [10.0] && prices[..1][..0] == [];
    assert Sum(prices[..1]) == 10.0;
    assert Sum(prices) == 30.5;
    assert Mean(prices) == 15.25;
    assert (15.25 * 100.0 + 0.5).Floor == 1525;
  }

  /** Spans "R$ 10,00" and "R$ 20,50" give the prices 10.00 and 20.50 and the representative price 15.25. */
  lemma {:induction false} TwoSpansExample(first: string, second: string)
    requires first == "R$ 10,00" && second == "R$ 20,50"
    ensures ParsedPrices([first, second]) == [10.0, 20.5]
    ensures AveragePrice(ParsedPrices([first, second])) == Some(15.25)
  {
    TwoSpansPrices(first, second);
    AverageExample(ParsedPrices([first, second]));
  }

  /** "R$ 10,00" and "R$ 20,50" give the prices 10.00 and 20.50, in that order. */
  lemma {:induction false} TwoSpansPrices(first: string, second: string)
    requires first == "R$ 10,00" && second == "R$ 20,50"
    ensures ParsedPrices([first, second]) == [10.0, 20.5]
  {
    FragmentExample(first, "10", "00", 10.0);
    FragmentExample(second, "20", "50", 20.5);
    ParsedPricesPair(first, second);
  }
}
