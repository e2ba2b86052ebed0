/**
  `utils/helpers.py`: the price enrichment pass `adicionar_preco_medio`, its
  inner two-tier price search `buscar_preco`, and the file-name slug
  `formatar_nome_arquivo`. The marketplace is reached through `fetch`,
  which stands for one HTTP GET: it maps a URL to a transport failure or to
  a status and the texts of the page's spans that carry `R$`.
 */
module Helpers {
  import opened Wrappers
  import opened Text
  import opened Tables
  import opened PriceText
  import opened Quoting

  // ---------------------------------------------------------------------
  // Search URLs
  // ---------------------------------------------------------------------

  const SearchPage := "https://www.estantevirtual.com.br/busca"
  const SearchField := "searchField=titulo-autor"

  /** Query parameters joined with `&`. */
  function JoinParams(params: seq<string>): string
    requires |params| >= 1
  {
    if |params| == 1 then params[0] else params[0] + "&" + JoinParams(params[1..])
  }

  /** The search page with the given `name=value` parameters. */
  function SearchUrl(params: seq<string>): string
    requires |params| >= 1
  {
    SearchPage + "?" + JoinParams(params)
  }

  function TitleParams(title: string): seq<string> {
    ["q=" + Quote(Lower(title)), SearchField]
  }

  function PublisherParam(publisher: string): string {
    "editora=" + Quote(ReplaceChar(Lower(publisher), ' ', '-'))
  }

  /** The title-only search (`url3`): `?q=<quoted lower-case title>&searchField=titulo-autor`. */
  function SecondaryUrl(title: string): string
  {
    SearchPage + "?" + "q=" + Quote(Lower(title)) + "&" + SearchField
  }

  /** The publisher-filtered search (`url2`): the same query with `&editora=<quoted lower-case publisher, spaces as hyphens>` added. */
  function PrimaryUrl(title: string, publisher: string): string
  {
    SearchPage + "?" + "q=" + Quote(Lower(title)) + "&" + SearchField + "&" + "editora=" + Quote(ReplaceChar(Lower(publisher), ' ', '-'))
  }

  /** Fields of `s` between the separator character `sep`. */
  function Split(s: string, sep: char): (r: seq<string>)
    ensures |r| >= 1
  {
    if s == [] then [""]
    else if s[0] == sep then [""] + Split(s[1..], sep)
    else
      var rest := Split(s[1..], sep);
      [[s[0]] + rest[0]] + rest[1..]
  }

  lemma {:induction false} SplitPrefix(x: string, sep: char, rest: string)
    requires sep !in x
    ensures Split(x + [sep] + rest, sep) == [x] + Split(rest, sep)
  {
    if x == [] {
      assert x + [sep] + rest == [sep] + rest;
    } else {
      assert (x + [sep] + rest)[1..] == x[1..] + [sep] + rest;
      SplitPrefix(x[1..], sep, rest);
      assert [x[0]] + x[1..] == x;
    }
  }

  lemma {:induction false} SplitWhole(x: string, sep: char)
    requires sep !in x
    ensures Split(x, sep) == [x]
  {
    if x != [] {
      SplitWhole(x[1..], sep);
      assert [x[0]] + x[1..] == x;
    }
  }

  /** Parameters without `&` are read back exactly from the joined query. */
  lemma {:induction false} JoinParamsSplit(params: seq<string>)
    requires |params| >= 1
    requires forall k :: 0 <= k < |params| ==> '&' !in params[k]
    ensures Split(JoinParams(params), '&') == params
  {
    if |params| == 1 {
      SplitWhole(params[0], '&');
    } else {
      JoinParamsSplit(params[1..]);
      SplitPrefix(params[0], '&', JoinParams(params[1..]));
    }
  }

  lemma QuotedHasNoAmpersand(s: string)
    ensures '&' !in Quote(s)
  {
    var q := Quote(s);
    assert forall k :: 0 <= k < |q| ==> q[k] != '&';
  }

  /**
    The title-only URL is a strict prefix of the publisher-filtered one,
    which only appends `&editora=` and the publisher.
   */
  lemma UrlShape(title: string, publisher: string)
    ensures PrimaryUrl(title, publisher) == SecondaryUrl(title) + "&" + PublisherParam(publisher)
    ensures |SecondaryUrl(title)| < |PrimaryUrl(title, publisher)|
  {
  }

  /**
    Read as `name=value` parameters, the title-only URL carries `q` and
    `searchField`, and the publisher-filtered one those two and `editora`.
   */
  lemma UrlQueries(title: string, publisher: string)
    ensures SecondaryUrl(title) == SearchUrl(TitleParams(title))
    ensures PrimaryUrl(title, publisher) == SearchUrl(TitleParams(title) + [PublisherParam(publisher)])
  {
    var q, e := Quote(Lower(title)), Quote(ReplaceChar(Lower(publisher), ' ', '-'));
    QueryShape(q, e);
    assert TitleParams(title) + [PublisherParam(publisher)] == ["q=" + q, SearchField, "editora=" + e];
  }

  lemma QueryShape(q: string, e: string)
    ensures SearchPage + "?" + "q=" + q + "&" + SearchField == SearchUrl(["q=" + q, SearchField])
    ensures SearchPage + "?" + "q=" + q + "&" + SearchField + "&" + "editora=" + e
         == SearchUrl(["q=" + q, SearchField, "editora=" + e])
  {
    var ts := ["q=" + q, SearchField];
    assert ts[1..] == [SearchField];
    assert JoinParams(ts) == "q=" + q + "&" + SearchField;
    var ps := ["q=" + q, SearchField, "editora=" + e];
    assert ps[1..][1..] == ["editora=" + e];
    assert JoinParams(ps[1..]) == SearchField + "&" + ("editora=" + e);
    assert JoinParams(ps) == "q=" + q + "&" + (SearchField + "&" + ("editora=" + e));
  }

  /**
    Since quoting leaves no `&`, splitting the publisher-filtered query at
    `&` gives back exactly its three parameters, whatever the title and
    publisher are.
   */
  lemma UrlParams(title: string, publisher: string)
    ensures Split(JoinParams(TitleParams(title) + [PublisherParam(publisher)]), '&')
         == ["q=" + Quote(Lower(title)), SearchField, PublisherParam(publisher)]
  {
    var params := TitleParams(title) + [PublisherParam(publisher)];
    QuotedHasNoAmpersand(Lower(title));
    QuotedHasNoAmpersand(ReplaceChar(Lower(publisher), ' ', '-'));
    forall k | 0 <= k < |params| ensures '&' !in params[k] {
      if k == 0 {
        assert params[0] == "q=" + Quote(Lower(title));
      } else if k == 2 {
        assert params[2] == "editora=" + Quote(ReplaceChar(Lower(publisher), ' ', '-'));
      }
    }
    JoinParamsSplit(params);
  }

  // ---------------------------------------------------------------------
  // Two-tier price search (`buscar_preco`)
  // ---------------------------------------------------------------------

  /**
    The price `buscar_preco` returns for the replies to the publisher-filtered
    and the title-only query: nothing when either request failed; otherwise
    the rounded mean of the publisher-filtered prices, else of the title-only
    prices, else 0.
   */
  function TieredPrice(primary: Reply, secondary: Reply): (r: Option<real>)
  {
    if Failed(primary) || Failed(secondary) then None
    else
      var first := ParsedPrices(primary.spans);
      var second := ParsedPrices(secondary.spans);
      if first != [] then AveragePrice(first)
      else if second != [] then AveragePrice(second)
      else Some(0.0)
  }

  /**
    `buscar_preco(title, year, publisher)`: both pages are fetched before
    either is read, each page's spans go through the price-extraction loop,
    and the publisher-filtered prices win over the title-only ones.
    The year only reaches an unused variable, so it is not a parameter.
   */
  method EstimatePrice(title: string, publisher: string, fetch: string -> Reply) returns (price: Option<real>)
    ensures price == TieredPrice(fetch(PrimaryUrl(title, publisher)), fetch(SecondaryUrl(title)))
  {
    var primaryUrl := PrimaryUrl(title, publisher);
    var secondaryUrl := SecondaryUrl(title);
    var response2 := fetch(primaryUrl);
    if Failed(response2) {
      return None;
    }
    var response3 := fetch(secondaryUrl);
    if Failed(response3) {
      return None;
    }
    var prices2 := ExtractPrices(response2.spans);
    var prices3 := ExtractPrices(response3.spans);
    if prices2 != [] {
      price := Some(Round2(Mean(prices2)));
    } else if prices3 != [] {
      price := Some(Round2(Mean(prices3)));
    } else {
      price := Some(0.0);
    }
  }

  /**
    The search gives nothing exactly when one of the two requests failed,
    even if the other one succeeded; when both succeed there is always a
    price, 0 when no span converts, and it is never negative.
   */
  lemma TieredPriceOutcome(primary: Reply, secondary: Reply)
    ensures TieredPrice(primary, secondary).None? <==> Failed(primary) || Failed(secondary)
    ensures TieredPrice(primary, secondary).Some? ==> TieredPrice(primary, secondary).value >= 0.0
    ensures !Failed(primary) && !Failed(secondary)
            && ParsedPrices(primary.spans) == [] && ParsedPrices(secondary.spans) == []
            ==> TieredPrice(primary, secondary) == Some(0.0)
  {
    if !Failed(primary) && !Failed(secondary) {
      if ParsedPrices(primary.spans) != [] {
        PageAverageNonNegative(primary.spans);
      } else if ParsedPrices(secondary.spans) != [] {
        PageAverageNonNegative(secondary.spans);
      }
    }
  }

  /** The average of the prices a page yields is never negative. */
  lemma PageAverageNonNegative(spans: seq<string>)
    requires ParsedPrices(spans) != []
    ensures AveragePrice(ParsedPrices(spans)).value >= 0.0
  {
    var prices := ParsedPrices(spans);
    ParsedPricesFaithful(spans);
    assert forall k :: 0 <= k < |prices| ==> prices[k] in prices;
    AveragePriceNonNegative(prices);
  }

  /**
    When the publisher-filtered page yields a price, the result is the
    rounded mean of its prices, so within half a cent of any bounds on them,
    whatever the title-only page holds.
   */
  lemma TieredPricePrimaryWins(primary: Reply, secondary: Reply, other: Reply, lo: real, hi: real)
    requires !Failed(primary) && !Failed(secondary) && !Failed(other)
    requires ParsedPrices(primary.spans) != []
    requires forall x :: x in ParsedPrices(primary.spans) ==> lo <= x <= hi
    ensures TieredPrice(primary, secondary) == TieredPrice(primary, other)
    ensures TieredPrice(primary, secondary) == AveragePrice(ParsedPrices(primary.spans))
    ensures lo - 0.005 < TieredPrice(primary, secondary).value <= hi + 0.005
  {
    var first := ParsedPrices(primary.spans);
    assert forall k :: 0 <= k < |first| ==> first[k] in first;
    AveragePriceBounds(first, lo, hi);
  }

  /**
    When the publisher-filtered page yields no price, the result is the
    rounded mean of the title-only prices, within half a cent of any bounds
    on them, or 0 when that page yields none either.
   */
  lemma TieredPriceFallback(primary: Reply, secondary: Reply, lo: real, hi: real)
    requires !Failed(primary) && !Failed(secondary)
    requires ParsedPrices(primary.spans) == []
    requires forall x :: x in ParsedPrices(secondary.spans) ==> lo <= x <= hi
    ensures ParsedPrices(secondary.spans) != [] ==>
              TieredPrice(primary, secondary) == AveragePrice(ParsedPrices(secondary.spans))
              && lo - 0.005 < TieredPrice(primary, secondary).value <= hi + 0.005
    ensures ParsedPrices(secondary.spans) == [] ==> TieredPrice(primary, secondary) == Some(0.0)
  {
    var second := ParsedPrices(secondary.spans);
    if second != [] {
      assert forall k :: 0 <= k < |second| ==> second[k] in second;
      AveragePriceBounds(second, lo, hi);
    }
  }

  // ---------------------------------------------------------------------
  // Enrichment pass (`adicionar_preco_medio`)
  // ---------------------------------------------------------------------

  const VerifiedColumn := "preco_correto"

  /** `df['preco_correto'] == 'yes'`: only the text `yes` marks a verified price (a missing value does not). */
  predicate IsVerified(row: Row) {
    VerifiedColumn in row && row[VerifiedColumn] == Text("yes")
  }

  /** `df[df['preco_correto'] == 'yes']`: the verified rows, in order. */
  function VerifiedRows(rows: seq<Row>): (r: seq<Row>)
    ensures |r| <= |rows|
    ensures forall k :: 0 <= k < |r| ==> IsVerified(r[k]) && r[k] in rows
    ensures forall k :: 0 <= k < |rows| && IsVerified(rows[k]) ==> rows[k] in r
  {
    if rows == [] then []
    else (if IsVerified(rows[0]) then [rows[0]] else []) + VerifiedRows(rows[1..])
  }

  /** `df[df['preco_correto'] != 'yes']`: the other rows, in order. */
  function UnverifiedRows(rows: seq<Row>): (r: seq<Row>)
    ensures |r| <= |rows|
    ensures forall k :: 0 <= k < |r| ==> !IsVerified(r[k]) && r[k] in rows
    ensures forall k :: 0 <= k < |rows| && !IsVerified(rows[k]) ==> rows[k] in r
  {
    if rows == [] then []
    else (if IsVerified(rows[0]) then [] else [rows[0]]) + UnverifiedRows(rows[1..])
  }

  /** The two parts split the rows: together they hold every row exactly as often as the table does. */
  lemma {:induction false} PartitionCounts(rows: seq<Row>)
    ensures multiset(VerifiedRows(rows)) + multiset(UnverifiedRows(rows)) == multiset(rows)
    ensures |VerifiedRows(rows)| + |UnverifiedRows(rows)| == |rows|
  {
    if rows != [] {
      PartitionCounts(rows[1..]);
      assert rows == [rows[0]] + rows[1..];
    }
  }

  /** The cell the search result becomes: a number, or NaN when the search gave nothing. */
  function PriceCell(price: Option<real>): (c: Cell)
    ensures price.None? <==> c.Null?
    ensures price.Some? ==> c == Num(price.value)
  {
    match price
    case Some(x) => Num(x)
    case None => Null
  }

  /** The texts the row lambda hands to `buscar_preco`: `str()` of the row's title and publisher. */
  datatype Query = Query(title: string, publisher: string)

  function RowQuery(row: Row): Query
    requires "title" in row && "publisher" in row
  {
    Query(CellText(row["title"]), CellText(row["publisher"]))
  }

  /** The two-tier price for a title and publisher. */
  function QueryPrice(q: Query, fetch: string -> Reply): Option<real> {
    TieredPrice(fetch(PrimaryUrl(q.title, q.publisher)), fetch(SecondaryUrl(q.title)))
  }

  /** The search result for the row's title and publisher, as `str()` prints them. */
  function RowPrice(row: Row, fetch: string -> Reply): Option<real>
    requires "title" in row && "publisher" in row
  {
    QueryPrice(RowQuery(row), fetch)
  }

  /** The row with its price column set from the search on its title and publisher. */
  function PricedRow(row: Row, column: string, fetch: string -> Reply): (r: Row)
    requires "title" in row && "publisher" in row
    ensures r.Keys == row.Keys + {column}
    ensures forall c :: c in row && c != column ==> r[c] == row[c]
  {
    row[column := PriceCell(RowPrice(row, fetch))]
  }

  /** Every row priced, in order. */
  function PricedRows(rows: seq<Row>, column: string, fetch: string -> Reply): (r: seq<Row>)
    requires forall k :: 0 <= k < |rows| ==> "title" in rows[k] && "publisher" in rows[k]
    ensures |r| == |rows|
    ensures forall k {:trigger r[k]} :: 0 <= k < |rows| ==> r[k] == PricedRow(rows[k], column, fetch)
  {
    seq(|rows|, k requires 0 <= k < |rows| => PricedRow(rows[k], column, fetch))
  }

  /** The row lambda: `buscar_preco(row["title"], row["year"], row["publisher"])` on the texts of the row. */
  method SearchRow(q: Query, fetch: string -> Reply) returns (price: Option<real>)
    ensures price == QueryPrice(q, fetch)
  {
    price := EstimatePrice(q.title, q.publisher, fetch);
  }

  /** `df2.apply(lambda row: buscar_preco(...), axis=1)`: one search per row, in row order. */
  method SearchRows(queries: seq<Query>, fetch: string -> Reply) returns (prices: seq<Option<real>>)
    ensures |prices| == |queries|
    ensures forall k {:trigger prices[k]} :: 0 <= k < |queries| ==> prices[k] == QueryPrice(queries[k], fetch)
  {
    prices := [];
    var i := 0;
    while i < |queries|
      invariant 0 <= i <= |queries|
      invariant |prices| == i
      invariant forall k {:trigger prices[k]} :: 0 <= k < i ==> prices[k] == QueryPrice(queries[k], fetch)
    {
      var price := SearchRow(queries[i], fetch);
      prices := prices + [price];
      i := i + 1;
    }
  }

  /** The searched prices assigned as the new column (`df2[nova_coluna] = ...`). */
  method PriceRows(rows: seq<Row>, column: string, fetch: string -> Reply) returns (priced: seq<Row>)
    requires forall k :: 0 <= k < |rows| ==> "title" in rows[k] && "publisher" in rows[k]
    ensures priced == PricedRows(rows, column, fetch)
  {
    var queries := seq(|rows|, k requires 0 <= k < |rows| => RowQuery(rows[k]));
    var prices := SearchRows(queries, fetch);
    priced := seq(|rows|, k requires 0 <= k < |rows| => rows[k][column := PriceCell(prices[k])]);
  }

  /** The first of the columns the row lookup reads (`title`, `year`, `publisher`) that the table lacks. */
  function MissingLookup(columns: set<string>): (name: Option<string>)
    ensures name.None? <==> "title" in columns && "year" in columns && "publisher" in columns
  {
    if "title" !in columns then Some("title")
    else if "year" !in columns then Some("year")
    else if "publisher" !in columns then Some("publisher")
    else None
  }

  /** The unverified rows of a well-formed table have exactly its columns. */
  lemma UnverifiedKeys(df: Table)
    requires WellFormed(df)
    ensures forall k :: 0 <= k < |UnverifiedRows(df.rows)| ==> UnverifiedRows(df.rows)[k].Keys == df.columns
  {
  }

  /**
    Why the pass raises: a `KeyError` for a column it reads, or the
    `ValueError` of assigning a whole frame to the new column.
   */
  datatype EnrichError = ColumnNotFound(name: string) | FrameToColumn

  /**
    What `adicionar_preco_medio` returns: a `KeyError` naming the missing
    column when `preco_correto` is absent, or when there is an unverified row
    and `title`, `year` or `publisher` is absent; otherwise the verified rows,
    then the unverified rows each with the price column set, with exact
    duplicate rows removed keeping the first.

    With no unverified row, `apply` calls the lambda once on a row of NaN
    holding the table's columns. A missing lookup column makes that call
    raise, which `apply` swallows and answers with a copy of the empty frame;
    assigning that frame to the new column raises a `ValueError` unless the
    frame has a single column. With the lookup columns present the call
    returns a value and the assigned column is empty.
   */
  function Enriched(df: Table, column: string, fetch: string -> Reply): (r: Result<Table, EnrichError>)
    requires WellFormed(df)
    ensures VerifiedColumn !in df.columns ==> r == Err(ColumnNotFound(VerifiedColumn))
    ensures VerifiedColumn in df.columns && MissingLookup(df.columns).Some? && UnverifiedRows(df.rows) != [] ==>
              r == Err(ColumnNotFound(MissingLookup(df.columns).value))
    ensures VerifiedColumn in df.columns && MissingLookup(df.columns).Some? && UnverifiedRows(df.rows) == [] ==>
              (r.Err? <==> |df.columns| >= 2) && (r.Err? ==> r == Err(FrameToColumn))
    ensures VerifiedColumn in df.columns && MissingLookup(df.columns).None? ==> r.Ok?
  {
    if VerifiedColumn !in df.columns then Err(ColumnNotFound(VerifiedColumn))
    else
      var redo := UnverifiedRows(df.rows);
      if redo != [] && MissingLookup(df.columns).Some? then Err(ColumnNotFound(MissingLookup(df.columns).value))
      else if redo == [] && MissingLookup(df.columns).Some? && |df.columns| >= 2 then Err(FrameToColumn)
      else
        UnverifiedKeys(df);
        var keep := Table(df.columns, VerifiedRows(df.rows));
        var priced := Table(df.columns + {column}, PricedRows(redo, column, fetch));
        Ok(DropDuplicateRows(Concat(keep, priced)))
  }

  /**
    `adicionar_preco_medio(df, nova_coluna)`: splits off the unverified rows,
    prices them one by one, puts the verified rows first and removes exact
    duplicate rows.
   */
  method AddAveragePrice(df: Table, column: string, fetch: string -> Reply) returns (r: Result<Table, EnrichError>)
    requires WellFormed(df)
    ensures r == Enriched(df, column, fetch)
  {
    if VerifiedColumn !in df.columns {
      return Err(ColumnNotFound(VerifiedColumn));
    }
    var df1 := VerifiedRows(df.rows);
    var df2 := UnverifiedRows(df.rows);
    var missing := MissingLookup(df.columns);
    if df2 != [] && missing.Some? {
      return Err(ColumnNotFound(missing.value));
    }
    if df2 == [] && missing.Some? && |df.columns| >= 2 {
      return Err(FrameToColumn);
    }
    UnverifiedKeys(df);
    var priced := PriceRows(df2, column, fetch);
    r := Ok(DropDuplicateRows(Concat(Table(df.columns, df1), Table(df.columns + {column}, priced))));
  }

  /** What the pass hands to `drop_duplicates`: the padded verified rows, then the priced unverified rows. */
  lemma EnrichedRows(df: Table, column: string, fetch: string -> Reply)
    requires WellFormed(df)
    requires Enriched(df, column, fetch).Ok?
    ensures var cols := df.columns + {column};
            var keep := PadRows(VerifiedRows(df.rows), cols);
            var priced := PricedRows(UnverifiedRows(df.rows), column, fetch);
            Enriched(df, column, fetch).value.rows == DropDuplicates(keep + priced)
  {
    var cols := df.columns + {column};
    var redo := UnverifiedRows(df.rows);
    UnverifiedKeys(df);
    var keepT := Table(df.columns, VerifiedRows(df.rows));
    var pricedT := Table(cols, PricedRows(redo, column, fetch));
    ConcatRows(keepT, pricedT);
    PadRowsKeeps(pricedT.rows, cols);
  }

  /**
    The properties of the pass: never more rows than the input, no row
    twice, and the (deduplicated) verified rows first, unchanged except for
    an empty price column when that column is new.
   */
  lemma EnrichedShape(df: Table, column: string, fetch: string -> Reply)
    requires WellFormed(df)
    requires Enriched(df, column, fetch).Ok?
    ensures var out := Enriched(df, column, fetch).value;
            && WellFormed(out)
            && out.columns == df.columns + {column}
            && |out.rows| <= |df.rows|
            && Distinct(out.rows)
            && DropDuplicates(PadRows(VerifiedRows(df.rows), df.columns + {column})) <= out.rows
  {
    var cols := df.columns + {column};
    var keep := PadRows(VerifiedRows(df.rows), cols);
    var priced := PricedRows(UnverifiedRows(df.rows), column, fetch);
    var out := Enriched(df, column, fetch).value;
    assert out.rows == DropDuplicates(keep + priced) by {
      EnrichedRows(df, column, fetch);
    }
    assert |keep + priced| == |df.rows| by {
      PartitionCounts(df.rows);
    }
    assert DropDuplicates(keep) <= DropDuplicates(keep + priced) by {
      DedupFromAppend(keep, priced, {});
    }
  }

  lemma VerifiedRowKept(df: Table, column: string, fetch: string -> Reply, k: nat)
    requires WellFormed(df)
    requires Enriched(df, column, fetch).Ok?
    requires k < |df.rows| && IsVerified(df.rows[k])
    ensures Pad(df.rows[k], df.columns + {column}) in Enriched(df, column, fetch).value.rows
  {
    UnverifiedKeys(df);
    EnrichedRows(df, column, fetch);
    VerifiedKept(df.rows, df.columns + {column}, UnverifiedRows(df.rows), column, fetch, k);
  }

  lemma VerifiedKept(rows: seq<Row>, cols: set<string>, redo: seq<Row>, column: string, fetch: string -> Reply, k: nat)
    requires forall i :: 0 <= i < |rows| ==> rows[i].Keys <= cols
    requires forall i :: 0 <= i < |redo| ==> "title" in redo[i] && "publisher" in redo[i]
    requires k < |rows| && IsVerified(rows[k])
    ensures forall i :: 0 <= i < |VerifiedRows(rows)| ==> VerifiedRows(rows)[i].Keys <= cols
    ensures Pad(rows[k], cols) in DropDuplicates(PadRows(VerifiedRows(rows), cols) + PricedRows(redo, column, fetch))
  {
    var verified := VerifiedRows(rows);
    var j := IndexOf(verified, rows[k]);
    var keep := PadRows(verified, cols);
    var priced := PricedRows(redo, column, fetch);
    assert (keep + priced)[j] == keep[j];
  }

  lemma UnverifiedRowPriced(df: Table, column: string, fetch: string -> Reply, k: nat)
    requires WellFormed(df)
    requires Enriched(df, column, fetch).Ok?
    requires k < |df.rows| && !IsVerified(df.rows[k])
    ensures "title" in df.rows[k] && "publisher" in df.rows[k]
    ensures PricedRow(df.rows[k], column, fetch) in Enriched(df, column, fetch).value.rows
  {
    EnrichedLookupColumns(df, column, fetch, k);
    EnrichedRows(df, column, fetch);
    PricedKept(df.rows, df.columns + {column}, column, fetch, k);
  }

  /** A pass that succeeds with an unverified row has the columns the lookup reads. */
  lemma EnrichedLookupColumns(df: Table, column: string, fetch: string -> Reply, k: nat)
    requires WellFormed(df)
    requires Enriched(df, column, fetch).Ok?
    requires k < |df.rows| && !IsVerified(df.rows[k])
    ensures "title" in df.columns && "publisher" in df.columns
  {
    assert df.rows[k] in UnverifiedRows(df.rows);
  }

  lemma PricedKept(rows: seq<Row>, cols: set<string>, column: string, fetch: string -> Reply, k: nat)
    requires forall i :: 0 <= i < |rows| ==> rows[i].Keys <= cols && "title" in rows[i] && "publisher" in rows[i]
    requires k < |rows| && !IsVerified(rows[k])
    ensures forall i :: 0 <= i < |VerifiedRows(rows)| ==> VerifiedRows(rows)[i].Keys <= cols
    ensures PricedRow(rows[k], column, fetch) in DropDuplicates(PadRows(VerifiedRows(rows), cols) + PricedRows(UnverifiedRows(rows), column, fetch))
  {
    var redo := UnverifiedRows(rows);
    var j := IndexOf(redo, rows[k]);
    InDropDuplicatesRight(PadRows(VerifiedRows(rows), cols), PricedRows(redo, column, fetch), j);
  }

  /**
    Every input row is represented in the output: a verified row as itself
    (padded with an empty price column when that column is new), any other
    row with only its price column set from its own search.
   */
  lemma EnrichedKeepsEveryRow(df: Table, column: string, fetch: string -> Reply)
    requires WellFormed(df)
    requires Enriched(df, column, fetch).Ok?
    ensures forall k :: 0 <= k < |df.rows| && IsVerified(df.rows[k]) ==>
              Pad(df.rows[k], df.columns + {column}) in Enriched(df, column, fetch).value.rows
    ensures forall k :: 0 <= k < |df.rows| && !IsVerified(df.rows[k]) ==>
              PricedRow(df.rows[k], column, fetch) in Enriched(df, column, fetch).value.rows
  {
    forall k | 0 <= k < |df.rows| && IsVerified(df.rows[k])
      ensures Pad(df.rows[k], df.columns + {column}) in Enriched(df, column, fetch).value.rows
    {
      VerifiedRowKept(df, column, fetch, k);
    }
    forall k | 0 <= k < |df.rows| && !IsVerified(df.rows[k])
      ensures PricedRow(df.rows[k], column, fetch) in Enriched(df, column, fetch).value.rows
    {
      UnverifiedRowPriced(df, column, fetch, k);
    }
  }

  // ---------------------------------------------------------------------
  // File-name slug (`formatar_nome_arquivo`)
  // ---------------------------------------------------------------------

  /** `.encode("ASCII", "ignore").decode()`: every character outside ASCII is dropped. */
  function AsciiOnly(s: string): (r: string)
    ensures |r| <= |s|
    ensures forall k :: 0 <= k < |r| ==> r[k] as int < 128
  {
    if s == [] then ""
    else (if s[0] as int < 128 then [s[0]] else "") + AsciiOnly(s[1..])
  }

  /** An ASCII character `\w` or `-` matches, which `[^\w\-]` leaves alone. */
  predicate IsWordOrHyphen(c: char) {
    ('A' <= c <= 'Z') || ('a' <= c <= 'z') || ('0' <= c <= '9') || c == '_' || c == '-'
  }

  /** `re.sub(r"[^\w\-]", "_", s)` on an ASCII text: every other character becomes `_`. */
  function UnderscoreOthers(s: string): (r: string)
    ensures |r| == |s|
    ensures forall k :: 0 <= k < |r| ==> IsWordOrHyphen(r[k])
    ensures forall k :: 0 <= k < |s| && IsWordOrHyphen(s[k]) ==> r[k] == s[k]
  {
    if s == [] then ""
    else [if IsWordOrHyphen(s[0]) then s[0] else '_'] + UnderscoreOthers(s[1..])
  }

  predicate IsSlugChar(c: char) {
    ('a' <= c <= 'z') || ('0' <= c <= '9') || c == '_' || c == '-'
  }

  /**
    `formatar_nome_arquivo(titulo)` from the accent-folded title onward:
    non-ASCII characters dropped, `ç`/`Ç` replaced (there are none left by
    then), surrounding whitespace stripped, every character other than a
    letter, digit, `_` or `-` turned into `_`, and the result lower-cased.
   */
  function Slug(title: string): (r: string)
    ensures |r| <= |title|
    ensures forall k :: 0 <= k < |r| ==> IsSlugChar(r[k])
  {
    var ascii := AsciiOnly(title);
    var noCedilla := ReplaceChar(ReplaceChar(ascii, 'ç', 'c'), 'Ç', 'C');
    var u := UnderscoreOthers(Strip(noCedilla));
    LowerWordChars(u);
    Lower(u)
  }

  lemma LowerWordChars(u: string)
    requires forall k :: 0 <= k < |u| ==> IsWordOrHyphen(u[k])
    ensures forall k :: 0 <= k < |Lower(u)| ==> IsSlugChar(Lower(u)[k])
  {
    var r := Lower(u);
    forall k | 0 <= k < |r| ensures IsSlugChar(r[k]) {
      assert IsWordOrHyphen(u[k]) && !IsUpper(r[k]);
      if !IsUpper(u[k]) { assert r[k] == u[k]; }
    }
  }

  /** The cedilla replacements act on a text that is already ASCII, so they change nothing. */
  lemma CedillaReplaceIsNoOp(s: string)
    ensures var a := AsciiOnly(s); ReplaceChar(ReplaceChar(a, 'ç', 'c'), 'Ç', 'C') == a
  {
    var a := AsciiOnly(s);
    var b := ReplaceChar(a, 'ç', 'c');
    forall k | 0 <= k < |a| ensures b[k] == a[k] && ReplaceChar(b, 'Ç', 'C')[k] == a[k] {
      assert a[k] as int < 128;
    }
  }

  lemma {:induction false} AsciiOnlyKeeps(s: string)
    requires forall k :: 0 <= k < |s| ==> s[k] as int < 128
    ensures AsciiOnly(s) == s
  {
    if s != [] {
      AsciiOnlyKeeps(s[1..]);
      assert [s[0]] + s[1..] == s;
    }
  }

  lemma {:induction false} UnderscoreOthersKeeps(s: string)
    requires forall k :: 0 <= k < |s| ==> IsWordOrHyphen(s[k])
    ensures UnderscoreOthers(s) == s
  {
    if s != [] {
      UnderscoreOthersKeeps(s[1..]);
      assert [s[0]] + s[1..] == s;
    }
  }

  lemma {:induction false} LowerKeeps(s: string)
    requires forall k :: 0 <= k < |s| ==> !IsUpper(s[k])
    ensures Lower(s) == s
  {
    if s != [] {
      LowerKeeps(s[1..]);
      assert [s[0]] + s[1..] == s;
    }
  }

  /** A text already made of slug characters is its own slug. */
  lemma SlugKeeps(s: string)
    requires forall k :: 0 <= k < |s| ==> IsSlugChar(s[k])
    ensures Slug(s) == s
  {
    forall k | 0 <= k < |s| ensures s[k] as int < 128 && IsWordOrHyphen(s[k]) && !IsUpper(s[k]) && !IsSpace(s[k]) {
      assert IsSlugChar(s[k]);
    }
    AsciiOnlyKeeps(s);
    CedillaReplaceIsNoOp(s);
    var noCedilla := ReplaceChar(ReplaceChar(AsciiOnly(s), 'ç', 'c'), 'Ç', 'C');
    assert noCedilla == s;
    StripKeeps(s);
    UnderscoreOthersKeeps(s);
    LowerKeeps(s);
    assert Lower(UnderscoreOthers(Strip(noCedilla))) == s;
  }

  /** Turning a slug into a slug again changes nothing. */
  lemma SlugIdempotent(title: string)
    ensures Slug(Slug(title)) == Slug(title)
  {
    SlugKeeps(Slug(title));
  }
}
