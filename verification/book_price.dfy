/**
  The one-off price script (`book_price.py`): one title-only search on Estante
  Virtual per book, with no fallback, and a batch loop that adds the results
  to the table as the column `preco_medio_estante_virtual`.
 */
module BookPrice {
  import opened Wrappers
  import opened Tables
  import opened PriceText
  import opened Quoting
  import opened Helpers

  /** `.../busca?q=<quote(title)>`: the title is quoted as it is, not lower-cased. */
  function TitleUrl(title: string): string
  {
    SearchPage + "?q=" + Quote(title)
  }

  /** Two titles give the same URL only when they have the same UTF-8 bytes. */
  lemma TitleUrlInjective(a: string, b: string)
    requires TitleUrl(a) == TitleUrl(b)
    ensures Utf8Encode(a) == Utf8Encode(b)
  {
    var n := |SearchPage| + 3;
    assert Quote(a) == TitleUrl(a)[n..];
    assert Quote(b) == TitleUrl(b)[n..];
    QuoteInjective(a, b);
  }

  /**
    The result of `buscar_preco_medio` for the reply to its one request:
    nothing when the request failed, otherwise the rounded mean of the prices
    on the page, or nothing when none converts.
   */
  function SearchPrice(reply: Reply): (price: Option<real>)
  {
    if Failed(reply) then None else AveragePrice(ParsedPrices(reply.spans))
  }

  /** `buscar_preco_medio(titulo)`: fetch, extract the prices span by span, average them. */
  method FetchAveragePrice(title: string, fetch: string -> Reply) returns (price: Option<real>)
    ensures price == SearchPrice(fetch(TitleUrl(title)))
  {
    var response := fetch(TitleUrl(title));
    if Failed(response) {
      return None;
    }
    var prices := ExtractPrices(response.spans);
    if prices != [] {
      price := Some(Round2(Mean(prices)));
    } else {
      price := None;
    }
  }

  /**
    The search gives nothing exactly when the request failed or no span
    converted, and otherwise a non-negative price within half a cent of the
    prices it averages.
   */
  lemma SearchPriceOutcome(reply: Reply, lo: real, hi: real)
    requires reply.Response? ==> forall x :: x in ParsedPrices(reply.spans) ==> lo <= x <= hi
    ensures SearchPrice(reply).None? <==> Failed(reply) || ParsedPrices(reply.spans) == []
    ensures SearchPrice(reply).Some? ==>
              SearchPrice(reply).value >= 0.0 && lo - 0.005 < SearchPrice(reply).value <= hi + 0.005
  {
    if !Failed(reply) && ParsedPrices(reply.spans) != [] {
      var prices := ParsedPrices(reply.spans);
      ParsedPricesFaithful(reply.spans);
      assert forall k :: 0 <= k < |prices| ==> prices[k] in prices;
      AveragePriceBounds(prices, lo, hi);
      AveragePriceNonNegative(prices);
    }
  }

  /**
    Where this search and the two-tier search of the enrichment pass differ on
    the same page: with no convertible price this one gives nothing where the
    other gives 0; with prices both give the same rounded mean.
   */
  lemma SearchPriceVersusTiered(reply: Reply)
    requires !Failed(reply)
    ensures ParsedPrices(reply.spans) == [] ==> SearchPrice(reply) == None && TieredPrice(reply, reply) == Some(0.0)
    ensures ParsedPrices(reply.spans) != [] ==> SearchPrice(reply) == TieredPrice(reply, reply)
  {
  }

  // ---------------------------------------------------------------------
  // Batch loop over the table
  // ---------------------------------------------------------------------

  const TitleColumn := "titulo"
  const AverageColumn := "preco_medio_estante_virtual"

  /** Why the loop stops: a missing `titulo` column (`KeyError`), or a title that is not text, which `quote` rejects (`TypeError`). */
  datatype BatchError = MissingColumn(name: string) | NotText(row: nat)

  /** The index of the first row whose cell in `column` is not text, if any. */
  function FirstNonText(rows: seq<Row>, column: string): (r: Option<nat>)
    requires forall k :: 0 <= k < |rows| ==> column in rows[k]
    ensures r.None? <==> forall k :: 0 <= k < |rows| ==> rows[k][column].Text?
    ensures r.Some? ==> r.value < |rows| && !rows[r.value][column].Text?
                        && forall k :: 0 <= k < r.value ==> rows[k][column].Text?
  {
    if rows == [] then None
    else if !rows[0][column].Text? then Some(0)
    else match FirstNonText(rows[1..], column)
      case None => None
      case Some(k) => Some(k + 1)
  }

  /** A non-text cell preceded only by text cells is the first one. */
  lemma FirstNonTextAt(rows: seq<Row>, column: string, i: nat)
    requires forall k :: 0 <= k < |rows| ==> column in rows[k]
    requires i < |rows| && !rows[i][column].Text?
    requires forall k :: 0 <= k < i ==> rows[k][column].Text?
    ensures FirstNonText(rows, column) == Some(i)
  {
    var r := FirstNonText(rows, column);
    assert r.Some?;
    assert !(r.value < i);
    assert !(r.value > i);
  }

  /** The search result for the row's title. */
  function TitlePrice(row: Row, fetch: string -> Reply): Option<real>
    requires TitleColumn in row && row[TitleColumn].Text?
  {
    SearchPrice(fetch(TitleUrl(row[TitleColumn].s)))
  }

  /** Row `k` of the result: the input row with the average for its title in the new column. */
  function AveragedRow(row: Row, fetch: string -> Reply): (r: Row)
    requires TitleColumn in row && row[TitleColumn].Text?
  {
    row[AverageColumn := PriceCell(TitlePrice(row, fetch))]
  }

  /**
    The table the script writes: every row, in order, with the new column
    holding the search result for its own title (NaN where there is none);
    or the error that stops the loop.
   */
  function AveragedTable(df: Table, fetch: string -> Reply): (r: Result<Table, BatchError>)
    requires WellFormed(df)
    ensures TitleColumn !in df.columns ==> r == Err(MissingColumn(TitleColumn))
    ensures TitleColumn in df.columns && FirstNonText(df.rows, TitleColumn).Some? ==>
              r == Err(NotText(FirstNonText(df.rows, TitleColumn).value))
    ensures TitleColumn in df.columns && FirstNonText(df.rows, TitleColumn).None? ==> r.Ok?
    ensures r.Ok? ==>
              && WellFormed(r.value)
              && r.value.columns == df.columns + {AverageColumn}
              && |r.value.rows| == |df.rows|
  {
    if TitleColumn !in df.columns then Err(MissingColumn(TitleColumn))
    else match FirstNonText(df.rows, TitleColumn)
      case Some(k) => Err(NotText(k))
      case None =>
        Ok(Table(df.columns + {AverageColumn},
                 seq(|df.rows|, k requires 0 <= k < |df.rows| => AveragedRow(df.rows[k], fetch))))
  }

  /** The search results for every title, in row order. */
  function TitlePrices(rows: seq<Row>, fetch: string -> Reply): (r: seq<Option<real>>)
    requires forall k :: 0 <= k < |rows| ==> TitleColumn in rows[k] && rows[k][TitleColumn].Text?
    ensures |r| == |rows|
    ensures forall k {:trigger r[k]} :: 0 <= k < |rows| ==> r[k] == TitlePrice(rows[k], fetch)
  {
    seq(|rows|, k requires 0 <= k < |rows| => TitlePrice(rows[k], fetch))
  }

  /**
    The script's loop: one search per title, in row order, appended to a
    list; it stops at the index of the first title that is not text.
   */
  method SearchTitles(rows: seq<Row>, fetch: string -> Reply) returns (r: Result<seq<Option<real>>, nat>)
    requires forall k :: 0 <= k < |rows| ==> TitleColumn in rows[k]
    ensures FirstNonText(rows, TitleColumn).Some? ==> r == Err(FirstNonText(rows, TitleColumn).value)
    ensures FirstNonText(rows, TitleColumn).None? ==> r == Ok(TitlePrices(rows, fetch))
  {
    var precos: seq<Option<real>> := [];
    var i := 0;
    while i < |rows|
      invariant 0 <= i <= |rows|
      invariant |precos| == i
      invariant forall k :: 0 <= k < i ==> rows[k][TitleColumn].Text? && precos[k] == TitlePrice(rows[k], fetch)
    {
      var title := rows[i][TitleColumn];
      if !title.Text? {
        FirstNonTextAt(rows, TitleColumn, i);
        return Err(i);
      }
      var price := FetchAveragePrice(title.s, fetch);
      assert price == TitlePrice(rows[i], fetch);
      precos := precos + [price];
      i := i + 1;
    }
    assert FirstNonText(rows, TitleColumn).None?;
    assert precos == TitlePrices(rows, fetch);
    r := Ok(precos);
  }

  /** The batch: the loop over the titles, then the list assigned as the new column. */
  method AverageAll(df: Table, fetch: string -> Reply) returns (r: Result<Table, BatchError>)
    requires WellFormed(df)
    ensures r == AveragedTable(df, fetch)
  {
    if TitleColumn !in df.columns {
      return Err(MissingColumn(TitleColumn));
    }
    var searched := SearchTitles(df.rows, fetch);
    if searched.Err? {
      return Err(NotText(searched.error));
    }
    var precos := searched.value;
    var rows := seq(|df.rows|, k requires 0 <= k < |df.rows| => df.rows[k][AverageColumn := PriceCell(precos[k])]);
    assert rows == seq(|df.rows|, k requires 0 <= k < |df.rows| => AveragedRow(df.rows[k], fetch));
    r := Ok(Table(df.columns + {AverageColumn}, rows));
  }

  /**
    On success every input row is kept in place with its columns unchanged,
    and its new cell is the search result for that row's own title.
   */
  lemma AveragedTableRows(df: Table, fetch: string -> Reply, k: nat)
    requires WellFormed(df)
    requires AveragedTable(df, fetch).Ok?
    requires k < |df.rows|
    ensures df.rows[k][TitleColumn].Text?
    ensures var row := AveragedTable(df, fetch).value.rows[k];
            && (forall c :: c in df.columns && c != AverageColumn ==> row[c] == df.rows[k][c])
            && row[AverageColumn] == PriceCell(SearchPrice(fetch(TitleUrl(df.rows[k][TitleColumn].s))))
  {
  }
}
