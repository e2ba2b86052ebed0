/**
  Book metadata by ISBN (`book_data.py`, repeated verbatim at `test.py`
  lines 25-109): two providers tried in turn, Open Library and BrasilAPI,
  each reply mapped to a seven-field record; and the spreadsheet import that
  looks up every ISBN not already in the catalogue and appends the results
  after the existing rows.
 */
module BookData {
  import opened Wrappers
  import opened Text
  import opened Tables

  // ---------------------------------------------------------------------
  // Provider replies
  // ---------------------------------------------------------------------

  /**
    One HTTP exchange: the request raised (connection error, timeout), or a
    status with a body that is JSON of the expected shape (`Some`) or not
    JSON at all (`None`, on which `response.json()` raises).
   */
  datatype Http<P> = Unreachable | Reply(status: int, body: Option<P>)

  /**
    The `ISBN:<isbn>` entry of an Open Library reply. A field is `None`
    when its key is absent; `otherKeys` counts the keys the mapping does
    not read, which still make the dict non-empty.
   */
  datatype OpenLibraryEntry = OpenLibraryEntry(
    title: Option<Cell>,
    authors: Option<seq<string>>,
    publishers: Option<seq<string>>,
    publishDate: Option<Cell>,
    pages: Option<Cell>,
    otherKeys: nat)

  /** The BrasilAPI reply object; a field is `None` when its key is absent. */
  datatype BrasilBook = BrasilBook(
    title: Option<Cell>,
    authors: Option<seq<string>>,
    publisher: Option<Cell>,
    year: Option<Cell>,
    pages: Option<Cell>)

  /** Why a lookup raised: the request failed, or a 200 reply was not JSON. Either ends the whole import. */
  datatype FetchError = RequestFailed | NotJson

  /** The seven fields `buscar_dados` returns, in order `fonte`, `titulo`, `autores`, `editora`, `ano`, `paginas`, `capa2`. */
  datatype Record = Record(fonte: Cell, titulo: Cell, autores: Cell, editora: Cell, ano: Cell, paginas: Cell, capa2: Cell)

  const RecordFields: set<string> := {"fonte", "titulo", "autores", "editora", "ano", "paginas", "capa2"}

  function RecordRow(r: Record): (row: Row)
    ensures row.Keys == RecordFields
  {
    map["fonte" := r.fonte, "titulo" := r.titulo, "autores" := r.autores, "editora" := r.editora,
        "ano" := r.ano, "paginas" := r.paginas, "capa2" := r.capa2]
  }

  /** `dict.get(key)`: the value, or `None` when the key is absent. */
  function Get(field: Option<Cell>): Cell {
    match field
    case Some(c) => c
    case None => Null
  }

  /** `dict.get(key, [])` for a list of names. */
  function Names(field: Option<seq<string>>): seq<string> {
    match field
    case Some(names) => names
    case None => []
  }

  /** A dict is truthy when it holds at least one key. */
  predicate NonEmpty(e: OpenLibraryEntry) {
    e.title.Some? || e.authors.Some? || e.publishers.Some? || e.publishDate.Some? || e.pages.Some? || e.otherKeys > 0
  }

  function CoverUrl(isbn: string): string {
    "https://covers.openlibrary.org/b/isbn/" + isbn + "-L.jpg"
  }

  /**
    `buscar_openlibrary(isbn)`: a record only for a 200 reply whose
    `ISBN:<isbn>` entry is present and non-empty; `None` for any other
    status, a missing entry or an empty one.
   */
  function OpenLibraryRecord(isbn: string, reply: Http<map<string, OpenLibraryEntry>>): (r: Result<Option<Record>, FetchError>)
    ensures r.Ok? && r.value.Some? ==>
              r.value.value.fonte == Text("Open Library") && r.value.value.capa2 == Text(CoverUrl(isbn))
  {
    match reply
    case Unreachable => Err(RequestFailed)
    case Reply(status, body) =>
      if status != 200 then Ok(None)
      else if body.None? then Err(NotJson)
      else
        var key := "ISBN:" + isbn;
        if key !in body.value || !NonEmpty(body.value[key]) then Ok(None)
        else
          var e := body.value[key];
          Ok(Some(Record(Text("Open Library"), Get(e.title), Text(Join(Names(e.authors))),
                         Text(Join(Names(e.publishers))), Get(e.publishDate), Get(e.pages),
                         Text(CoverUrl(isbn)))))
  }

  /** `buscar_brasilapi(isbn)`: a record for every 200 reply, `None` for any other status. */
  function BrasilRecord(reply: Http<BrasilBook>): (r: Result<Option<Record>, FetchError>)
    ensures r.Ok? && r.value.Some? ==> r.value.value.fonte == Text("BrasilAPI") && r.value.value.capa2 == Null
  {
    match reply
    case Unreachable => Err(RequestFailed)
    case Reply(status, body) =>
      if status != 200 then Ok(None)
      else if body.None? then Err(NotJson)
      else
        var b := body.value;
        Ok(Some(Record(Text("BrasilAPI"), Get(b.title), Text(Join(Names(b.authors))), Get(b.publisher),
                       Get(b.year), Get(b.pages), Null)))
  }

  /** Open Library yields a record exactly for a 200 JSON reply whose entry for the ISBN is present and non-empty. */
  lemma OpenLibraryCounts(isbn: string, reply: Http<map<string, OpenLibraryEntry>>)
    ensures (OpenLibraryRecord(isbn, reply).Ok? && OpenLibraryRecord(isbn, reply).value.Some?) <==>
              && reply.Reply? && reply.status == 200 && reply.body.Some?
              && "ISBN:" + isbn in reply.body.value && NonEmpty(reply.body.value["ISBN:" + isbn])
    ensures OpenLibraryRecord(isbn, reply).Err? <==> reply.Unreachable? || (reply.status == 200 && reply.body.None?)
  {
  }

  /** BrasilAPI yields a record for every 200 JSON reply, whatever it holds. */
  lemma BrasilCounts(reply: Http<BrasilBook>)
    ensures (BrasilRecord(reply).Ok? && BrasilRecord(reply).value.Some?) <==>
              reply.Reply? && reply.status == 200 && reply.body.Some?
    ensures BrasilRecord(reply).Err? <==> reply.Unreachable? || (reply.status == 200 && reply.body.None?)
  {
  }

  /**
    The authors (and Open Library's publishers) are joined with `", "`, so a
    non-empty list of names without commas can be read back from the cell.
   */
  lemma NamesReadBack(isbn: string, entry: OpenLibraryEntry, book: BrasilBook, status: int)
    requires NonEmpty(entry)
    requires entry.authors.Some? && |entry.authors.value| >= 1
    requires forall k :: 0 <= k < |entry.authors.value| ==> ',' !in entry.authors.value[k]
    requires book.authors == entry.authors
    ensures var ol := OpenLibraryRecord(isbn, Reply(200, Some(map["ISBN:" + isbn := entry])));
            ol.Ok? && ol.value.Some? && SplitAtSeparator(ol.value.value.autores.s) == entry.authors.value
    ensures var br := BrasilRecord(Reply(200, Some(book)));
            br.Ok? && br.value.Some? && SplitAtSeparator(br.value.value.autores.s) == entry.authors.value
  {
    JoinSplitRoundTrip(entry.authors.value);
  }

  // ---------------------------------------------------------------------
  // Provider fallback (`buscar_dados`)
  // ---------------------------------------------------------------------

  /** The record with every field `None`, returned when no provider has the book. */
  function EmptyRecord(): (r: Record)
    ensures RecordRow(r).Values == {Null}
  {
    var r := Record(Null, Null, Null, Null, Null, Null, Null);
    assert RecordRow(r)["fonte"] == Null;
    r
  }

  datatype Provider = OpenLibrary | Brasil

  /** The providers in the order they are tried. */
  const Providers: seq<Provider> := [OpenLibrary, Brasil]

  /** One provider's answer for the ISBN, given the replies each would send. */
  function Ask(p: Provider, isbn: string, ol: string -> Http<map<string, OpenLibraryEntry>>, br: string -> Http<BrasilBook>): Result<Option<Record>, FetchError> {
    match p
    case OpenLibrary => OpenLibraryRecord(isbn, ol(isbn))
    case Brasil => BrasilRecord(br(isbn))
  }

  /**
    What `buscar_dados(isbn)` returns: the first provider record that is
    not `None`, the all-`None` record when both give `None`, or the error
    of the first provider that raised.
   */
  function Resolved(isbn: string, ol: string -> Http<map<string, OpenLibraryEntry>>, br: string -> Http<BrasilBook>): (r: Result<Record, FetchError>)
    ensures r.Ok? ==> r.value.fonte in {Text("Open Library"), Text("BrasilAPI"), Null}
  {
    match Ask(OpenLibrary, isbn, ol, br)
    case Err(e) => Err(e)
    case Ok(Some(rec)) => Ok(rec)
    case Ok(None) =>
      match Ask(Brasil, isbn, ol, br)
      case Err(e) => Err(e)
      case Ok(Some(rec)) => Ok(rec)
      case Ok(None) => Ok(EmptyRecord())
  }

  /** `buscar_dados` as a function of the ISBN alone, for the given provider replies. */
  function Resolver(ol: string -> Http<map<string, OpenLibraryEntry>>, br: string -> Http<BrasilBook>): string -> Result<Record, FetchError> {
    isbn => Resolved(isbn, ol, br)
  }

  /**
    `buscar_dados(isbn)`: asks the providers in order and returns at the
    first record; `asked` is how many providers were asked.
   */
  method Resolve(isbn: string, ol: string -> Http<map<string, OpenLibraryEntry>>, br: string -> Http<BrasilBook>)
    returns (r: Result<Record, FetchError>, asked: nat)
    ensures r == Resolved(isbn, ol, br)
    ensures asked == (if Ask(OpenLibrary, isbn, ol, br) == Ok(None) then 2 else 1)
  {
    assert Providers[0] == OpenLibrary && Providers[1] == Brasil;
    var i := 0;
    while i < |Providers|
      invariant 0 <= i <= |Providers|
      invariant forall k :: 0 <= k < i ==> Ask(Providers[k], isbn, ol, br) == Ok(None)
    {
      var resultado := Ask(Providers[i], isbn, ol, br);
      if resultado.Err? {
        return Err(resultado.error), i + 1;
      }
      if resultado.value.Some? {
        return Ok(resultado.value.value), i + 1;
      }
      i := i + 1;
    }
    r, asked := Ok(EmptyRecord()), 2;
  }

  /**
    Open Library's record wins whenever there is one, and BrasilAPI is then
    not asked; BrasilAPI's record is used only when Open Library gave
    `None`; the all-`None` record only when both did.
   */
  lemma ResolvedOrder(isbn: string, ol: string -> Http<map<string, OpenLibraryEntry>>, br: string -> Http<BrasilBook>)
    ensures OpenLibraryRecord(isbn, ol(isbn)).Ok? && OpenLibraryRecord(isbn, ol(isbn)).value.Some? ==>
              Resolved(isbn, ol, br) == Ok(OpenLibraryRecord(isbn, ol(isbn)).value.value)
    ensures OpenLibraryRecord(isbn, ol(isbn)) == Ok(None) ==>
              match BrasilRecord(br(isbn))
              case Ok(Some(rec)) => Resolved(isbn, ol, br) == Ok(rec)
              case Ok(None) => Resolved(isbn, ol, br) == Ok(EmptyRecord())
              case Err(e) => Resolved(isbn, ol, br) == Err(e)
  {
  }

  // ---------------------------------------------------------------------
  // Spreadsheet import (`processar_planilha`)
  // ---------------------------------------------------------------------

  const IsbnColumn := "isbn"

  /** `str(linha["isbn"]).strip()`: the ISBN as text, surrounding whitespace removed. */
  function IsbnKey(row: Row): (isbn: string)
    requires IsbnColumn in row
    ensures isbn == [] || (!IsSpace(isbn[0]) && !IsSpace(isbn[|isbn| - 1]))
    ensures |isbn| <= |CellText(row[IsbnColumn])|
  {
    Strip(CellText(row[IsbnColumn]))
  }

  /** `set(df_existente["isbn"].astype(str))`: the existing ISBNs as text, not stripped. */
  function KnownIsbns(existing: Table): (known: set<string>)
    requires WellFormed(existing) && IsbnColumn in existing.columns
    ensures forall k :: 0 <= k < |existing.rows| ==> CellText(existing.rows[k][IsbnColumn]) in known
    ensures forall x :: x in known ==> exists k :: 0 <= k < |existing.rows| && CellText(existing.rows[k][IsbnColumn]) == x
  {
    set k | 0 <= k < |existing.rows| :: CellText(existing.rows[k][IsbnColumn])
  }

  /** A sheet row together with its stripped ISBN. */
  datatype SheetRow = SheetRow(row: Row, isbn: string)

  function SheetRows(rows: seq<Row>): (r: seq<SheetRow>)
    requires forall k :: 0 <= k < |rows| ==> IsbnColumn in rows[k]
    ensures |r| == |rows|
    ensures forall k :: 0 <= k < |rows| ==> r[k] == SheetRow(rows[k], IsbnKey(rows[k]))
  {
    seq(|rows|, k requires 0 <= k < |rows| => SheetRow(rows[k], IsbnKey(rows[k])))
  }

  /** The sheet rows whose ISBN is not among the known ones, in sheet order. */
  function Unknown(items: seq<SheetRow>, known: set<string>): (r: seq<SheetRow>)
    ensures |r| <= |items|
  {
    if items == [] then []
    else
      var n := |items| - 1;
      Unknown(items[..n], known) + (if items[n].isbn in known then [] else [items[n]])
  }

  /** Only rows of the sheet with an unknown ISBN are kept. */
  lemma {:induction false} UnknownSound(items: seq<SheetRow>, known: set<string>)
    ensures forall x :: x in Unknown(items, known) ==> x in items && x.isbn !in known
  {
    if items != [] {
      var n := |items| - 1;
      UnknownSound(items[..n], known);
      assert forall x :: x in items[..n] ==> x in items;
    }
  }

  /** Every row with an unknown ISBN is kept. */
  lemma {:induction false} UnknownComplete(items: seq<SheetRow>, known: set<string>)
    ensures forall k :: 0 <= k < |items| && items[k].isbn !in known ==> items[k] in Unknown(items, known)
  {
    if items != [] {
      var n := |items| - 1;
      UnknownComplete(items[..n], known);
      var r := Unknown(items, known);
      assert Unknown(items[..n], known) <= r;
      forall k | 0 <= k < |items| && items[k].isbn !in known ensures items[k] in r {
        if k < n {
          assert items[..n][k] == items[k];
          assert items[k] in Unknown(items[..n], known);
        } else {
          assert r[|r| - 1] == items[k];
        }
      }
    }
  }

  /**
    With none of their ISBNs known, all rows are kept in order: the set of
    known ISBNs is not extended during the pass, so an ISBN repeated in the
    sheet is looked up and added once per occurrence.
   */
  lemma {:induction false} UnknownKeepsAll(items: seq<SheetRow>, known: set<string>)
    requires forall k :: 0 <= k < |items| ==> items[k].isbn !in known
    ensures Unknown(items, known) == items
  {
    if items != [] {
      var n := |items| - 1;
      var front := items[..n];
      UnknownKeepsAll(front, known);
      assert front + [items[n]] == items;
    }
  }

  /** Filtering a sheet in two pieces gives the two filtered pieces in order. */
  lemma {:induction false} UnknownAppend(a: seq<SheetRow>, b: seq<SheetRow>, known: set<string>)
    ensures Unknown(a + b, known) == Unknown(a, known) + Unknown(b, known)
  {
    if b == [] {
      assert a + b == a;
    } else {
      var n := |b| - 1;
      var front, last := b[..n], b[n];
      var tail := if last.isbn in known then [] else [last];
      SnocSplit(b);
      AppendAssoc(a, front, [last]);
      calc {
        Unknown(a + b, known);
        { UnknownSnoc(a + front, last, known); }
        Unknown(a + front, known) + tail;
        { UnknownAppend(a, front, known); }
        (Unknown(a, known) + Unknown(front, known)) + tail;
        { AppendAssoc(Unknown(a, known), Unknown(front, known), tail); }
        Unknown(a, known) + (Unknown(front, known) + tail);
        { UnknownSnoc(front, last, known); }
        Unknown(a, known) + Unknown(b, known);
      }
    }
  }

  /** One more sheet row is kept at the end exactly when its ISBN is unknown. */
  lemma UnknownSnoc(items: seq<SheetRow>, item: SheetRow, known: set<string>)
    ensures Unknown(items + [item], known) == Unknown(items, known) + (if item.isbn in known then [] else [item])
  {
    SnocFront(items, item);
  }

  /** A non-empty sequence is its front followed by its last element. */
  lemma SnocSplit<T>(s: seq<T>)
    requires s != []
    ensures s == s[..|s| - 1] + [s[|s| - 1]]
  {
  }

  lemma AppendAssoc<T>(a: seq<T>, b: seq<T>, c: seq<T>)
    ensures (a + b) + c == a + (b + c)
  {
  }

  /**
    `pd.concat([linha, pd.Series(dados)])`: the sheet row followed by the
    record's fields. Taken as one mapping, a label the row shares with the
    record holds the record's value; the import rejects such a sheet before
    anything is written (`Imported`).
   */
  function WithRecord(row: Row, rec: Record): (r: Row)
    ensures r.Keys == row.Keys + RecordFields
    ensures forall c :: c in RecordFields ==> r[c] == RecordRow(rec)[c]
    ensures forall c :: c in row && c !in RecordFields ==> r[c] == row[c]
  {
    row + RecordRow(rec)
  }

  /** The rows to append: each pending row with the record for its ISBN, or the first lookup error. */
  function LookUpAll(pending: seq<SheetRow>, resolve: string -> Result<Record, FetchError>): (r: Result<seq<Row>, FetchError>)
    ensures r.Ok? ==> |r.value| == |pending|
  {
    if pending == [] then Ok([])
    else
      var n := |pending| - 1;
      match LookUpAll(pending[..n], resolve)
      case Err(e) => Err(e)
      case Ok(done) =>
        match resolve(pending[n].isbn)
        case Err(e) => Err(e)
        case Ok(rec) => Ok(done + [WithRecord(pending[n].row, rec)])
  }

  /** The lookups succeed exactly when every pending ISBN resolves. */
  lemma {:induction false} LookUpAllOk(pending: seq<SheetRow>, resolve: string -> Result<Record, FetchError>)
    ensures LookUpAll(pending, resolve).Ok? <==> forall k :: 0 <= k < |pending| ==> resolve(pending[k].isbn).Ok?
  {
    if pending != [] {
      var n := |pending| - 1;
      var front := pending[..n];
      LookUpAllOk(front, resolve);
      LookUpAllLastOk(pending, resolve);
      assert (forall k :: 0 <= k < |front| ==> resolve(front[k].isbn).Ok?) && resolve(pending[n].isbn).Ok?
         <==> (forall k :: 0 <= k < |pending| ==> resolve(pending[k].isbn).Ok?) by {
        forall k | 0 <= k < n ensures front[k] == pending[k] {
          FrontIndex(pending, k);
        }
      }
    }
  }

  /** A pass succeeds exactly when the pass over all rows but the last does and the last row resolves. */
  lemma LookUpAllLastOk(pending: seq<SheetRow>, resolve: string -> Result<Record, FetchError>)
    requires pending != []
    ensures LookUpAll(pending, resolve).Ok?
        <==> LookUpAll(pending[..|pending| - 1], resolve).Ok? && resolve(pending[|pending| - 1].isbn).Ok?
  {
  }

  /** On success, row `k` to append is pending row `k` with the record for its own ISBN. */
  lemma LookUpAllRows(pending: seq<SheetRow>, resolve: string -> Result<Record, FetchError>)
    requires LookUpAll(pending, resolve).Ok?
    ensures forall k :: 0 <= k < |pending| ==>
              resolve(pending[k].isbn).Ok? && LookUpAll(pending, resolve).value[k] == WithRecord(pending[k].row, resolve(pending[k].isbn).value)
  {
    forall k | 0 <= k < |pending|
      ensures resolve(pending[k].isbn).Ok? && LookUpAll(pending, resolve).value[k] == WithRecord(pending[k].row, resolve(pending[k].isbn).value)
    {
      LookUpAllRow(pending, resolve, k);
    }
  }

  /** `LookUpAllRows` for one index. */
  lemma {:induction false} LookUpAllRow(pending: seq<SheetRow>, resolve: string -> Result<Record, FetchError>, k: nat)
    requires LookUpAll(pending, resolve).Ok? && k < |pending|
    ensures resolve(pending[k].isbn).Ok?
    ensures LookUpAll(pending, resolve).value[k] == WithRecord(pending[k].row, resolve(pending[k].isbn).value)
  {
    var n := |pending| - 1;
    LookUpAllLast(pending, resolve);
    if k < n {
      LookUpAllRow(pending[..n], resolve, k);
      FrontIndex(pending, k);
      FrontIndex(LookUpAll(pending, resolve).value, k);
    }
  }

  /** Dropping the last element keeps the elements before it. */
  lemma FrontIndex<T>(s: seq<T>, k: nat)
    requires k < |s| - 1
    ensures s[..|s| - 1][k] == s[k]
  {
  }

  /** A successful pass is the pass over all rows but the last, then the last row with its record. */
  lemma LookUpAllLast(pending: seq<SheetRow>, resolve: string -> Result<Record, FetchError>)
    requires LookUpAll(pending, resolve).Ok? && pending != []
    ensures var n := |pending| - 1;
            && LookUpAll(pending[..n], resolve).Ok? && resolve(pending[n].isbn).Ok?
            && LookUpAll(pending, resolve).value
               == LookUpAll(pending[..n], resolve).value + [WithRecord(pending[n].row, resolve(pending[n].isbn).value)]
  {
  }

  /** Once a lookup has failed, looking up more rows does not change the error. */
  lemma {:induction false} LookUpAllStops(p: seq<SheetRow>, q: seq<SheetRow>, resolve: string -> Result<Record, FetchError>)
    requires LookUpAll(p, resolve).Err?
    ensures LookUpAll(p + q, resolve) == LookUpAll(p, resolve)
  {
    if q == [] {
      assert p + q == p;
    } else {
      var n := |q| - 1;
      assert (p + q)[..|p| + n] == p + q[..n];
      LookUpAllStops(p, q[..n], resolve);
    }
  }

  /** What one more sheet row does to the rows collected so far: nothing when its ISBN is known, else its lookup appends a row or fails. */
  function Step(item: SheetRow, known: set<string>, resolve: string -> Result<Record, FetchError>, done: seq<Row>): Result<seq<Row>, FetchError> {
    if item.isbn in known then Ok(done)
    else match resolve(item.isbn)
      case Err(e) => Err(e)
      case Ok(rec) => Ok(done + [WithRecord(item.row, rec)])
  }

  /** Taking one more sheet row into the pass is one `Step`. */
  lemma {:induction false} ImportStep(items: seq<SheetRow>, i: nat, known: set<string>, resolve: string -> Result<Record, FetchError>, done: seq<Row>)
    requires i < |items|
    requires LookUpAll(Unknown(items[..i], known), resolve) == Ok(done)
    ensures LookUpAll(Unknown(items[..i + 1], known), resolve) == Step(items[i], known, resolve, done)
  {
    TakeOneMore(items, i);
    UnknownSnoc(items[..i], items[i], known);
    var u := Unknown(items[..i], known);
    if items[i].isbn !in known {
      LookUpAllSnoc(u, items[i], resolve, done);
    } else {
      SnocFront(u, items[i]);
    }
  }

  /** Looking up one more pending row: its lookup error, or its row appended. */
  lemma LookUpAllSnoc(pending: seq<SheetRow>, item: SheetRow, resolve: string -> Result<Record, FetchError>, done: seq<Row>)
    requires LookUpAll(pending, resolve) == Ok(done)
    ensures LookUpAll(pending + [item], resolve)
         == match resolve(item.isbn) case Err(e) => Err(e) case Ok(rec) => Ok(done + [WithRecord(item.row, rec)])
  {
    SnocFront(pending, item);
  }

  /** The prefix one element longer, cut back, is the shorter prefix. */
  lemma TakeOneMore<T>(s: seq<T>, i: nat)
    requires i < |s|
    ensures s[..i + 1][..i] == s[..i] && s[..i + 1][i] == s[i] && |s[..i + 1]| == i + 1
    ensures s[..i + 1] == s[..i] + [s[i]]
  {
  }

  /** Appending one element, or nothing, and cutting back gives the original. */
  lemma SnocFront<T>(a: seq<T>, x: T)
    ensures (a + [x])[..|a|] == a && (a + [x])[|a|] == x && a + [] == a
  {
  }

  /** The body of the import loop for one row: skip a known ISBN, otherwise look it up and collect the row. */
  method ImportRow(item: SheetRow, known: set<string>, ol: string -> Http<map<string, OpenLibraryEntry>>, br: string -> Http<BrasilBook>, done: seq<Row>)
    returns (next: Result<seq<Row>, FetchError>)
    ensures next == Step(item, known, Resolver(ol, br), done)
  {
    if item.isbn in known {
      return Ok(done);
    }
    var dados, _ := Resolve(item.isbn, ol, br);
    if dados.Err? {
      return Err(dados.error);
    }
    next := Ok(done + [WithRecord(item.row, dados.value)]);
  }

  /** A failed lookup ends the import with that error, whatever rows follow. */
  lemma {:induction false} ImportStops(items: seq<SheetRow>, i: nat, known: set<string>, resolve: string -> Result<Record, FetchError>)
    requires i < |items|
    requires LookUpAll(Unknown(items[..i + 1], known), resolve).Err?
    ensures LookUpAll(Unknown(items, known), resolve) == LookUpAll(Unknown(items[..i + 1], known), resolve)
  {
    assert items == items[..i + 1] + items[i + 1..];
    UnknownAppend(items[..i + 1], items[i + 1..], known);
    LookUpAllStops(Unknown(items[..i + 1], known), Unknown(items[i + 1..], known), resolve);
  }

  /** The rows to append have the sheet's columns and the seven record fields. */
  lemma {:induction false} AddedRowsShape(sheet: Table, known: set<string>, resolve: string -> Result<Record, FetchError>)
    requires WellFormed(sheet) && IsbnColumn in sheet.columns
    requires LookUpAll(Unknown(SheetRows(sheet.rows), known), resolve).Ok?
    ensures WellFormed(Table(sheet.columns + RecordFields, LookUpAll(Unknown(SheetRows(sheet.rows), known), resolve).value))
  {
    var items := SheetRows(sheet.rows);
    var pending := Unknown(items, known);
    UnknownSound(items, known);
    LookUpAllRows(pending, resolve);
    forall k | 0 <= k < |pending| ensures pending[k].row.Keys == sheet.columns {
      assert pending[k] in items;
    }
  }

  /** The mark printed after row `n` (counting from 1): `n` itself when it is a multiple of 20 or the last row. */
  function Mark(n: nat, total: nat): seq<nat> {
    if n % 20 == 0 || n == total then [n] else []
  }

  /** The progress marks printed for rows `1..i`. */
  function ProgressMarks(i: nat, total: nat): (r: seq<nat>)
    decreases i
  {
    if i == 0 then [] else ProgressMarks(i - 1, total) + Mark(i, total)
  }

  /** A mark is printed exactly for the row numbers that are multiples of 20 or the last one, in increasing order. */
  lemma {:induction false} ProgressMarksExact(i: nat, total: nat)
    ensures forall n :: n in ProgressMarks(i, total) <==> 1 <= n <= i && (n % 20 == 0 || n == total)
    ensures forall a, b :: 0 <= a < b < |ProgressMarks(i, total)| ==> ProgressMarks(i, total)[a] < ProgressMarks(i, total)[b]
  {
    if i > 0 {
      ProgressMarksExact(i - 1, total);
      var prev := ProgressMarks(i - 1, total);
      forall a | 0 <= a < |prev| ensures prev[a] < i {
        assert prev[a] in prev;
      }
    }
  }

  /**
    Why the import raises: no `isbn` column in the sheet, none in the
    existing file, a failed lookup, or sheet columns named like record
    fields, which give every collected row those labels twice so that
    `pd.DataFrame(novos_registros)` cannot line the rows up.
   */
  datatype ImportError = NoIsbnColumn | ExistingWithoutIsbn | LookupFailed(reason: FetchError) | DuplicateLabels(names: set<string>)

  /** What the import leaves behind: the table written (none when nothing is new), and the progress marks printed. */
  datatype ImportResult = ImportResult(written: Option<Table>, progress: seq<nat>)

  /**
    What `processar_planilha` does: a `ValueError` when the sheet has no
    `isbn` column, whatever else there is; a `KeyError` when the existing
    file has none; otherwise the pending rows are looked up in order and, when
    there is at least one, the existing rows (or none, without a file)
    followed by them are written, unless the sheet has a column named like
    a record field, which makes building the new rows' table fail.
   */
  function Imported(sheet: Table, existing: Option<Table>, ol: string -> Http<map<string, OpenLibraryEntry>>, br: string -> Http<BrasilBook>)
    : (r: Result<ImportResult, ImportError>)
    requires WellFormed(sheet)
    requires existing.Some? ==> WellFormed(existing.value)
    ensures IsbnColumn !in sheet.columns ==> r == Err(NoIsbnColumn)
  {
    if IsbnColumn !in sheet.columns then Err(NoIsbnColumn)
    else if existing.Some? && IsbnColumn !in existing.value.columns then Err(ExistingWithoutIsbn)
    else
      var known := Known(existing);
      var resolve := Resolver(ol, br);
      match LookUpAll(Unknown(SheetRows(sheet.rows), known), resolve)
      case Err(e) => Err(LookupFailed(e))
      case Ok(added) =>
        if added != [] && sheet.columns * RecordFields != {} then Err(DuplicateLabels(sheet.columns * RecordFields))
        else
          AddedRowsShape(sheet, known, resolve);
          var base := Base(existing);
          var written := if added == [] then None else Some(Concat(base, Table(sheet.columns + RecordFields, added)));
          Ok(ImportResult(written, ProgressMarks(|sheet.rows|, |sheet.rows|)))
  }

  /**
    The loop of `processar_planilha` over the sheet rows, in order: a row
    whose ISBN is known is skipped, any other is looked up and collected; a
    progress mark follows every row; the first failed lookup ends the pass.
   */
  method CollectRows(items: seq<SheetRow>, known: set<string>, ol: string -> Http<map<string, OpenLibraryEntry>>, br: string -> Http<BrasilBook>)
    returns (r: Result<seq<Row>, FetchError>, progress: seq<nat>)
    ensures r == LookUpAll(Unknown(items, known), Resolver(ol, br))
    ensures r.Ok? ==> progress == ProgressMarks(|items|, |items|)
  {
    ghost var resolve := Resolver(ol, br);
    var total := |items|;
    var novos: seq<Row> := [];
    progress := [];
    var i := 0;
    while i < total
      invariant 0 <= i <= total
      invariant LookUpAll(Unknown(items[..i], known), resolve) == Ok(novos)
      invariant progress == ProgressMarks(i, total)
    {
      ImportStep(items, i, known, resolve, novos);
      var next := ImportRow(items[i], known, ol, br, novos);
      if next.Err? {
        ImportStops(items, i, known, resolve);
        return next, progress;
      }
      novos := next.value;
      assert ProgressMarks(i + 1, total) == ProgressMarks(i, total) + Mark(i + 1, total);
      progress := progress + Mark(i + 1, total);
      i := i + 1;
    }
    assert items[..total] == items;
    r := Ok(novos);
  }

  /**
    `processar_planilha`: checks the sheet's `isbn` column first, reads the
    known ISBNs, runs the loop over the rows, and writes the result only when
    something was collected.
   */
  method ImportSheet(sheet: Table, existing: Option<Table>, ol: string -> Http<map<string, OpenLibraryEntry>>, br: string -> Http<BrasilBook>)
    returns (r: Result<ImportResult, ImportError>)
    requires WellFormed(sheet)
    requires existing.Some? ==> WellFormed(existing.value)
    ensures r == Imported(sheet, existing, ol, br)
  {
    if IsbnColumn !in sheet.columns {
      return Err(NoIsbnColumn);
    }
    var known: set<string> := {};
    var base := Table({}, []);
    if existing.Some? {
      if IsbnColumn !in existing.value.columns {
        return Err(ExistingWithoutIsbn);
      }
      base := existing.value;
      known := KnownIsbns(existing.value);
    }
    var items := seq(|sheet.rows|, k requires 0 <= k < |sheet.rows| => SheetRow(sheet.rows[k], IsbnKey(sheet.rows[k])));
    assert items == SheetRows(sheet.rows);
    var collected, progress := CollectRows(items, known, ol, br);
    if collected.Err? {
      return Err(LookupFailed(collected.error));
    }
    var novos := collected.value;
    var written: Option<Table> := None;
    if novos != [] {
      var shared := sheet.columns * RecordFields;
      if shared != {} {
        return Err(DuplicateLabels(shared));
      }
      AddedRowsShape(sheet, known, Resolver(ol, br));
      written := Some(Concat(base, Table(sheet.columns + RecordFields, novos)));
    }
    r := Ok(ImportResult(written, progress));
  }

  /** The ISBNs already in the output file, or none without a file. */
  function Known(existing: Option<Table>): set<string>
    requires existing.Some? ==> WellFormed(existing.value) && IsbnColumn in existing.value.columns
  {
    if existing.Some? then KnownIsbns(existing.value) else {}
  }

  /** The table the new rows are appended to: the existing file, or an empty one (`pd.DataFrame()`). */
  function Base(existing: Option<Table>): (b: Table)
    requires existing.Some? ==> WellFormed(existing.value)
    ensures WellFormed(b)
  {
    if existing.Some? then existing.value else Table({}, [])
  }

  /**
    A sheet with an `isbn` column (and an existing file with one) imports
    successfully exactly when every pending ISBN resolves and, when some ISBN
    is pending, no sheet column is named like a record field; then something
    is written exactly when some ISBN is pending.
   */
  lemma {:induction false} ImportedOutcome(sheet: Table, existing: Option<Table>, ol: string -> Http<map<string, OpenLibraryEntry>>, br: string -> Http<BrasilBook>, pending: seq<SheetRow>)
    requires WellFormed(sheet) && IsbnColumn in sheet.columns
    requires existing.Some? ==> WellFormed(existing.value) && IsbnColumn in existing.value.columns
    requires pending == Unknown(SheetRows(sheet.rows), Known(existing))
    ensures Imported(sheet, existing, ol, br).Ok? <==>
              (forall k :: 0 <= k < |pending| ==> Resolved(pending[k].isbn, ol, br).Ok?)
              && (pending == [] || sheet.columns * RecordFields == {})
    ensures Imported(sheet, existing, ol, br).Ok? ==> (Imported(sheet, existing, ol, br).value.written.None? <==> pending == [])
  {
    LookUpAllOk(pending, Resolver(ol, br));
  }

  /**
    What a successful import writes: the existing rows first, each keeping its
    cells (the added columns are NaN there), then each pending row in sheet
    order, keeping the cells of the sheet the record does not name and
    holding the record found for its own ISBN in the seven record fields.
   */
  lemma {:induction false} ImportedRows(sheet: Table, existing: Option<Table>, ol: string -> Http<map<string, OpenLibraryEntry>>, br: string -> Http<BrasilBook>, pending: seq<SheetRow>, added: seq<Row>)
    requires WellFormed(sheet) && IsbnColumn in sheet.columns
    requires existing.Some? ==> WellFormed(existing.value) && IsbnColumn in existing.value.columns
    requires pending == Unknown(SheetRows(sheet.rows), Known(existing))
    requires LookUpAll(pending, Resolver(ol, br)) == Ok(added)
    ensures |added| == |pending|
    ensures forall k :: 0 <= k < |pending| ==>
              Resolved(pending[k].isbn, ol, br).Ok? && added[k] == WithRecord(pending[k].row, Resolved(pending[k].isbn, ol, br).value)
    ensures WellFormed(Table(sheet.columns + RecordFields, added))
    ensures added != [] && sheet.columns * RecordFields != {} ==>
              Imported(sheet, existing, ol, br) == Err(DuplicateLabels(sheet.columns * RecordFields))
    ensures added == [] || sheet.columns * RecordFields == {} ==>
              Imported(sheet, existing, ol, br) ==
              Ok(ImportResult(if added == [] then None else Some(Concat(Base(existing), Table(sheet.columns + RecordFields, added))),
                              ProgressMarks(|sheet.rows|, |sheet.rows|)))
  {
    var resolve := Resolver(ol, br);
    LookUpAllRows(pending, resolve);
    AddedRowsShape(sheet, Known(existing), resolve);
    assert forall k :: 0 <= k < |pending| ==> resolve(pending[k].isbn) == Resolved(pending[k].isbn, ol, br);
  }

  /** Concatenating rows built from the pending rows and their records onto `b` keeps both parts' cells. */
  lemma {:induction false} AppendedRows(b: Table, columns: set<string>, pending: seq<SheetRow>, added: seq<Row>, ol: string -> Http<map<string, OpenLibraryEntry>>, br: string -> Http<BrasilBook>)
    requires WellFormed(b) && WellFormed(Table(columns, added))
    requires |added| == |pending|
    requires forall k :: 0 <= k < |pending| ==> Resolved(pending[k].isbn, ol, br).Ok?
    requires forall k :: 0 <= k < |pending| ==> added[k] == WithRecord(pending[k].row, Resolved(pending[k].isbn, ol, br).value)
    ensures var t := Concat(b, Table(columns, added));
            var base := b.rows;
            && WellFormed(t)
            && t.columns == b.columns + columns
            && |t.rows| == |base| + |pending|
            && (forall k, c :: 0 <= k < |base| && c in base[k] ==> c in t.rows[k] && t.rows[k][c] == base[k][c])
            && (forall k, c :: 0 <= k < |pending| && c in pending[k].row && c !in RecordFields ==>
                  c in t.rows[|base| + k] && t.rows[|base| + k][c] == pending[k].row[c])
            && (forall k, c :: 0 <= k < |pending| && c in RecordFields ==>
                  && Resolved(pending[k].isbn, ol, br).Ok?
                  && c in t.rows[|base| + k]
                  && t.rows[|base| + k][c] == RecordRow(Resolved(pending[k].isbn, ol, br).value)[c])
  {
    var t := Concat(b, Table(columns, added));
    forall k | 0 <= k < |pending|
      ensures forall c :: c in added[k] ==> c in t.rows[|b.rows| + k] && t.rows[|b.rows| + k][c] == added[k][c]
    {
      assert t.rows[|b.rows| + k] == Pad(added[k], t.columns);
    }
    forall k | 0 <= k < |b.rows|
      ensures forall c :: c in b.rows[k] ==> c in t.rows[k] && t.rows[k][c] == b.rows[k][c]
    {
      assert t.rows[k] == Pad(b.rows[k], t.columns);
    }
  }

  /** Without an existing file, what is written is exactly the looked-up rows. */
  lemma ImportedWithoutFile(sheet: Table, ol: string -> Http<map<string, OpenLibraryEntry>>, br: string -> Http<BrasilBook>)
    requires WellFormed(sheet)
    requires Imported(sheet, None, ol, br).Ok?
    requires Imported(sheet, None, ol, br).value.written.Some?
    ensures var t := Imported(sheet, None, ol, br).value.written.value;
            t.columns == sheet.columns + RecordFields
            && t.rows == LookUpAll(Unknown(SheetRows(sheet.rows), {}), Resolver(ol, br)).value
  {
    var resolve := Resolver(ol, br);
    AddedRowsShape(sheet, {}, resolve);
    ConcatOntoEmpty(Table(sheet.columns + RecordFields, LookUpAll(Unknown(SheetRows(sheet.rows), {}), resolve).value));
  }
}
