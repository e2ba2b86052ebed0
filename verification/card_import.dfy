/**
  The Excel card import of the catalogue app (`test.py`, the "Import File"
  tab): rows without a collection code or card number are dropped, the key
  is normalised, rows with the same (collection, number) are merged into one
  with summed quantities, and the card details fetched for each key are
  attached as extra columns.

  The grouped table is modelled as a map from the key to the merged row:
  the key order pandas sorts the groups into is not modelled.
 */
module CardImport {
  import opened Wrappers
  import opened Text
  import opened Tables
  import opened PriceText

  const Colecao := "colecao"
  const Numero := "numero"
  const Padrao := "padrao"
  const Foil := "foil"

  // ---------------------------------------------------------------------
  // Preparing the sheet
  // ---------------------------------------------------------------------

  /** `dropna(subset=["colecao", "numero"])` keeps a row exactly when both key cells are present. */
  predicate HasKey(row: Row) {
    Colecao in row && Numero in row && !row[Colecao].Null? && !row[Numero].Null?
  }

  /** The rows `dropna` keeps, in order. */
  function Kept(rows: seq<Row>): (r: seq<Row>)
    ensures |r| <= |rows|
  {
    if rows == [] then []
    else
      var n := |rows| - 1;
      Kept(rows[..n]) + (if HasKey(rows[n]) then [rows[n]] else [])
  }

  /** Only sheet rows with both key cells are kept. */
  lemma {:induction false} KeptSound(rows: seq<Row>)
    ensures forall x :: x in Kept(rows) ==> x in rows && HasKey(x)
  {
    if rows != [] {
      var n := |rows| - 1;
      KeptSound(rows[..n]);
      assert forall x :: x in rows[..n] ==> x in rows;
    }
  }

  /** Every sheet row with both key cells is kept. */
  lemma {:induction false} KeptComplete(rows: seq<Row>)
    ensures forall k :: 0 <= k < |rows| && HasKey(rows[k]) ==> rows[k] in Kept(rows)
  {
    if rows != [] {
      var n := |rows| - 1;
      KeptComplete(rows[..n]);
      forall k | 0 <= k < |rows| && HasKey(rows[k]) ensures rows[k] in Kept(rows) {
        if k < n {
          assert rows[..n][k] == rows[k];
        }
      }
    }
  }

  /**
    One kept row after the assignments: `colecao` as lower-case text,
    `numero` as text, and `padrao` 1 and `foil` 0 when the sheet has no such
    column (`df.get(name, default)`).
   */
  function NormalizeRow(row: Row): (r: Row)
    requires Colecao in row && Numero in row
    ensures r.Keys == row.Keys + {Padrao, Foil}
  {
    var keyed := row[Colecao := Text(Lower(CellText(row[Colecao])))][Numero := Text(CellText(row[Numero]))];
    var withPadrao := if Padrao in keyed then keyed else keyed[Padrao := Int(1)];
    if Foil in withPadrao then withPadrao else withPadrao[Foil := Int(0)]
  }

  /** `dropna` names the key columns the sheet lacks (`KeyError`). */
  datatype SheetError = MissingColumns(names: set<string>)

  /** The sheet after `dropna` and the four column assignments. */
  function Prepared(sheet: Table): (r: Result<Table, SheetError>)
    requires WellFormed(sheet)
    ensures r.Err? <==> !({Colecao, Numero} <= sheet.columns)
    ensures r.Err? ==> r.error.names == {Colecao, Numero} - sheet.columns
    ensures r.Ok? ==> WellFormed(r.value) && r.value.columns == sheet.columns + {Padrao, Foil}
  {
    if !({Colecao, Numero} <= sheet.columns) then Err(MissingColumns({Colecao, Numero} - sheet.columns))
    else
      var kept := Kept(sheet.rows);
      KeptSound(sheet.rows);
      assert forall k :: 0 <= k < |kept| ==> kept[k] in sheet.rows;
      Ok(Table(sheet.columns + {Padrao, Foil}, seq(|kept|, k requires 0 <= k < |kept| => NormalizeRow(kept[k]))))
  }

  /**
    Each prepared row is a kept sheet row with its key normalised and the
    missing quantity columns defaulted; every other cell is unchanged.
   */
  lemma PreparedRows(sheet: Table)
    requires WellFormed(sheet) && Prepared(sheet).Ok?
    ensures var t := Prepared(sheet).value;
            var kept := Kept(sheet.rows);
            && |t.rows| == |kept|
            && forall k :: 0 <= k < |kept| ==>
                 && kept[k] in sheet.rows && HasKey(kept[k])
                 && t.rows[k][Colecao] == Text(Lower(CellText(kept[k][Colecao])))
                 && t.rows[k][Numero] == Text(CellText(kept[k][Numero]))
                 && KeyOf(t.rows[k]) == NormalKey(kept[k])
                 && t.rows[k][Padrao] == (if Padrao in sheet.columns then kept[k][Padrao] else Int(1))
                 && t.rows[k][Foil] == (if Foil in sheet.columns then kept[k][Foil] else Int(0))
                 && forall c :: c in sheet.columns && c !in {Colecao, Numero, Padrao, Foil} ==> t.rows[k][c] == kept[k][c]
  {
    KeptSound(sheet.rows);
    var kept := Kept(sheet.rows);
    forall k | 0 <= k < |kept| ensures kept[k] in sheet.rows && kept[k].Keys == sheet.columns {
      assert kept[k] in kept;
    }
  }

  // ---------------------------------------------------------------------
  // Grouping by (colecao, numero)
  // ---------------------------------------------------------------------

  datatype CardKey = CardKey(colecao: string, numero: string)

  /** The group a prepared row belongs to. */
  function KeyOf(row: Row): CardKey
    requires Colecao in row && Numero in row
  {
    CardKey(CellText(row[Colecao]), CellText(row[Numero]))
  }

  /** The key a sheet row gets: its collection code lower-cased and its card number, both as text. */
  function NormalKey(row: Row): CardKey
    requires Colecao in row && Numero in row
  {
    CardKey(Lower(CellText(row[Colecao])), CellText(row[Numero]))
  }

  /** A table the grouping applies to: well formed, with the key and quantity columns. */
  predicate Groupable(t: Table) {
    WellFormed(t) && {Colecao, Numero, Padrao, Foil} <= t.columns
  }

  /**
    What `sum` adds for one quantity cell: its value, and nothing for a
    missing one (the sum skips NaN).
   */
  function Quantity(c: Cell): int {
    if c.Int? then c.i else 0
  }

  /** Quantity cells the model sums: integers or missing. */
  predicate IntegerQuantities(t: Table)
    requires Groupable(t)
  {
    forall k :: 0 <= k < |t.rows| ==> (t.rows[k][Padrao].Int? || t.rows[k][Padrao].Null?)
                                      && (t.rows[k][Foil].Int? || t.rows[k][Foil].Null?)
  }

  /** The quantities in `column` of the rows of one group. */
  function KeySum(rows: seq<Row>, key: CardKey, column: string): int
    requires forall k :: 0 <= k < |rows| ==> Colecao in rows[k] && Numero in rows[k] && column in rows[k]
  {
    if rows == [] then 0
    else
      var n := |rows| - 1;
      KeySum(rows[..n], key, column) + (if KeyOf(rows[n]) == key then Quantity(rows[n][column]) else 0)
  }

  /**
    `first` for one group and column: the first value of the group's rows
    that is not missing, or missing when all are.
   */
  function KeyFirst(rows: seq<Row>, key: CardKey, column: string): (r: Cell)
    requires forall k :: 0 <= k < |rows| ==> Colecao in rows[k] && Numero in rows[k] && column in rows[k]
    ensures r.Null? <==> forall k :: 0 <= k < |rows| && KeyOf(rows[k]) == key ==> rows[k][column].Null?
    ensures !r.Null? ==> exists k :: 0 <= k < |rows| && KeyOf(rows[k]) == key && rows[k][column] == r
                                       && forall j :: 0 <= j < k && KeyOf(rows[j]) == key ==> rows[j][column].Null?
  {
    match FirstPresent(rows, key, column)
    case Some(k) => rows[k][column]
    case None => Null
  }

  /** The index of the first row of the group whose cell in `column` is not missing, if any. */
  function FirstPresent(rows: seq<Row>, key: CardKey, column: string): (r: Option<nat>)
    requires forall k :: 0 <= k < |rows| ==> Colecao in rows[k] && Numero in rows[k] && column in rows[k]
    ensures r.None? <==> forall k :: 0 <= k < |rows| && KeyOf(rows[k]) == key ==> rows[k][column].Null?
    ensures r.Some? ==> && r.value < |rows| && KeyOf(rows[r.value]) == key && !rows[r.value][column].Null?
                        && forall j :: 0 <= j < r.value && KeyOf(rows[j]) == key ==> rows[j][column].Null?
  {
    if rows == [] then None
    else if KeyOf(rows[0]) == key && !rows[0][column].Null? then Some(0)
    else match FirstPresent(rows[1..], key, column)
      case None => None
      case Some(k) => Some(k + 1)
  }

  /** The keys of the table's rows. */
  function KeysOf(rows: seq<Row>): (keys: set<CardKey>)
    requires forall k :: 0 <= k < |rows| ==> Colecao in rows[k] && Numero in rows[k]
    ensures forall key :: key in keys <==> exists k :: 0 <= k < |rows| && KeyOf(rows[k]) == key
  {
    set k | 0 <= k < |rows| :: KeyOf(rows[k])
  }

  /**
    The merged row of one group: the key, the summed quantities, and the
    `first` value of every other column.
   */
  function GroupRow(t: Table, key: CardKey): (r: Row)
    requires Groupable(t)
    ensures r.Keys == t.columns
  {
    map c | c in t.columns ::
      if c == Colecao then Text(key.colecao)
      else if c == Numero then Text(key.numero)
      else if c == Padrao || c == Foil then Int(KeySum(t.rows, key, c))
      else KeyFirst(t.rows, key, c)
  }

  /** `groupby(["colecao", "numero"], as_index=False).agg(...)`: one merged row per key. */
  function Grouped(t: Table): (g: map<CardKey, Row>)
    requires Groupable(t)
    ensures g.Keys == KeysOf(t.rows)
  {
    map key | key in KeysOf(t.rows) :: GroupRow(t, key)
  }

  /**
    Every other column of a group holds the first value its rows have
    there, so a group whose first row has a value keeps it; it is missing
    only when no row of the group has one.
   */
  lemma GroupedFirst(t: Table, key: CardKey, column: string, i: nat)
    requires Groupable(t) && column in t.columns && column !in {Colecao, Numero, Padrao, Foil}
    requires i < |t.rows| && KeyOf(t.rows[i]) == key
    requires forall j :: 0 <= j < i ==> KeyOf(t.rows[j]) != key
    ensures key in Grouped(t) && column in Grouped(t)[key]
    ensures !t.rows[i][column].Null? ==> Grouped(t)[key][column] == t.rows[i][column]
    ensures Grouped(t)[key][column].Null? <==>
              forall k :: 0 <= k < |t.rows| && KeyOf(t.rows[k]) == key ==> t.rows[k][column].Null?
  {
    GroupedCell(t, key, column, i);
    if !t.rows[i][column].Null? {
      KeyFirstAt(t.rows, key, column, i);
    }
  }

  lemma GroupedCell(t: Table, key: CardKey, column: string, i: nat)
    requires Groupable(t) && column in t.columns && column !in {Colecao, Numero, Padrao, Foil}
    requires i < |t.rows| && KeyOf(t.rows[i]) == key
    ensures key in Grouped(t) && column in Grouped(t)[key]
    ensures Grouped(t)[key][column] == KeyFirst(t.rows, key, column)
  {
    assert key in KeysOf(t.rows);
  }

  /** A value in the first row of a group is the group's `first`. */
  lemma KeyFirstAt(rows: seq<Row>, key: CardKey, column: string, i: nat)
    requires forall k :: 0 <= k < |rows| ==> Colecao in rows[k] && Numero in rows[k] && column in rows[k]
    requires i < |rows| && KeyOf(rows[i]) == key && !rows[i][column].Null?
    requires forall j :: 0 <= j < i ==> KeyOf(rows[j]) != key
    ensures KeyFirst(rows, key, column) == rows[i][column]
  {
    var r := FirstPresent(rows, key, column);
    assert r.Some?;
    assert !(r.value < i) && !(i < r.value);
  }

  /** The total of a quantity column over all rows. */
  function Total(rows: seq<Row>, column: string): int
    requires forall k :: 0 <= k < |rows| ==> column in rows[k]
  {
    if rows == [] then 0 else Total(rows[..|rows| - 1], column) + Quantity(rows[|rows| - 1][column])
  }

  /** The group sums of `column` for a list of keys, added up. */
  function KeySums(rows: seq<Row>, keys: seq<CardKey>, column: string): int
    requires forall k :: 0 <= k < |rows| ==> Colecao in rows[k] && Numero in rows[k] && column in rows[k]
  {
    if keys == [] then 0 else KeySums(rows, keys[..|keys| - 1], column) + KeySum(rows, keys[|keys| - 1], column)
  }

  /** `q` for every occurrence of `x` in the list of keys. */
  function Hits(keys: seq<CardKey>, x: CardKey, q: int): int {
    if keys == [] then 0 else Hits(keys[..|keys| - 1], x, q) + (if keys[|keys| - 1] == x then q else 0)
  }

  lemma {:induction false} HitsDistinct(keys: seq<CardKey>, x: CardKey, q: int)
    requires Distinct(keys)
    ensures Hits(keys, x, q) == if x in keys then q else 0
  {
    if keys != [] {
      var m := |keys| - 1;
      HitsDistinct(keys[..m], x, q);
      assert x in keys <==> x in keys[..m] || keys[m] == x;
      if keys[m] == x {
        assert x !in keys[..m];
      }
    }
  }

  /** Adding one more row to every group sum adds its quantity once for each listing of its key. */
  lemma {:induction false} KeySumsLastRow(rows: seq<Row>, keys: seq<CardKey>, column: string)
    requires rows != []
    requires forall k :: 0 <= k < |rows| ==> Colecao in rows[k] && Numero in rows[k] && column in rows[k]
    ensures KeySums(rows, keys, column) ==
              KeySums(rows[..|rows| - 1], keys, column) + Hits(keys, KeyOf(rows[|rows| - 1]), Quantity(rows[|rows| - 1][column]))
  {
    if keys != [] {
      KeySumsLastRow(rows, keys[..|keys| - 1], column);
    }
  }

  /** When every row's key is listed exactly once, the group sums add up to the column total. */
  lemma {:induction false} KeySumsTotal(rows: seq<Row>, keys: seq<CardKey>, column: string)
    requires forall k :: 0 <= k < |rows| ==> Colecao in rows[k] && Numero in rows[k] && column in rows[k]
    requires Distinct(keys)
    requires forall k :: 0 <= k < |rows| ==> KeyOf(rows[k]) in keys
    ensures KeySums(rows, keys, column) == Total(rows, column)
  {
    if rows == [] {
      KeySumsEmpty(keys, column);
    } else {
      var n := |rows| - 1;
      KeySumsTotal(rows[..n], keys, column);
      KeySumsLastRow(rows, keys, column);
      HitsDistinct(keys, KeyOf(rows[n]), Quantity(rows[n][column]));
    }
  }

  lemma {:induction false} KeySumsEmpty(keys: seq<CardKey>, column: string)
    ensures KeySums([], keys, column) == 0
  {
    if keys != [] {
      KeySumsEmpty(keys[..|keys| - 1], column);
    }
  }

  /** The quantities in `column` of the merged rows of the listed groups, added up. */
  function GroupTotals(g: map<CardKey, Row>, keys: seq<CardKey>, column: string): int
    requires forall k :: 0 <= k < |keys| ==> keys[k] in g && column in g[keys[k]]
  {
    if keys == [] then 0 else GroupTotals(g, keys[..|keys| - 1], column) + Quantity(g[keys[|keys| - 1]][column])
  }

  /** Adding up entries that each hold their group's sum adds up the group sums. */
  lemma {:induction false} GroupTotalsAreKeySums(t: Table, g: map<CardKey, Row>, keys: seq<CardKey>, column: string)
    requires Groupable(t) && column in {Padrao, Foil}
    requires forall k :: 0 <= k < |keys| ==>
               keys[k] in g && column in g[keys[k]] && Quantity(g[keys[k]][column]) == KeySum(t.rows, keys[k], column)
    ensures GroupTotals(g, keys, column) == KeySums(t.rows, keys, column)
  {
    if keys != [] {
      GroupTotalsAreKeySums(t, g, keys[..|keys| - 1], column);
    }
  }

  /** Each merged row holds its group's sum of `padrao` and `foil`. */
  lemma GroupedSums(t: Table, column: string)
    requires Groupable(t) && column in {Padrao, Foil}
    ensures forall key :: key in Grouped(t) ==>
              column in Grouped(t)[key] && Grouped(t)[key][column] == Int(KeySum(t.rows, key, column))
  {
  }

  /**
    Grouping loses and invents no quantity: over all groups, the summed
    `padrao` (or `foil`) add up to the column's total over the prepared rows.
   */
  lemma GroupedTotals(t: Table, keys: seq<CardKey>, column: string)
    requires Groupable(t) && column in {Padrao, Foil}
    requires Distinct(keys) && (forall k :: 0 <= k < |keys| ==> keys[k] in Grouped(t))
    requires forall key :: key in Grouped(t) ==> key in keys
    ensures GroupTotals(Grouped(t), keys, column) == Total(t.rows, column)
  {
    GroupedSums(t, column);
    GroupTotalsAreKeySums(t, Grouped(t), keys, column);
    KeySumsTotal(t.rows, keys, column);
  }

  /**
    The import's grouping: the prepared sheet grouped by key, or the
    missing key columns. Quantity cells are taken to be integers or missing.
   */
  function ImportedCards(sheet: Table): (r: Result<map<CardKey, Row>, SheetError>)
    requires WellFormed(sheet)
    requires Prepared(sheet).Ok? ==> IntegerQuantities(Prepared(sheet).value)
    ensures r.Err? <==> Prepared(sheet).Err?
    ensures r.Ok? ==> forall key :: key in r.value ==> r.value[key].Keys == sheet.columns + {Padrao, Foil}
  {
    match Prepared(sheet)
    case Err(e) => Err(e)
    case Ok(t) => Ok(Grouped(t))
  }

  /**
    The groups are exactly the normalised keys of the sheet rows that have
    both key cells, each once: the lower-cased collection code and the
    card number as text.
   */
  lemma ImportedKeys(sheet: Table)
    requires WellFormed(sheet)
    requires Prepared(sheet).Ok? && IntegerQuantities(Prepared(sheet).value)
    ensures forall key :: key in ImportedCards(sheet).value <==>
              exists k :: 0 <= k < |sheet.rows| && HasKey(sheet.rows[k]) && key == NormalKey(sheet.rows[k])
  {
    ImportedKeysSound(sheet);
    ImportedKeysComplete(sheet);
  }

  lemma ImportedKeysSound(sheet: Table)
    requires WellFormed(sheet)
    requires Prepared(sheet).Ok? && IntegerQuantities(Prepared(sheet).value)
    ensures forall key :: key in ImportedCards(sheet).value ==>
              exists k :: 0 <= k < |sheet.rows| && HasKey(sheet.rows[k]) && key == NormalKey(sheet.rows[k])
  {
    var t := Prepared(sheet).value;
    PreparedKeys(sheet);
    ImportedCardsKeys(sheet);
    forall key | key in ImportedCards(sheet).value
      ensures exists k :: 0 <= k < |sheet.rows| && HasKey(sheet.rows[k]) && key == NormalKey(sheet.rows[k])
    {
      KeyFromSheet(sheet.rows, t.rows, Kept(sheet.rows), key);
    }
  }

  lemma ImportedCardsKeys(sheet: Table)
    requires WellFormed(sheet)
    requires Prepared(sheet).Ok? && IntegerQuantities(Prepared(sheet).value)
    ensures forall k :: 0 <= k < |Prepared(sheet).value.rows| ==>
              Colecao in Prepared(sheet).value.rows[k] && Numero in Prepared(sheet).value.rows[k]
    ensures forall key :: key in ImportedCards(sheet).value <==> key in KeysOf(Prepared(sheet).value.rows)
  {
  }

  lemma KeyFromSheet(rows: seq<Row>, prepared: seq<Row>, kept: seq<Row>, key: CardKey)
    requires forall k :: 0 <= k < |prepared| ==> Colecao in prepared[k] && Numero in prepared[k]
    requires |prepared| == |kept|
    requires forall k :: 0 <= k < |kept| ==>
               kept[k] in rows && HasKey(kept[k]) && KeyOf(prepared[k]) == NormalKey(kept[k])
    requires key in KeysOf(prepared)
    ensures exists k :: 0 <= k < |rows| && HasKey(rows[k]) && key == NormalKey(rows[k])
  {
    var i := KeyIndex(prepared, key);
    var k := IndexOf(rows, kept[i]);
  }

  lemma ImportedKeysComplete(sheet: Table)
    requires WellFormed(sheet)
    requires Prepared(sheet).Ok? && IntegerQuantities(Prepared(sheet).value)
    ensures forall k :: 0 <= k < |sheet.rows| && HasKey(sheet.rows[k]) ==> NormalKey(sheet.rows[k]) in ImportedCards(sheet).value
  {
    var t := Prepared(sheet).value;
    var kept := Kept(sheet.rows);
    PreparedKeys(sheet);
    KeptComplete(sheet.rows);
    ImportedCardsKeys(sheet);
    forall k | 0 <= k < |sheet.rows| && HasKey(sheet.rows[k])
      ensures NormalKey(sheet.rows[k]) in KeysOf(t.rows)
    {
      var i := IndexOf(kept, sheet.rows[k]);
      assert KeyOf(t.rows[i]) == NormalKey(sheet.rows[k]);
    }
  }

  /** The prepared rows are the kept sheet rows, in order, each under its normalised key. */
  lemma PreparedKeys(sheet: Table)
    requires WellFormed(sheet) && Prepared(sheet).Ok?
    ensures var t := Prepared(sheet).value;
            var kept := Kept(sheet.rows);
            && |t.rows| == |kept|
            && forall k :: 0 <= k < |kept| ==>
                 kept[k] in sheet.rows && HasKey(kept[k]) && KeyOf(t.rows[k]) == NormalKey(kept[k])
  {
    PreparedRows(sheet);
  }

  /** A row that has a key of the table. */
  lemma KeyIndex(rows: seq<Row>, key: CardKey) returns (i: nat)
    requires forall k :: 0 <= k < |rows| ==> Colecao in rows[k] && Numero in rows[k]
    requires key in KeysOf(rows)
    ensures i < |rows| && KeyOf(rows[i]) == key
  {
    i :| 0 <= i < |rows| && KeyOf(rows[i]) == key;
  }

  // ---------------------------------------------------------------------
  // Card details
  // ---------------------------------------------------------------------

  /** The fields of a card (or of one of its faces) the details read; a missing field is `None`. */
  datatype Face = Face(name: Option<string>, manaCost: Option<string>, colors: seq<string>, image: Option<string>)

  /**
    A card as the details lookup returns it: its set code and collector
    number, its USD prices (`None` when missing or null), its own face
    fields, its list of faces, and the set and type fields.
   */
  datatype Card = Card(setCode: string, collectorNumber: string, usd: Option<real>, usdFoil: Option<real>,
                       own: Face, faces: seq<Face>, setName: Option<string>, setIcon: Option<string>,
                       rarity: Option<string>, typeLine: Option<string>)

  const DetailFields: set<string> :=
    {"nome", "mana_cost", "cores", "imagem", "nome_2", "imagem_2", "colecao_nome", "icone_colecao",
     "raridade", "tipo", "preco_brl", "preco_brl_foil"}

  function CardKeyOf(card: Card): CardKey {
    CardKey(card.setCode, card.collectorNumber)
  }

  /** A field as a cell: the text, or missing. */
  function OptionalText(o: Option<string>): (c: Cell)
    ensures o.None? <==> c.Null?
  {
    if o.Some? then Text(o.value) else Null
  }

  /** `x or y` on two optional texts: `y` when `x` is missing or empty. */
  function OrElse(x: Option<string>, y: Option<string>): (r: Option<string>)
    ensures x.Some? && x.value != "" ==> r == x
    ensures x.None? || x.value == "" ==> r == y
  {
    if x.Some? && x.value != "" then x else y
  }

  /**
    `round(float(usd or 0) * cotacao, 2)`: a missing price counts as 0, and
    the result is the converted price to the cent.
   */
  function BrlPrice(usd: Option<real>, rate: real): (p: real)
    ensures usd.None? ==> p == Round2(0.0)
    ensures usd.Some? ==> usd.value * rate - 0.005 < p <= usd.value * rate + 0.005
    ensures (usd.None? || usd.value >= 0.0) && rate >= 0.0 ==> p >= 0.0
  {
    var amount := if usd.Some? then usd.value else 0.0;
    assert amount * rate >= 0.0 || !((usd.None? || usd.value >= 0.0) && rate >= 0.0);
    Round2(amount * rate)
  }

  /** One value of `detalhes_dict`: the twelve fields written for a card. */
  datatype Entry = Entry(nome: Cell, manaCost: Cell, cores: Cell, imagem: Cell, nome2: Cell, imagem2: Cell,
                         colecaoNome: Cell, iconeColecao: Cell, raridade: Cell, tipo: Cell,
                         precoBrl: Cell, precoBrlFoil: Cell)

  /**
    The details entry of one card: the first face (the card itself when it
    has no faces) gives name, mana cost, colours and image, falling back to
    the card's image; the second face, when there is one, gives the
    alternative name and image; the rest comes from the card.
   */
  function Details(card: Card, rate: real): Entry
  {
    var face1 := if card.faces != [] then card.faces[0] else card.own;
    var face2 := if |card.faces| > 1 then card.faces[1] else Face(None, None, [], None);
    Entry(OptionalText(face1.name), OptionalText(face1.manaCost), Text(Join(face1.colors)),
          OptionalText(OrElse(face1.image, card.own.image)), OptionalText(face2.name), OptionalText(face2.image),
          OptionalText(card.setName), OptionalText(card.setIcon), OptionalText(card.rarity), OptionalText(card.typeLine),
          Num(BrlPrice(card.usd, rate)), Num(BrlPrice(card.usdFoil, rate)))
  }

  /**
    What an entry holds: the card's own name when it has no faces, else the
    first face's; no second name or image for a card with fewer than two
    faces; an image whenever the first face or the card has a non-empty one;
    and prices that are 0 for a missing USD price, never negative for
    non-negative prices and rate, and within half a cent of the conversion.
   */
  lemma DetailsFields(card: Card, rate: real)
    ensures var e := Details(card, rate);
            && e.nome == OptionalText(if card.faces == [] then card.own.name else card.faces[0].name)
            && (|card.faces| < 2 ==> e.nome2 == Null && e.imagem2 == Null)
            && (e.imagem.Null? <==>
                  var first := if card.faces == [] then card.own.image else card.faces[0].image;
                  (first.None? || first.value == "") && card.own.image.None?)
            && e.precoBrl.Num? && e.precoBrlFoil.Num?
            && (card.usd.None? ==> e.precoBrl.x == 0.0)
            && (card.usd.Some? ==> card.usd.value * rate - 0.005 < e.precoBrl.x <= card.usd.value * rate + 0.005)
            && (rate >= 0.0 && (card.usd.None? || card.usd.value >= 0.0) ==> e.precoBrl.x >= 0.0)
  {
  }

  /** The entry as the columns `pd.Series(entry)` gives it. */
  function EntryRow(e: Entry): (d: Row)
    ensures d.Keys == DetailFields
  {
    map["nome" := e.nome, "mana_cost" := e.manaCost, "cores" := e.cores, "imagem" := e.imagem,
        "nome_2" := e.nome2, "imagem_2" := e.imagem2, "colecao_nome" := e.colecaoNome,
        "icone_colecao" := e.iconeColecao, "raridade" := e.raridade, "tipo" := e.tipo,
        "preco_brl" := e.precoBrl, "preco_brl_foil" := e.precoBrlFoil]
  }

  /** The details dictionary after the first `n` cards, each written under its (set, number) key. */
  function DetailsMap(cards: seq<Card>, rate: real): (d: map<CardKey, Entry>)
  {
    if cards == [] then map[]
    else
      var n := |cards| - 1;
      DetailsMap(cards[..n], rate)[CardKeyOf(cards[n]) := Details(cards[n], rate)]
  }

  /** The dictionary holds exactly the keys of the cards fetched. */
  lemma {:induction false} DetailsMapKeys(cards: seq<Card>, rate: real)
    ensures forall key :: key in DetailsMap(cards, rate) <==> exists k :: 0 <= k < |cards| && CardKeyOf(cards[k]) == key
  {
    if cards != [] {
      var n := |cards| - 1;
      var front := cards[..n];
      DetailsMapKeys(front, rate);
      forall key | key in DetailsMap(cards, rate)
        ensures exists k :: 0 <= k < |cards| && CardKeyOf(cards[k]) == key
      {
        if key != CardKeyOf(cards[n]) {
          assert key in DetailsMap(front, rate);
          var k :| 0 <= k < n && CardKeyOf(front[k]) == key;
          assert cards[k] == front[k];
        }
      }
      forall k | 0 <= k < |cards| ensures CardKeyOf(cards[k]) in DetailsMap(cards, rate) {
        if k < n {
          assert front[k] == cards[k];
        }
      }
    }
  }

  /** For a key fetched more than once the last card wins: the entry is that of the last card with the key. */
  lemma {:induction false} DetailsMapLastWins(cards: seq<Card>, rate: real, j: nat)
    requires j < |cards|
    requires forall i :: j < i < |cards| ==> CardKeyOf(cards[i]) != CardKeyOf(cards[j])
    ensures CardKeyOf(cards[j]) in DetailsMap(cards, rate)
    ensures DetailsMap(cards, rate)[CardKeyOf(cards[j])] == Details(cards[j], rate)
  {
    var n := |cards| - 1;
    var front := cards[..n];
    assert DetailsMap(cards, rate) == DetailsMap(front, rate)[CardKeyOf(cards[n]) := Details(cards[n], rate)];
    if j < n {
      assert front[j] == cards[j];
      DetailsMapLastWins(front, rate, j);
      assert CardKeyOf(cards[n]) != CardKeyOf(cards[j]);
    }
  }

  /** The loop filling `detalhes_dict`, one card after the other. */
  method BuildDetails(cards: seq<Card>, rate: real) returns (d: map<CardKey, Entry>)
    ensures d == DetailsMap(cards, rate)
  {
    d := map[];
    var i := 0;
    while i < |cards|
      invariant 0 <= i <= |cards|
      invariant d == DetailsMap(cards[..i], rate)
    {
      var card := cards[i];
      assert cards[..i + 1][..i] == cards[..i];
      d := d[CardKeyOf(card) := Details(card, rate)];
      i := i + 1;
    }
    assert cards[..i] == cards;
  }

  /** The all-missing details a row without an entry gets once some row has one. */
  function NoDetails(): (d: Row)
    ensures d.Keys == DetailFields
  {
    map f | f in DetailFields :: Null
  }

  /**
    `pd.concat([df, df_detalhes], axis=1)` for each group: the row with its
    entry's fields when the dictionary has its key; when it has none, the
    detail columns are missing there, or are absent altogether when no row
    has an entry.
   */
  function Attached(groups: map<CardKey, Row>, details: map<CardKey, Entry>): (r: map<CardKey, Row>)
    ensures r.Keys == groups.Keys
  {
    var matched := exists key :: key in groups && key in details;
    map key | key in groups ::
      if key in details then groups[key] + EntryRow(details[key])
      else if matched then groups[key] + NoDetails()
      else groups[key]
  }

  /**
    Attaching keeps every group and every cell outside the detail columns;
    a group with an entry gets exactly that entry's fields, one without gets
    missing detail cells, and with no entry at all nothing changes.
   */
  lemma AttachedCells(groups: map<CardKey, Row>, details: map<CardKey, Entry>)
    ensures var r := Attached(groups, details);
            && (forall key, c :: key in groups && c in groups[key] && c !in DetailFields ==> c in r[key] && r[key][c] == groups[key][c])
            && (forall key, f :: key in groups && key in details && f in DetailFields ==> f in r[key] && r[key][f] == EntryRow(details[key])[f])
            && ((exists key :: key in groups && key in details) ==>
                  forall key, f :: key in groups && key !in details && f in DetailFields ==> f in r[key] && r[key][f] == Null)
            && ((forall key :: key in groups ==> key !in details) ==> r == groups)
  {
  }
}
