/**
  The card manager of the catalogue app (`test.py`, the "Book Manager"
  tab): the catalogue is shown in an editor restricted to name, number,
  collection and the two quantities; on "Save" the catalogue without its
  quantity columns is left-merged with the edited rows on (numero, colecao)
  and handed to `salvar_csv_em_github`, and a notice is shown.
 */
module CardManager {
  import opened Wrappers
  import opened Tables
  import opened GithubSave

  const Nome := "nome"
  const Numero := "numero"
  const Colecao := "colecao"
  const Padrao := "padrao"
  const Foil := "foil"

  /** The columns the editor shows (`df[["nome", "numero", "colecao", "padrao", "foil"]]`). */
  const EditorColumns: set<string> := {Nome, Numero, Colecao, Padrao, Foil}

  /** The row's cell in `column`; a cell the row lacks is missing (NaN), as for a row added in the editor. */
  function CellOf(row: Row, column: string): (c: Cell)
    ensures column in row ==> c == row[column]
  {
    if column in row then row[column] else Null
  }

  /** The merge key; a missing cell matches a missing cell, as pandas merges. */
  function MergeKey(row: Row): (Cell, Cell)
  {
    (CellOf(row, Numero), CellOf(row, Colecao))
  }

  /** The edited rows with the given key, in editor order. */
  function Matches(edited: seq<Row>, key: (Cell, Cell)): (r: seq<Row>)
    ensures |r| <= |edited|
  {
    if edited == [] then []
    else
      var n := |edited| - 1;
      Matches(edited[..n], key) + (if MergeKey(edited[n]) == key then [edited[n]] else [])
  }

  /** Only edited rows with the key match, and every edited row with the key does. */
  lemma {:induction false} MatchesExact(edited: seq<Row>, key: (Cell, Cell))
    ensures forall x :: x in Matches(edited, key) ==> x in edited && MergeKey(x) == key
    ensures forall j :: 0 <= j < |edited| && MergeKey(edited[j]) == key ==> edited[j] in Matches(edited, key)
  {
    if edited != [] {
      var n := |edited| - 1;
      MatchesExact(edited[..n], key);
      assert forall x :: x in edited[..n] ==> x in edited;
      forall j | 0 <= j < |edited| && MergeKey(edited[j]) == key ensures edited[j] in Matches(edited, key) {
        if j < n {
          assert edited[..n][j] == edited[j];
        }
      }
    }
  }

  /** No two edited rows share a key. */
  predicate UniqueKeys(edited: seq<Row>)
  {
    forall i, j :: 0 <= i < j < |edited| ==> MergeKey(edited[i]) != MergeKey(edited[j])
  }

  /** With unique keys, a key matches the one edited row that has it, or none. */
  lemma {:induction false} MatchesUnique(edited: seq<Row>, key: (Cell, Cell))
    requires UniqueKeys(edited)
    ensures |Matches(edited, key)| <= 1
    ensures Matches(edited, key) == [] <==> forall j :: 0 <= j < |edited| ==> MergeKey(edited[j]) != key
  {
    if edited != [] {
      var n := |edited| - 1;
      var front := edited[..n];
      MatchesUnique(front, key);
      if MergeKey(edited[n]) == key {
        assert forall j :: 0 <= j < n ==> MergeKey(front[j]) != key;
      }
    }
  }

  /**
    What one catalogue row becomes: one row per matching edited row, with
    that row's quantities, or the row once with missing quantities.
   */
  function MergedRows(row: Row, matches: seq<Row>): (r: seq<Row>)
    ensures |r| == if matches == [] then 1 else |matches|
  {
    if matches == [] then [row[Padrao := Null][Foil := Null]]
    else seq(|matches|, j requires 0 <= j < |matches| => row[Padrao := CellOf(matches[j], Padrao)][Foil := CellOf(matches[j], Foil)])
  }

  /** `.merge(edited[["numero", "colecao", "padrao", "foil"]], on=["numero", "colecao"], how="left")`. */
  function LeftMerge(left: seq<Row>, edited: seq<Row>): (r: seq<Row>)
    ensures |r| >= |left|
  {
    if left == [] then []
    else
      var n := |left| - 1;
      LeftMerge(left[..n], edited) + Block(left[n], edited)
  }

  /** The rows one catalogue row becomes. */
  function Block(row: Row, edited: seq<Row>): (r: seq<Row>)
    ensures |r| >= 1
  {
    MergedRows(row, Matches(edited, MergeKey(row)))
  }

  /** Merging works row by row, so it distributes over concatenation of the catalogue. */
  lemma {:induction false} LeftMergeAppend(a: seq<Row>, b: seq<Row>, edited: seq<Row>)
    ensures LeftMerge(a + b, edited) == LeftMerge(a, edited) + LeftMerge(b, edited)
  {
    if b == [] {
      assert a + b == a;
    } else {
      var n := |b| - 1;
      var front, last := b[..n], b[n];
      assert b == front + [last];
      assert a + b == (a + front) + [last];
      var head, tail, block := LeftMerge(a, edited), LeftMerge(front, edited), Block(last, edited);
      calc {
        LeftMerge(a + b, edited);
        { LeftMergeSnoc(a + front, last, edited); }
        LeftMerge(a + front, edited) + block;
        { LeftMergeAppend(a, front, edited); }
        (head + tail) + block;
        head + (tail + block);
        { LeftMergeSnoc(front, last, edited); }
        head + LeftMerge(b, edited);
      }
    }
  }

  /** One more catalogue row adds its block at the end. */
  lemma LeftMergeSnoc(left: seq<Row>, row: Row, edited: seq<Row>)
    ensures LeftMerge(left + [row], edited) == LeftMerge(left, edited) + Block(row, edited)
  {
    var s := left + [row];
    assert s[..|s| - 1] == left;
  }

  /**
    Every catalogue row is kept, in order: row `i` becomes the block of
    rows starting at the merged length of the rows before it, each of which
    keeps all of row `i`'s cells except the quantities, which come from the
    matching edited rows (or are missing when none matches).
   */
  lemma LeftMergeBlock(left: seq<Row>, edited: seq<Row>, i: nat)
    requires i < |left|
    ensures var start := |LeftMerge(left[..i], edited)|;
            var block := MergedRows(left[i], Matches(edited, MergeKey(left[i])));
            && start + |block| <= |LeftMerge(left, edited)|
            && LeftMerge(left, edited)[start..start + |block|] == block
  {
    var pre := left[..i];
    var post := left[i + 1..];
    assert left == pre + [left[i]] + post;
    LeftMergeAppend(pre + [left[i]], post, edited);
    assert (pre + [left[i]])[..i] == pre;
  }

  /** A catalogue row's block keeps its cells other than the quantities, and takes those from the edited rows with its key. */
  lemma MergedRowsCells(row: Row, edited: seq<Row>)
    ensures var block := MergedRows(row, Matches(edited, MergeKey(row)));
            forall m :: 0 <= m < |block| ==>
              && (forall c :: c in row && c != Padrao && c != Foil ==> c in block[m] && block[m][c] == row[c])
              && Padrao in block[m] && Foil in block[m]
              && ((block[m][Padrao].Null? && block[m][Foil].Null? && Matches(edited, MergeKey(row)) == [])
                  || exists j :: 0 <= j < |edited| && MergeKey(edited[j]) == MergeKey(row)
                                 && block[m][Padrao] == CellOf(edited[j], Padrao) && block[m][Foil] == CellOf(edited[j], Foil))
  {
    var matches := Matches(edited, MergeKey(row));
    MatchesExact(edited, MergeKey(row));
    var block := MergedRows(row, matches);
    forall m | 0 <= m < |block| && matches != []
      ensures exists j :: 0 <= j < |edited| && MergeKey(edited[j]) == MergeKey(row)
                          && block[m][Padrao] == CellOf(edited[j], Padrao) && block[m][Foil] == CellOf(edited[j], Foil)
    {
      assert matches[m] in matches;
      var j := IndexOf(edited, matches[m]);
    }
  }

  /**
    With unique keys in the editor the merge keeps the catalogue's length:
    row `i` is catalogue row `i` with the quantities of the edited row that
    has its key, or with missing quantities when no edited row has it.
   */
  lemma LeftMergeUnique(left: seq<Row>, edited: seq<Row>)
    requires UniqueKeys(edited)
    ensures |LeftMerge(left, edited)| == |left|
    ensures forall i :: 0 <= i < |left| ==>
              LeftMerge(left, edited)[i] == MergedRows(left[i], Matches(edited, MergeKey(left[i])))[0]
  {
    UniqueLength(left, edited);
    forall i | 0 <= i < |left|
      ensures LeftMerge(left, edited)[i] == MergedRows(left[i], Matches(edited, MergeKey(left[i])))[0]
    {
      UniqueLength(left[..i], edited);
      MatchesUnique(edited, MergeKey(left[i]));
      LeftMergeBlock(left, edited, i);
    }
  }

  lemma {:induction false} UniqueLength(left: seq<Row>, edited: seq<Row>)
    requires UniqueKeys(edited)
    ensures |LeftMerge(left, edited)| == |left|
  {
    if left != [] {
      var n := |left| - 1;
      UniqueLength(left[..n], edited);
      MatchesUnique(edited, MergeKey(left[n]));
    }
  }

  /** Two edited rows with the key of a catalogue row make the merge longer than the catalogue. */
  lemma LeftMergeDuplicates(left: seq<Row>, edited: seq<Row>, i: nat, j1: nat, j2: nat)
    requires i < |left| && j1 < j2 < |edited|
    requires MergeKey(edited[j1]) == MergeKey(left[i]) && MergeKey(edited[j2]) == MergeKey(left[i])
    ensures |LeftMerge(left, edited)| > |left|
  {
    var key := MergeKey(left[i]);
    MatchesTwo(edited, key, j1, j2);
    var pre := left[..i];
    var post := left[i + 1..];
    assert left == pre + [left[i]] + post;
    LeftMergeAppend(pre + [left[i]], post, edited);
    assert (pre + [left[i]])[..i] == pre;
  }

  lemma {:induction false} MatchesTwo(edited: seq<Row>, key: (Cell, Cell), j1: nat, j2: nat)
    requires j1 < j2 < |edited| && MergeKey(edited[j1]) == key && MergeKey(edited[j2]) == key
    ensures |Matches(edited, key)| >= 2
  {
    var n := |edited| - 1;
    if j2 < n {
      MatchesTwo(edited[..n], key, j1, j2);
    } else {
      MatchesExact(edited[..n], key);
      assert edited[..n][j1] == edited[j1];
      assert |Matches(edited[..n], key)| >= 1;
    }
  }

  /**
    The table the manager saves: the catalogue without its quantities,
    left-merged with the edited rows; nothing when the catalogue lacks one
    of the editor's columns (the tab then shows "Data not found.").
   */
  function Managed(df: Table, edited: seq<Row>): (r: Option<Table>)
    requires WellFormed(df)
    ensures r.None? <==> !(EditorColumns <= df.columns)
    ensures r.Some? ==> WellFormed(r.value) && r.value.columns == df.columns
  {
    if !(EditorColumns <= df.columns) then None
    else
      var rows := LeftMerge(df.rows, edited);
      MergedRowsKeys(df.rows, edited, df.columns);
      Some(Table(df.columns, rows))
  }

  lemma {:induction false} MergedRowsKeys(left: seq<Row>, edited: seq<Row>, columns: set<string>)
    requires {Padrao, Foil} <= columns
    requires forall k :: 0 <= k < |left| ==> left[k].Keys == columns
    ensures forall m :: 0 <= m < |LeftMerge(left, edited)| ==> LeftMerge(left, edited)[m].Keys == columns
  {
    if left != [] {
      var n := |left| - 1;
      MergedRowsKeys(left[..n], edited, columns);
    }
  }

  /**
    With unique keys in the editor the saved table has the catalogue's rows,
    in order: each keeps every cell but the quantities, which are those of
    the edited row with its key, or missing when no edited row has it.
   */
  lemma ManagedRows(df: Table, edited: seq<Row>)
    requires WellFormed(df) && EditorColumns <= df.columns
    requires UniqueKeys(edited)
    ensures var t := Managed(df, edited).value;
            && |t.rows| == |df.rows|
            && forall i :: 0 <= i < |df.rows| ==>
                 && (forall c :: c in df.rows[i] && c != Padrao && c != Foil ==> c in t.rows[i] && t.rows[i][c] == df.rows[i][c])
                 && ((exists j :: 0 <= j < |edited| && MergeKey(edited[j]) == MergeKey(df.rows[i])
                                  && t.rows[i][Padrao] == CellOf(edited[j], Padrao) && t.rows[i][Foil] == CellOf(edited[j], Foil))
                     || (t.rows[i][Padrao].Null? && t.rows[i][Foil].Null?
                         && forall j :: 0 <= j < |edited| ==> MergeKey(edited[j]) != MergeKey(df.rows[i])))
  {
    var t := Managed(df, edited).value;
    LeftMergeUnique(df.rows, edited);
    forall i | 0 <= i < |df.rows|
      ensures forall c :: c in df.rows[i] && c != Padrao && c != Foil ==> c in t.rows[i] && t.rows[i][c] == df.rows[i][c]
      ensures (exists j :: 0 <= j < |edited| && MergeKey(edited[j]) == MergeKey(df.rows[i])
                           && t.rows[i][Padrao] == CellOf(edited[j], Padrao) && t.rows[i][Foil] == CellOf(edited[j], Foil))
              || (t.rows[i][Padrao].Null? && t.rows[i][Foil].Null?
                  && forall j :: 0 <= j < |edited| ==> MergeKey(edited[j]) != MergeKey(df.rows[i]))
    {
      MergedRowsCells(df.rows[i], edited);
      MatchesUnique(edited, MergeKey(df.rows[i]));
    }
  }

  // ---------------------------------------------------------------------
  // Saving and the notice
  // ---------------------------------------------------------------------

  const SavedNotice := "Changes saved!"
  const ErrorNotice := "Error."
  const NotFoundWarning := "Data not found."

  /**
    As written, `sucesso = salvar_csv_em_github(...)` binds the whole
    returned pair, and `if sucesso:` tests the pair, which as a non-empty
    tuple is always true, so the "Error." branch is never taken. A request
    that raises inside the save reaches the tab's bare `except`, which shows
    "Data not found.".
   */
  function NoticeAsWritten(saved: Result<(bool, string), SaveError>): (notice: string)
    ensures notice != ErrorNotice
  {
    if saved.Err? then NotFoundWarning else SavedNotice
  }

  /** A failed upload is reported as saved. */
  lemma NoticeAsWrittenHidesFailure(reply: PutReply)
    requires reply.PutReply? && reply.status == 422
    ensures !SaveOutcome(reply).0
    ensures NoticeAsWritten(Ok(SaveOutcome(reply))) == SavedNotice
  {
  }

  /**
    The notice the tab evidently means to show: it tests the flag of the
    pair; a raised request still reaches the bare `except`.
   */
  function Notice(saved: Result<(bool, string), SaveError>): (notice: string)
    ensures notice == SavedNotice <==> saved.Ok? && saved.value.0
    ensures saved.Err? ==> notice == NotFoundWarning
  {
    if saved.Err? then NotFoundWarning
    else if saved.value.0 then SavedNotice else ErrorNotice
  }

  /**
    With the flag tested, "Changes saved!" is shown exactly when both
    requests completed and the upload got 200 or 201.
   */
  lemma NoticeReportsFailure(df: Table, got: GetReply, put: Upload -> PutReply)
    requires WellFormed(df) && (Found(got) ==> WellFormed(got.current))
    ensures Notice(SaveResult(df, got, put)) == SavedNotice <==>
              got.GetReply? && put(UploadFor(df, got)).PutReply? && put(UploadFor(df, got)).status in {200, 201}
  {
  }

  /**
    As written, the merged catalogue is handed to the incremental save,
    which appends it to the file already there: saving the file the tab
    loaded lists every card twice.
   */
  lemma SaveAppendsWholeTable(df: Table, edited: seq<Row>, got: GetReply)
    requires WellFormed(df) && EditorColumns <= df.columns
    requires UniqueKeys(edited)
    requires Found(got) && got.current == df
    ensures var t := UploadFor(Managed(df, edited).value, got).content;
            && |t.rows| == 2 * |df.rows|
            && forall i, c :: 0 <= i < |df.rows| && c in df.rows[i] && c != Padrao && c != Foil ==>
                 && c in t.rows[i] && t.rows[i][c] == df.rows[i][c]
                 && c in t.rows[|df.rows| + i] && t.rows[|df.rows| + i][c] == df.rows[i][c]
  {
    ManagedRows(df, edited);
    AppendedTwice(df, Managed(df, edited).value, got);
  }

  /** Appending a copy of the file to the file: every row of it is there twice. */
  lemma AppendedTwice(df: Table, merged: Table, got: GetReply)
    requires WellFormed(df) && WellFormed(merged)
    requires Found(got) && got.current == df
    requires |merged.rows| == |df.rows|
    requires forall i, c :: 0 <= i < |df.rows| && c in df.rows[i] && c != Padrao && c != Foil ==>
               c in merged.rows[i] && merged.rows[i][c] == df.rows[i][c]
    ensures var t := UploadFor(merged, got).content;
            && |t.rows| == 2 * |df.rows|
            && forall i, c :: 0 <= i < |df.rows| && c in df.rows[i] && c != Padrao && c != Foil ==>
                 && c in t.rows[i] && t.rows[i][c] == df.rows[i][c]
                 && c in t.rows[|df.rows| + i] && t.rows[|df.rows| + i][c] == df.rows[i][c]
  {
    UploadContents(merged, got);
  }

  /**
    The save the tab evidently means: the merged catalogue replaces the
    file (sent with the file's `sha` when it has one) instead of being
    appended to it.
   */
  function ReplaceUpload(t: Table, got: GetReply): (u: Upload)
    ensures u.content == t
    ensures u.sha.Some? <==> Found(got) && got.sha != ""
  {
    Upload(CommitMessage, t, Branch, if Found(got) && got.sha != "" then Some(got.sha) else None)
  }

  /**
    Replacing the file with the merged catalogue lists every card once:
    with unique keys in the editor the saved table has the catalogue's rows,
    in order, each keeping its cells other than the quantities.
   */
  lemma ManagerSaveReplaces(df: Table, edited: seq<Row>, got: GetReply)
    requires WellFormed(df) && EditorColumns <= df.columns
    requires UniqueKeys(edited)
    ensures var t := ReplaceUpload(Managed(df, edited).value, got).content;
            && |t.rows| == |df.rows|
            && forall i, c :: 0 <= i < |df.rows| && c in df.rows[i] && c != Padrao && c != Foil ==>
                 c in t.rows[i] && t.rows[i][c] == df.rows[i][c]
  {
    ManagedRows(df, edited);
  }
}
