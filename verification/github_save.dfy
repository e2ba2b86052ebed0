/**
  `salvar_csv_em_github` (`test.py`): the catalogue is saved by reading the
  current file through the GitHub contents API, appending the new rows to it
  and uploading the result. The two requests are inputs here: the reply to
  the read, and the reply the upload gets for the payload it sends. Neither
  request is guarded, so one that raises (a connection error, a timeout)
  raises out of the save instead of giving a pair.
 */
module GithubSave {
  import opened Wrappers
  import opened Tables

  const CommitMessage := "Atualização incremental via Streamlit"
  const Branch := "main"
  const SavedText := "Arquivo salvo com sucesso!"
  const UnknownErrorText := "Erro desconhecido"
  const DecodeErrorText := "Erro ao decodificar resposta da API"

  /**
    The reply to the read of the current file: its status and, on a 200, the
    decoded table and the blob's `sha` (neither is looked at otherwise); or
    the request raised.
   */
  datatype GetReply = GetReply(status: int, current: Table, sha: string) | GetRaised

  /** The JSON payload of the upload; `sha` is present only when it is sent. */
  datatype Upload = Upload(message: string, content: Table, branch: string, sha: Option<string>)

  /** The body of the upload's reply: a JSON object (maybe with a `message`), other JSON, or no JSON at all. */
  datatype ApiBody = JsonObject(message: Option<string>) | JsonOther | NotJson

  /** The reply to the upload, or the request raised. */
  datatype PutReply = PutReply(status: int, body: ApiBody) | PutRaised

  /** What the save raises instead of returning: the exception of a request that did not complete. */
  datatype SaveError = RequestRaised

  /** The read found the file: only a 200 counts. */
  predicate Found(got: GetReply) {
    got.GetReply? && got.status == 200
  }

  /**
    The payload: on a 200 the current rows followed by the new ones (no
    de-duplication), with the `sha` when it is not empty; otherwise just the
    new rows and no `sha`.
   */
  function UploadFor(df: Table, got: GetReply): (u: Upload)
    requires got.GetReply?
    requires WellFormed(df) && (Found(got) ==> WellFormed(got.current))
    ensures WellFormed(u.content)
  {
    if Found(got) then Upload(CommitMessage, Concat(got.current, df), Branch, if got.sha != "" then Some(got.sha) else None)
    else Upload(CommitMessage, df, Branch, None)
  }

  /**
    What is uploaded when the file exists: every current row first, each
    keeping its cells, then every new row, each keeping its cells, over the
    union of the columns; a row present in both is there twice. When the
    file does not exist, the new table as it is. The `sha` is sent exactly
    when the file was found with a non-empty one.
   */
  lemma UploadContents(df: Table, got: GetReply)
    requires got.GetReply?
    requires WellFormed(df) && (Found(got) ==> WellFormed(got.current))
    ensures var u := UploadFor(df, got);
            && u.message == CommitMessage && u.branch == Branch
            && (u.sha.Some? <==> Found(got) && got.sha != "")
            && (u.sha.Some? ==> u.sha.value == got.sha)
            && (!Found(got) ==> u.content == df)
    ensures Found(got) ==>
              var t := UploadFor(df, got).content;
              var cur := got.current.rows;
              && t.columns == got.current.columns + df.columns
              && |t.rows| == |cur| + |df.rows|
              && (forall k, c :: 0 <= k < |cur| && c in cur[k] ==> c in t.rows[k] && t.rows[k][c] == cur[k][c])
              && (forall k, c :: 0 <= k < |df.rows| && c in df.rows[k] ==>
                    c in t.rows[|cur| + k] && t.rows[|cur| + k][c] == df.rows[k][c])
  {
    if Found(got) {
      var t := UploadFor(df, got).content;
      forall k | 0 <= k < |got.current.rows|
        ensures forall c :: c in got.current.rows[k] ==> c in t.rows[k] && t.rows[k][c] == got.current.rows[k][c]
      {
        assert t.rows[k] == Pad(got.current.rows[k], t.columns);
      }
      forall k | 0 <= k < |df.rows|
        ensures forall c :: c in df.rows[k] ==> c in t.rows[|got.current.rows| + k] && t.rows[|got.current.rows| + k][c] == df.rows[k][c]
      {
        assert t.rows[|got.current.rows| + k] == Pad(df.rows[k], t.columns);
      }
    }
  }

  /**
    The pair returned for the upload's reply: success on 200 or 201;
    otherwise the API's `message`, "Erro desconhecido" when the object has
    none, or the decode-error text when the body is not a JSON object (`.get`
    on a list fails just as a body that is not JSON does).
   */
  function SaveOutcome(reply: PutReply): (r: (bool, string))
    requires reply.PutReply?
    ensures r.0 <==> reply.status in {200, 201}
    ensures r.0 ==> r.1 == SavedText
    ensures !r.0 ==>
              match reply.body
              case JsonObject(Some(m)) => r.1 == m
              case JsonObject(None) => r.1 == UnknownErrorText
              case _ => r.1 == DecodeErrorText
  {
    if reply.status == 200 || reply.status == 201 then (true, SavedText)
    else match reply.body
      case JsonObject(m) => (false, if m.Some? then m.value else UnknownErrorText)
      case _ => (false, DecodeErrorText)
  }

  /**
    What `salvar_csv_em_github` gives: the exception when the read raises,
    or when the upload of the payload built from the read's reply raises;
    otherwise the pair for the upload's reply.
   */
  function SaveResult(df: Table, got: GetReply, put: Upload -> PutReply): (r: Result<(bool, string), SaveError>)
    requires WellFormed(df) && (Found(got) ==> WellFormed(got.current))
    ensures r.Err? <==> got.GetRaised? || put(UploadFor(df, got)).PutRaised?
    ensures r.Ok? ==> (r.value.0 <==> put(UploadFor(df, got)).status in {200, 201})
  {
    if got.GetRaised? then Err(RequestRaised)
    else
      var reply := put(UploadFor(df, got));
      if reply.PutRaised? then Err(RequestRaised) else Ok(SaveOutcome(reply))
  }

  /**
    `salvar_csv_em_github(df_novo, ...)`: read the current file, build the
    table and the payload (adding the `sha` only when there is one), upload
    it and map the reply to the returned pair; a request that raises ends
    the save with its exception.
   */
  method SaveToGithub(df: Table, got: GetReply, put: Upload -> PutReply) returns (r: Result<(bool, string), SaveError>)
    requires WellFormed(df) && (Found(got) ==> WellFormed(got.current))
    ensures r == SaveResult(df, got, put)
  {
    if got.GetRaised? {
      return Err(RequestRaised);
    }
    var sha := "";
    var table := df;
    if got.status == 200 {
      sha := got.sha;
      table := Concat(got.current, df);
    }
    var data := Upload(CommitMessage, table, Branch, None);
    if sha != "" {
      data := data.(sha := Some(sha));
    }
    var reply := put(data);
    if reply.PutRaised? {
      return Err(RequestRaised);
    }
    if reply.status == 200 || reply.status == 201 {
      return Ok((true, SavedText));
    }
    var message: string;
    match reply.body {
      case JsonObject(m) =>
        message := if m.Some? then m.value else UnknownErrorText;
      case _ =>
        message := DecodeErrorText;
    }
    r := Ok((false, message));
  }
}
