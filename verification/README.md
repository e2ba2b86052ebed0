# books_catalog — a Dafny model of the catalogue's data logic

`books_catalog` is a Streamlit app with a few scripts around it. It keeps a
catalogue of books (and, in `test.py`, of trading cards) as a CSV table.
This project models the sequential logic inside those scripts and proves
properties about it. HTTP, HTML, files and the UI are replaced by plain
inputs.

The model covers:

- **Price search** (`utils/helpers.py`, `book_price.py`).
  - Each span text that carries `R$` keeps only its digits and commas.
  - Each comma becomes a point, and the text is read as a decimal.
  - Texts that `float()` rejects are skipped.
  - The prices are averaged and rounded to the cent.
  - `buscar_preco` searches with a publisher filter first, then by title only.
    When both pages were fetched but neither has a price, it gives 0.
  - `buscar_preco_medio` makes one title-only search and gives nothing when
    there is no price.
  - The search URLs, and the percent-encoding `quote` applies to them.
- **Enrichment pass** `adicionar_preco_medio`.
  - Verified rows (`preco_correto == 'yes'`) come first and are unchanged.
  - The other rows follow, each with a new price column.
  - Exact duplicate rows are then removed, keeping the first.
- **Batch script** of `book_price.py`: one search per title, in row order,
  stored as the column `preco_medio_estante_virtual`.
- **ISBN metadata** (`book_data.py`, repeated verbatim at `test.py:25-109`).
  - The Open Library and BrasilAPI replies are mapped to a seven-field record.
  - `buscar_dados` tries the providers in turn.
  - `processar_planilha` skips known ISBNs, looks up the rest in sheet order,
    appends them after the existing rows, and writes nothing when nothing is
    new.
- **GitHub save** `salvar_csv_em_github` (`test.py`).
  - When the file exists, its rows are followed by the new ones.
  - The `sha` is sent only when there is one.
  - The upload's reply is mapped to `(success, message)`.
- **Excel card import** (the "Import File" tab of `test.py`).
  - Rows without a key are dropped, and the key is normalised.
  - Rows are grouped by (colecao, numero). `padrao` and `foil` are summed;
    every other column takes its first non-missing value.
  - The details dictionary is filled in order, so the last card with a key
    wins.
  - The details are attached to the groups.
- **Card manager** (the "Book Manager" tab of `test.py`): the left merge of
  the catalogue with the edited quantities on (numero, colecao), the save,
  and the notice shown afterwards.
- **File-name slug** `formatar_nome_arquivo`: modelled from the accent-folded
  title onward.

Modelling choices:

- A table is a set of column names plus a sequence of rows. A row maps each
  column to a cell: text, an integer, a number, or missing (NaN).
  - `pd.concat` pads missing columns with NaN.
  - Column order is not modelled.
- A fetch is a function parameter. It maps a URL to a transport failure, or
  to a status plus the texts of the page's `R$` spans.
- The provider replies, the GitHub replies and the exchange rate are also
  parameters.
- Where the code raises, the model returns an error value:
  - a missing column in `adicionar_preco_medio` (`KeyError`), or a frame
    assigned to the new column when no row is left to price (`ValueError`);
  - a provider request that fails, or a sheet column named like a record
    field, which makes `pd.DataFrame` of the new rows fail, in
    `processar_planilha`;
  - a GitHub request (the read or the upload) that raises in
    `salvar_csv_em_github`.

In these places the model follows the code, not what its names suggest:

- A provider whose request fails, or whose 200 reply is not JSON, raises.
  That ends the whole import; it is not treated as "no data".
  - `raise_for_status` fails on statuses 400-599 only.
- `buscar_preco` fetches both pages before reading either. It gives nothing
  when either request fails, and 0 when no price is found.
- `adicionar_preco_medio` removes exact duplicate rows only, keeping the
  first. There is no keep-last de-duplication by key, anywhere.
- `salvar_csv_em_github` appends without de-duplicating. No duplicate add is
  refused.
- pandas' `first` aggregation skips missing values.

## Model

| member | source | states |
|---|---|---|
| Text.Strip | book_data.py:75 | the result neither starts nor ends with whitespace and is never longer than the input |
| Text.StripRemovesOnlySpace | book_data.py:75 | the result is a contiguous slice of the input, and everything cut off at either end is whitespace |
| Text.StripKeeps | utils/helpers.py:108 | a text already without surrounding whitespace is left unchanged |
| Text.LowerChar | utils/helpers.py:20-21 | an upper-case ASCII letter becomes the letter 32 code points further, its lower-case form; no upper-case letter results; every other character is kept |
| Text.Lower | utils/helpers.py:20-21 | same length, and each character is lower-cased on its own |
| Text.ReplaceChar | utils/helpers.py:21 | same length; every occurrence of the old character becomes the new one and every other character is kept |
| Text.JoinSplitRoundTrip | book_data.py:19-20 | joining names with ", " and splitting at the separator gives back the names when none contains a comma |
| Text.NatTextValue | test.py:372 | the decimal text of a natural number reads back as that number |
| Text.IntTextInjective | test.py:372 | two integers with the same text are equal |
| Tables.Concat | utils/helpers.py:88 | the columns are the union; the first table's rows, then the second's, each keeping its cells and padded with NaN |
| Tables.ConcatOntoEmpty | book_data.py:68 | concatenating onto the empty frame gives the second table unchanged |
| Tables.CellText | book_data.py:66 | `astype(str)`: a text cell is its own text, and a missing cell is "nan" |
| Tables.IntCellTextInjective | test.py:372 | integer cells with the same text are equal |
| Tables.DropDuplicates | utils/helpers.py:88 | no repeats remain, every value of the input is still present, and nothing new appears |
| Tables.DedupFromAppend | utils/helpers.py:88 | removing duplicates from `a + b` keeps deduplicated `a` in front, then what `b` adds beyond `a` |
| Tables.InDropDuplicatesRight | utils/helpers.py:88 | every value of the second part survives de-duplication of the concatenation |
| Tables.DropDuplicatesIdempotent | utils/helpers.py:88 | de-duplicating twice equals de-duplicating once |
| Tables.DropDuplicateRows | utils/helpers.py:88 | same columns, no more rows, no repeated row, and exactly the input's rows as a set |
| PriceText.KeepDigitsAndCommas | utils/helpers.py:49 | only digits and commas remain |
| PriceText.KeepDigitsAndCommasCounts | utils/helpers.py:49 | every digit and comma of the text is kept, as often as it occurs |
| PriceText.NormalizeFragment | utils/helpers.py:49-51 | the normalised text holds only digits and points |
| PriceText.NormalizeFragmentCounts | utils/helpers.py:49-51 | it has one point per comma of the span and every digit of it |
| PriceText.FragmentPrice | utils/helpers.py:49-51 | a price read from a span is never negative |
| PriceText.ParseDecimal | utils/helpers.py:51 | a value read from digits and points is never negative; `ParseDecimalAccepts` and `ParseWithPoint` say when it is read and what it reads |
| PriceText.ParseDecimalAccepts | utils/helpers.py:51 | `float()` accepts a digits-and-points text exactly when it has a digit and at most one point; without a point its value is the integer read |
| PriceText.ParseWithPoint | utils/helpers.py:51 | `whole.fraction` reads as the whole part plus the fraction over its power of ten |
| PriceText.FragmentPriceConverts | utils/helpers.py:49-55 | a span yields a price exactly when it holds a digit and at most one comma |
| PriceText.ParsedPrices | utils/helpers.py:46-55 | the prices read from a page's spans; characterised by `ParsedPricesFaithful` |
| PriceText.ParsedPricesFaithful | utils/helpers.py:47-55 | every span that converts contributes its price; every price comes from a span that converts; none is lost unless a span is rejected |
| PriceText.ExtractPrices | utils/helpers.py:46-55 | the loop's list equals the prices of the converting spans, in order |
| PriceText.MeanWithinRange | book_price.py:29 | the mean of prices within [lo, hi] lies within [lo, hi] |
| PriceText.Round2 | utils/helpers.py:69 | within half a cent of its argument, a whole number of cents, and non-negative for a non-negative argument |
| PriceText.AveragePrice | book_price.py:28-30 | nothing exactly when there are no prices |
| PriceText.AveragePriceBounds | book_price.py:28-29 | the rounded mean lies within [min, max] up to half a cent |
| PriceText.AveragePriceNonNegative | book_price.py:28-29 | the rounded mean of non-negative prices is non-negative |
| Quoting.Quote | utils/helpers.py:20 | the result is made of unreserved characters and `%XX` escapes and is never shorter |
| Quoting.QuoteSafe | utils/helpers.py:20 | a text of unreserved characters is left unchanged |
| Quoting.QuoteAppend | utils/helpers.py:20 | quoting works character by character |
| Quoting.QuoteRoundTrip | utils/helpers.py:20 | decoding the escapes gives back the UTF-8 bytes of the input |
| Quoting.QuoteInjective | utils/helpers.py:20 | texts with the same quoted form have the same UTF-8 bytes |
| Helpers.SecondaryUrl | utils/helpers.py:20-30 | the title-only search URL; `UrlQueries` and `UrlParams` give its parameters |
| Helpers.PrimaryUrl | utils/helpers.py:20-26 | the search URL with the publisher filter; `UrlShape`, `UrlQueries` and `UrlParams` give its shape and parameters |
| Helpers.UrlShape | utils/helpers.py:24-30 | the publisher URL is the title URL followed by `&editora=<publisher>`, so the title URL is a strict prefix of it |
| Helpers.UrlQueries | utils/helpers.py:20-30 | the two URLs are the search page with the parameters (q, searchField) and (q, searchField, editora) |
| Helpers.UrlParams | utils/helpers.py:20-30 | splitting the query at `&` gives back the three parameters: the lower-cased quoted title, the search field, and the lower-cased, hyphenated, quoted publisher |
| Helpers.JoinParamsSplit | utils/helpers.py:24-30 | parameters without `&` are recovered by splitting their join at `&` |
| Helpers.QuotedHasNoAmpersand | utils/helpers.py:20-21 | a quoted value contains no `&` |
| Helpers.EstimatePrice | utils/helpers.py:18-79 | `buscar_preco` returns the two-tier price of the replies to the publisher URL and the title URL |
| Helpers.TieredPrice | utils/helpers.py:32-79 | the two-tier price of two replies; characterised by `TieredPriceOutcome`, `TieredPricePrimaryWins` and `TieredPriceFallback` |
| Helpers.TieredPriceOutcome | utils/helpers.py:32-43 | nothing exactly when either request failed, even if the other succeeded; otherwise a non-negative price, 0 when no span converts on either page |
| Helpers.TieredPricePrimaryWins | utils/helpers.py:68-71 | with publisher-page prices, the result is their rounded mean whatever the title page holds, within [min, max] up to rounding |
| Helpers.TieredPriceFallback | utils/helpers.py:72-79 | with no publisher-page price, the rounded mean of the title-page prices, or 0 when it has none either |
| Helpers.PageAverageNonNegative | utils/helpers.py:68-76 | the rounded mean of a page's prices is never negative |
| Helpers.VerifiedRows | utils/helpers.py:80 | exactly the rows marked `yes` are kept |
| Helpers.UnverifiedRows | utils/helpers.py:81 | exactly the rows not marked `yes` are kept |
| Helpers.PartitionCounts | utils/helpers.py:80-81 | the two parts together hold every row exactly as often as the table |
| Helpers.PriceCell | utils/helpers.py:83-86 | a price becomes a number cell and no price becomes NaN |
| Helpers.PricedRow | utils/helpers.py:83-86 | the row gains the price column and keeps every other cell |
| Helpers.PricedRows | utils/helpers.py:83-86 | one priced row per row, in order |
| Helpers.SearchRow | utils/helpers.py:84 | the lambda's result is the two-tier price for the row's title and publisher |
| Helpers.SearchRows | utils/helpers.py:83-86 | one search per row, in row order |
| Helpers.PriceRows | utils/helpers.py:83-86 | the searched prices, assigned as the column, give the priced rows |
| Helpers.MissingLookup | utils/helpers.py:84 | a column is reported missing exactly when `title`, `year` or `publisher` is absent |
| Helpers.Enriched | utils/helpers.py:80-90 | a `KeyError` naming `preco_correto` when it is absent; a `KeyError` naming the first missing lookup column when some row is unverified; with no unverified row and a lookup column missing, a `ValueError` exactly when the table has two or more columns; otherwise a table |
| Helpers.AddAveragePrice | utils/helpers.py:80-90 | the pass computes `Enriched`: its errors in the same cases, or the enriched table |
| Helpers.EnrichedRows | utils/helpers.py:88 | the result is the de-duplicated sequence of padded verified rows followed by priced unverified rows |
| Helpers.EnrichedShape | utils/helpers.py:80-90 | the input's columns plus the price column, never more rows than the input, no repeated row, and the verified rows first |
| Helpers.VerifiedRowKept | utils/helpers.py:80-88 | every verified row is in the result with all its cells, padded with NaN in the new price column |
| Helpers.UnverifiedRowPriced | utils/helpers.py:81-88 | every unverified row is in the result with its own searched price |
| Helpers.EnrichedKeepsEveryRow | utils/helpers.py:80-88 | no row is lost: each verified row is kept as is and each other row is priced |
| Helpers.AsciiOnly | utils/helpers.py:104 | only ASCII characters remain |
| Helpers.UnderscoreOthers | utils/helpers.py:108 | every character other than a letter, digit, `_` or `-` becomes `_`, and the others are kept |
| Helpers.CedillaReplaceIsNoOp | utils/helpers.py:104-106 | after the ASCII step the cedilla replacements change nothing |
| Helpers.Slug | utils/helpers.py:100-108 | the slug holds only lower-case ASCII letters, digits, `_` and `-`, and is never longer than the title |
| Helpers.SlugKeeps | utils/helpers.py:100-108 | a text of slug characters is its own slug |
| Helpers.SlugIdempotent | utils/helpers.py:100-108 | applying the slug twice equals applying it once |
| BookPrice.TitleUrl | book_price.py:8 | the title-only search URL; `TitleUrlInjective` states that it tells titles apart |
| BookPrice.TitleUrlInjective | book_price.py:8 | different titles (as UTF-8) give different search URLs |
| BookPrice.FetchAveragePrice | book_price.py:7-30 | `buscar_preco_medio` returns nothing on a failed request, else the rounded mean of the page's prices |
| BookPrice.SearchPrice | book_price.py:10-30 | the price `buscar_preco_medio` gives for a reply; characterised by `SearchPriceOutcome` |
| BookPrice.SearchPriceOutcome | book_price.py:10-30 | nothing exactly when the request failed or no span converts; otherwise non-negative and within [min, max] up to rounding |
| BookPrice.SearchPriceVersusTiered | book_price.py:28-30 | on the same page, no price gives nothing here where `buscar_preco` gives 0; with prices both agree |
| BookPrice.FirstNonText | book_price.py:37-38 | the index of the first title that is not text, or nothing when all are text |
| BookPrice.AveragedTable | book_price.py:36-43 | a `KeyError` without `titulo`; the first non-text title as a `TypeError`; a table whenever `titulo` is present and every title is text, with the input's columns plus the price column and one row per input row |
| BookPrice.TitlePrices | book_price.py:36-39 | one search result per title, in row order |
| BookPrice.SearchTitles | book_price.py:36-41 | the loop's list equals the per-title results, or it stops at the first title that is not text |
| BookPrice.AverageAll | book_price.py:35-43 | the batch computes the averaged table |
| BookPrice.AveragedTableRows | book_price.py:36-43 | each row keeps every other cell and gets the result of the search for its own title |
| BookData.RecordRow | book_data.py:48-56 | a record has exactly the seven fields |
| BookData.OpenLibraryRecord | book_data.py:5-25 | a record from Open Library has source "Open Library" and the cover URL for the ISBN |
| BookData.BrasilRecord | book_data.py:27-41 | a record from BrasilAPI has source "BrasilAPI" and no cover |
| BookData.OpenLibraryCounts | book_data.py:12-15 | a record exactly on a 200 whose `ISBN:<isbn>` entry is non-empty; an error exactly when the request fails or a 200 body is not JSON |
| BookData.BrasilCounts | book_data.py:29-31 | a record on every 200 with a JSON body; an error exactly when the request fails or a 200 body is not JSON |
| BookData.NamesReadBack | book_data.py:19-20 | the authors joined with ", " by either provider split back into the same list |
| BookData.EmptyRecord | book_data.py:48-56 | every field is missing |
| BookData.Resolve | book_data.py:43-56 | the lookup's result, asking BrasilAPI only when Open Library gave nothing |
| BookData.Resolved | book_data.py:43-56 | a resolved record names Open Library, BrasilAPI or no source |
| BookData.ResolvedOrder | book_data.py:43-47 | Open Library's record wins; else BrasilAPI's record, else the empty record; the source is one of the two or missing |
| BookData.IsbnKey | book_data.py:75 | the key neither starts nor ends with whitespace and is never longer than the cell's text |
| BookData.KnownIsbns | book_data.py:64-66 | the known set is exactly the texts of the existing ISBN cells: each is in it, and nothing else is |
| BookData.SheetRows | book_data.py:74-75 | each sheet row paired with its stripped ISBN text, in order |
| BookData.Unknown | book_data.py:74-78 | never more pending rows than sheet rows; `UnknownSound` and `UnknownComplete` characterise it exactly |
| BookData.UnknownSound | book_data.py:76 | every pending row is a sheet row whose ISBN is not known |
| BookData.UnknownComplete | book_data.py:76-78 | every sheet row whose ISBN is not known is pending |
| BookData.UnknownKeepsAll | book_data.py:66-78 | with no ISBN known, every row is pending, repeated ISBNs included |
| BookData.UnknownAppend | book_data.py:74-78 | filtering two parts of the sheet gives the two filtered parts in order |
| BookData.WithRecord | book_data.py:78 | the row's labels plus the seven record fields; each record field holds the record's value; every other cell of the sheet row is kept |
| BookData.LookUpAll | book_data.py:74-78 | on success, one new row per pending row |
| BookData.LookUpAllOk | book_data.py:77 | the lookups succeed exactly when each pending ISBN resolves |
| BookData.LookUpAllRows | book_data.py:77-78 | each new row is its sheet row with the record resolved for its ISBN |
| BookData.LookUpAllStops | book_data.py:77 | the first failed lookup ends the pass, whatever follows |
| BookData.ImportStep | book_data.py:74-78 | one iteration of the loop extends the result for the next sheet row |
| BookData.ImportRow | book_data.py:75-78 | the loop body skips a known ISBN and otherwise looks it up and appends the row |
| BookData.ImportStops | book_data.py:77 | a failure at one row is the outcome of the whole import |
| BookData.AddedRowsShape | book_data.py:84 | the new rows all have the sheet's columns plus the record fields |
| BookData.ProgressMarksExact | book_data.py:80-81 | progress is reported at exactly the counts that are a multiple of 20 or the total, in increasing order |
| BookData.Imported | book_data.py:58-61 | a sheet without `isbn` is rejected before anything else |
| BookData.CollectRows | book_data.py:71-81 | the loop gives the looked-up pending rows, and on success the progress marks |
| BookData.ImportSheet | book_data.py:58-89 | `processar_planilha` computes the import's outcome |
| BookData.Base | book_data.py:64-69 | the existing table or the empty frame is well formed |
| BookData.ImportedOutcome | book_data.py:58-89 | the import succeeds exactly when every pending ISBN resolves and, if any ISBN is pending, no sheet column is named like a record field; nothing is written exactly when nothing is pending |
| BookData.ImportedRows | book_data.py:83-86 | one new row per pending row, in order, each its sheet row plus its record |
| BookData.AppendedRows | book_data.py:84-85 | the written table holds the existing rows unchanged, then the new rows in order |
| BookData.ImportedWithoutFile | book_data.py:67-86 | without a file the written table is just the new rows |
| GithubSave.UploadFor | test.py:119-141 | the uploaded table is well formed |
| GithubSave.UploadContents | test.py:119-141 | when the file exists, its rows then the new rows, both kept, with no de-duplication; otherwise the new table; `sha` sent exactly when found and non-empty |
| GithubSave.SaveOutcome | test.py:145-152 | success exactly on 200 or 201; otherwise the API's message, "Erro desconhecido", or the decode-error text |
| GithubSave.SaveResult | test.py:119-152 | an error exactly when the read raises or the upload of the payload raises; otherwise the flag is true exactly on 200 or 201 |
| GithubSave.SaveToGithub | test.py:111-152 | `salvar_csv_em_github` computes `SaveResult`: the raised request, or the pair for the upload's reply |
| CardImport.Kept | test.py:370 | never more rows than the sheet |
| CardImport.KeptSound | test.py:370 | every kept row is a sheet row with both key cells |
| CardImport.KeptComplete | test.py:370 | every sheet row with both key cells is kept |
| CardImport.NormalizeRow | test.py:371-374 | the row gains `padrao` and `foil` when absent |
| CardImport.Prepared | test.py:369-374 | a `KeyError` exactly when a key column is missing; otherwise the sheet's columns plus `padrao` and `foil` |
| CardImport.PreparedRows | test.py:370-374 | one row per kept row: `colecao` lower-cased text, `numero` text, quantities defaulting to 1 and 0, and other cells unchanged |
| CardImport.FirstPresent | test.py:379 | the first row of the group with a value in the column, or nothing when all are missing |
| CardImport.KeyFirst | test.py:379 | missing exactly when every row of the group is missing there; otherwise the value of the group's first row that has one |
| CardImport.KeysOf | test.py:376 | exactly the keys of the rows |
| CardImport.GroupRow | test.py:376-380 | the merged row has the table's columns |
| CardImport.Grouped | test.py:376-380 | one group per key present |
| CardImport.GroupedFirst | test.py:379 | a group takes its first row's value when present, and is missing only when all its rows are |
| CardImport.GroupedCell | test.py:379 | every other column of a group holds the first present value of its rows |
| CardImport.GroupedSums | test.py:377-378 | each group's `padrao` and `foil` are the sums over its rows |
| CardImport.KeySumsTotal | test.py:377-378 | with every key listed once, the per-key sums add up to the column total |
| CardImport.GroupedTotals | test.py:376-378 | over all groups the summed quantities equal the column total: grouping loses and invents nothing |
| CardImport.ImportedCards | test.py:369-380 | an error exactly when preparing fails; every group has the sheet's columns plus the quantities |
| CardImport.ImportedKeys | test.py:370-380 | the groups are exactly the normalised keys of the sheet rows that have both key cells |
| CardImport.ImportedKeysSound | test.py:370-380 | every group key comes from a sheet row with both key cells |
| CardImport.ImportedKeysComplete | test.py:370-380 | every sheet row with both key cells has its normalised key among the groups |
| CardImport.PreparedKeys | test.py:370-372 | each prepared row's key is the normalised key of its kept row |
| CardImport.OrElse | test.py:403 | the first image unless it is missing or empty, else the second |
| CardImport.BrlPrice | test.py:391-394 | a missing USD price counts as 0; otherwise within half a cent of price times rate; never negative for non-negative inputs |
| CardImport.Details | test.py:390-412 | one card's detail entry; characterised by `DetailsFields` |
| CardImport.DetailsFields | test.py:390-412 | the entry's name, second face, image fallback and prices as the card gives them |
| CardImport.EntryRow | test.py:399-412 | an entry has exactly the twelve detail fields |
| CardImport.DetailsMap | test.py:389-412 | the details dictionary after the loop; characterised by `DetailsMapKeys` and `DetailsMapLastWins` |
| CardImport.DetailsMapKeys | test.py:389-399 | the dictionary holds exactly the keys of the cards fetched |
| CardImport.DetailsMapLastWins | test.py:389-399 | for a repeated key, the last card with it wins |
| CardImport.BuildDetails | test.py:389-412 | the fill loop gives the details dictionary |
| CardImport.NoDetails | test.py:414-418 | the missing details have exactly the detail fields |
| CardImport.Attached | test.py:414-418 | every group is kept |
| CardImport.AttachedCells | test.py:414-418 | each group keeps its cells; it gets its entry's fields when there is one, and missing fields otherwise; with no entry at all nothing changes |
| CardManager.CellOf | test.py:443 | the row's cell, missing when the row lacks the column |
| CardManager.MergeKey | test.py:443-444 | the (numero, colecao) pair a row is merged on, a missing cell matching a missing one; `MatchesExact` states its use |
| CardManager.Matches | test.py:442-446 | never more matches than edited rows |
| CardManager.MatchesExact | test.py:442-446 | the matches are exactly the edited rows with the same (numero, colecao) |
| CardManager.MatchesUnique | test.py:442-446 | with unique edited keys, at most one match, and none exactly when no edited row has the key |
| CardManager.MergedRows | test.py:442-446 | one row per match, or one row when there is none |
| CardManager.LeftMerge | test.py:442-446 | never fewer rows than the catalogue: no row is lost |
| CardManager.LeftMergeAppend | test.py:442-446 | merging two parts of the catalogue gives the two merged parts in order |
| CardManager.LeftMergeBlock | test.py:442-446 | each catalogue row's block appears in place, in catalogue order |
| CardManager.MergedRowsCells | test.py:442-446 | merged rows keep every non-quantity cell; the quantities come from an edited row with the key, or are missing when none matches |
| CardManager.LeftMergeUnique | test.py:442-446 | with unique edited keys, one row per catalogue row, in order |
| CardManager.UniqueLength | test.py:442-446 | with unique edited keys, the length is kept |
| CardManager.LeftMergeDuplicates | test.py:442-446 | two edited rows with a catalogue row's key make the result longer than the catalogue |
| CardManager.Managed | test.py:429-446 | nothing exactly when an editor column is missing; otherwise the catalogue's columns |
| CardManager.ManagedRows | test.py:442-446 | with unique edited keys, every catalogue row in order with its other cells, and quantities from its edited row or missing |
| CardManager.NoticeAsWritten | test.py:447-453 | as written, the notice is never "Error.": a completed save shows "Changes saved!" and a raised request "Data not found." |
| CardManager.NoticeAsWrittenHidesFailure | test.py:447-451 | as written, a rejected upload (status 422) still shows "Changes saved!" |
| CardManager.Notice | test.py:447-453 | "Changes saved!" exactly when the save completed with the flag true; a raised request shows "Data not found." |
| CardManager.NoticeReportsFailure | test.py:447-451 | testing the flag shows "Changes saved!" exactly when both requests complete and the upload gets 200 or 201 |
| CardManager.SaveAppendsWholeTable | test.py:442-447 | as written, saving the loaded file appends the merged catalogue to it, so every card is listed twice |
| CardManager.AppendedTwice | test.py:119-129 | appending a copy of the file to the file lists each row twice |
| CardManager.ReplaceUpload | test.py:447 | the uploaded table is the merged one; `sha` is sent exactly when the file has one |
| CardManager.ManagerSaveReplaces | test.py:442-447 | replacing the file lists each card once, in order, keeping its other cells |
| PriceExamples.KeepThousands | utils/helpers.py:49 | a currency prefix and a thousands point are deleted |
| PriceExamples.CommaToPoint | utils/helpers.py:51 | the decimal comma becomes the point |
| PriceExamples.ThousandsPrice | utils/helpers.py:49-51 | `R$ 1.234,56`-shaped spans read as the thousands and hundreds digits plus the cents |
| PriceExamples.CommaPrice | utils/helpers.py:49-51 | `R$ 20,50`-shaped spans read as whole plus cents |
| PriceExamples.ThousandsSeparatorExample | utils/helpers.py:49-51 | "R$ 1.234,56" is 1234.56 |
| PriceExamples.ParsedPricesPair | utils/helpers.py:47-55 | two converting spans give both prices, in order |
| PriceExamples.TwoSpansExample | book_price.py:20-29 | "R$ 10,00" and "R$ 20,50" give [10.00, 20.50] and the price 15.25 |

## Left out

- HTTP, HTML and I/O are left out: `requests` and its headers and timeouts,
  BeautifulSoup and the `R$` regex, `read_csv`/`read_excel`/`to_csv`, base64,
  `print` and `time.sleep`. A fetch is a parameter that gives a failure or a
  status with the span texts; the provider and GitHub replies are parameters
  too.
- Floating point is left out. Prices are reals.
  - `Round2` rounds half up to the cent; only its half-cent bound and sign
    are relied on. Python's `round` of a binary float is not modelled.
  - `FloatText` writes a number with at most 17 fraction digits. It is not
    Python's shortest `repr`.
- The USD rate is a parameter, because `get_usd_to_brl` is not part of this
  model. `buscar_detalhes_em_lote` and `dividir_em_lotes` are not part of it
  either: the fetched cards are an input sequence.
- `unicodedata.normalize("NFKD")` is left out. `Helpers.Slug` starts from the
  folded title.
  - `\w` is taken as ASCII. Only ASCII remains at that point anyway.
- `Text.Lower` folds the ASCII letters `A`-`Z` only, where `str.lower()`
  folds every cased Unicode letter. It also builds the search URLs
  (utils/helpers.py:20-21), so a title or publisher with an upper-case
  accented letter gives a different URL in the model.
- `PriceText.KeepDigitsAndCommas` keeps the ASCII digits only, where the
  pattern `\d` (utils/helpers.py:49) also matches other Unicode decimal
  digits.
- Column order and the sorted key order of `groupby` are not modelled. The
  grouped table is a map from key to row.
- In `processar_planilha`, a sheet column named like a record field gives
  duplicate labels. `pd.DataFrame` of the new rows then fails, and the model
  returns `DuplicateLabels`.
- `CardImport.Attached`: duplicate column labels collapse into one. After
  `pd.concat(axis=1)`, a detail column that the sheet already has appears
  once, with the detail's value.
- `iterrows` upcasting of mixed-type rows is not modelled.
- `CardImport.ImportedCards`: quantities are assumed to be integers or
  missing (`IntegerQuantities`). Float and text quantities, and pandas' float
  NaN sums, are not modelled.
- `CardManager.Managed`: the `astype(int)` of the quantities
  (test.py:431-432) is not modelled. On a file with a missing quantity it
  raises, and the tab shows "Data not found."; the model keeps the quantity
  missing instead. A new row added in the editor matches no catalogue row,
  so it is dropped, as a left merge drops it.
- `CardManager.ManagedRows`, `LeftMergeUnique`, `SaveAppendsWholeTable` and
  `ManagerSaveReplaces` assume unique (numero, colecao) keys among the
  edited rows. With repeated keys the merge adds rows, which
  `LeftMergeDuplicates` states.
- `Quoting.Quote` keeps `/` and the unreserved characters and
  percent-encodes the UTF-8 bytes of everything else. Python's handling of
  lone surrogates is not modelled.
- `BookData.CollectRows` states the progress marks only for an import that
  completes. A failed lookup raises before the remaining marks are printed.
- The `sha` of an existing file is a non-empty text or `""`. A JSON `null`
  `sha` is the empty case.
- Everything else in `app.py` and `test.py` is UI and is left out: sorting,
  filters, charts (`gerar_grafico_barra`), `autenticar` and forms.
  - The "Collection" tab (test.py:182-262) only reads and displays the
    catalogue.
  - The "Wish List" tab has no code.
- The "Add Book" tab (test.py:271-362) is not modelled. It does not add a
  single row. Both of its branches pass the local catalogue followed by the
  new card to the appending `salvar_csv_em_github`:
  - the manual branch at test.py:351-357;
  - the code-search branch at test.py:313-318.
  So each card already in the file is uploaded twice, the same defect as the
  second row under "## Findings". Only the card manager's site of it is
  modelled.
- `test.py:154-177` repeats `book_price.py:7-30` and is never called in
  `test.py`. It is covered by `BookPrice.FetchAveragePrice`.
- `test.py:25-109` repeats `book_data.py:5-89` line for line. It is covered
  by the `BookData` module.

## Findings

| source | as written | input that shows it | evidently intended | confidence | as-written member | corrected member |
|---|---|---|---|---|---|---|
| test.py:447-451 (also test.py:318-322, in the `modo == "Buscar por código"` branch, which never runs because the radio offers only "Manual" and "Search by code", test.py:274-276) | `sucesso = salvar_csv_em_github(...)` binds the whole `(bool, str)` pair, and `if sucesso:` tests a non-empty tuple, which is always true | an upload rejected with status 422: the function returns `(False, msg)` and the tab shows "Changes saved!" | unpack the pair as the other tabs do (`sucesso, mensagem = ...`) and show the error when the flag is false | high, not executed | CardManager.NoticeAsWrittenHidesFailure | CardManager.NoticeReportsFailure |
| test.py:442-447 with test.py:119-129 | the card manager passes the whole merged catalogue to `salvar_csv_em_github`, which appends it to the file already on GitHub | a catalogue of n rows loaded from the file and saved unchanged: the uploaded file has 2n rows, each card twice | the edited catalogue replaces the file | medium, not executed | CardManager.SaveAppendsWholeTable | CardManager.ManagerSaveReplaces |
