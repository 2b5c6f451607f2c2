# stock-dune-uploader, modelled in Dafny

`upload_to_dune.py` fetches end-of-day prices for a fixed list of tickers
from the MarketStack API, page by page. It builds a gap-free daily series per
ticker by forward-filling the last known close. It appends a copy of every
row under the ticker name with `.d` appended. It then cleans the column names
and posts the frame as CSV to Dune.

This project models the four pieces of that script that carry logic. It
proves what each of them guarantees.

- `frames.dfy` (module `Frames`) holds the shared values.
  - A row is `(date, symbol, close)`. Dates are day numbers. Closes are
    `Option<V>` over an opaque price type, and `None` stands for pandas' NaN.
  - The predicate `UniqueKeys` says there is at most one row per
    `(date, symbol)`.
- `market_stack.dfy` (module `MarketStack`) models `fetch_symbol_data`. It is
  a method with the source's `while True` loop.
  - The HTTP request is a parameter: a function from page offset to response,
    where a response has a status and an optional `"data"` list.
  - The method's contract ties the rows to `Collected`, which is the rows of
    every page before the first stopping page. Lemmas then characterise
    `Collected`.
- `reconcile.dfy` (module `Reconcile`) models `fill_missing_dates` as
  functions:
  - the day range;
  - the date-major grid of days by symbols;
  - the left merge;
  - the per-symbol forward-fill, as one pass that carries the latest close of
    each symbol.

  The main theorem compares every output cell with an independent reference,
  `LatestObserved`: the close of the latest day, from the start date up to
  that cell's day, on which the fetched data has a close for that symbol.
  `today` is a parameter.
- `variant.dfy` (module `Variant`) models `add_d_variant`.
- `columns.dfy` (module `Columns`) models the column-name clean-up at line 83.

Three facts about the script shape the model:

- every run fetches from `START_DATE`;
- the grid starts at `START_DATE` for every symbol;
- days before a symbol's first close stay in the output with a missing close.

## Model

| member | source | states |
|---|---|---|
| MarketStack.Collected | upload_to_dune.py:35-52 | Every collected row is a row of some page, before the bounding page, that came back 200. |
| MarketStack.FetchSymbolData | upload_to_dune.py:29-61 | The requests go to offsets 0, 100, 200, … in that order. The last request made is the first that ends paging (`EndsPaging`: the status is not 200, or `PageRows`, the "data" list read as empty when absent, has no rows). The result holds, in order, every row of the earlier pages. Each row is stamped with the requested symbol and keeps its date and close. If no rows were collected, the result is empty. |
| MarketStack.CollectedIsPagesBeforeFirstStop | upload_to_dune.py:35-52 | The collected rows are the in-order concatenation of the pages before the first stopping page. Each of those pages came back 200 and non-empty, so rows from pages before a failing page are kept. |
| MarketStack.CollectedIgnoresLaterPages | upload_to_dune.py:42-49 | Responses after the first stopping page are never read. Two sources that agree up to that page give the same rows. |
| MarketStack.CollectedIndependentOfBound | upload_to_dune.py:35-52 | The rows collected do not depend on which later stopping page is used to bound the loop. |
| MarketStack.CollectedSuffix | upload_to_dune.py:35-52 | From page k on, the collected rows are the concatenation of pages k up to the first stopping page. |
| Reconcile.Days | upload_to_dune.py:65-67 | The day range from start to today has today - start + 1 days, or none when start is after today. |
| Reconcile.DaysAt | upload_to_dune.py:67 | Day i of the range is start + i. |
| Reconcile.DaysPrefix | upload_to_dune.py:67 | The first d days of the range are the range ending on day start + d - 1. |
| Reconcile.Grid | upload_to_dune.py:68 | The product of days and symbols has one cell per pair. |
| Reconcile.GridPrefix | upload_to_dune.py:68 | The grid of the first d days is a prefix of the whole grid. |
| Reconcile.GridAt | upload_to_dune.py:68 | The grid is date-major and symbol-minor. Cell j of day d comes right after the cells of the earlier days, and it is (day d, symbol j). |
| Reconcile.GridMembers | upload_to_dune.py:68 | Every cell's date is in the range and its symbol is in the list. |
| Reconcile.GridUnique | upload_to_dune.py:68 | For strictly increasing days and distinct symbols, no grid cell repeats. |
| Reconcile.Lookup | upload_to_dune.py:70 | A matched close is the close of a fetched row with that date and symbol. |
| Reconcile.LeftJoin | upload_to_dune.py:70 | The left merge keeps one row per grid cell. |
| Reconcile.LookupSound | upload_to_dune.py:70 | With no fetched row of that date and symbol, the cell's close is missing. The other direction, that a matched close comes from such a row, is `Lookup`'s own ensures. |
| Reconcile.LookupFinds | upload_to_dune.py:70 | With one row per key, the merge finds each fetched row's own close. |
| Reconcile.LeftJoinPrefix | upload_to_dune.py:70 | Merging a prefix of the grid gives the same prefix of the merged grid. |
| Reconcile.LeftJoinConcat | upload_to_dune.py:70 | The merge works cell by cell, so it distributes over concatenation. |
| Reconcile.ForwardFill | upload_to_dune.py:71 | The forward-fill keeps the number of rows. |
| Reconcile.ForwardFillKeeps | upload_to_dune.py:71 | The forward-fill never changes a row's date or symbol, and it never replaces an observed close. |
| Reconcile.ForwardFillFrom | upload_to_dune.py:71 | A missing close takes the latest close of the same symbol among the earlier rows, falling back to the carried-in map. |
| Reconcile.GroupForwardFillAt | upload_to_dune.py:71 | Row i of the filled frame keeps its own close if present. Otherwise it takes the latest close of its symbol among rows 0 .. i-1, or stays missing if there is none. |
| Reconcile.ForwardFillSameSymbol | upload_to_dune.py:71 | Forward-fill never mixes symbols: a filled close comes from an earlier or same row of the same symbol. |
| Reconcile.LastCloseAbsent | upload_to_dune.py:71 | With no row of the symbol, there is no close to carry. |
| Reconcile.LastCloseConcat | upload_to_dune.py:71 | The latest close over p + q is q's if q has one, and otherwise p's. |
| Reconcile.LastCloseSource | upload_to_dune.py:71 | A carried close is the close of some row of that symbol. |
| Reconcile.LastCloseAfterRemember | upload_to_dune.py:71 | Carrying one row into the map and then scanning the rest is the same as scanning from that row. |
| Reconcile.BlockLastClose | upload_to_dune.py:68-70 | Within one day's cells, symbol j occurs once. So its latest close there is that day's merged close, and none before its cell. |
| Reconcile.GridLastClose | upload_to_dune.py:68-71 | Over the merged grid of the days from start to last, the latest close of a symbol is `LatestObserved` up to last. |
| Reconcile.JoinedPrefixLastClose | upload_to_dune.py:68-71 | Before cell (d, j), the symbol's latest close is the one over whole days 0 .. d-1. |
| Reconcile.JoinedCellKey | upload_to_dune.py:68-70 | Merged cell (d, j) is day d and symbol j, with the close the merge finds. |
| Reconcile.JoinedCell | upload_to_dune.py:68-71 | Before merged cell (d, j), the symbol's latest close is `LatestObserved` up to the day before. |
| Reconcile.PrefixLastClose | upload_to_dune.py:67-71 | Over the first d days of the merged grid, the symbol's latest close is `LatestObserved` up to day start + d - 1. |
| Reconcile.FilledCell | upload_to_dune.py:71 | Given the latest earlier close of a row's symbol, the forward-filled row keeps its own close or takes that one. |
| Reconcile.FilledGridCell | upload_to_dune.py:65-71 | `FillMissingDatesAt`, with the cell's position given as the length of the earlier days' grid plus j. |
| Reconcile.JoinedGridCell | upload_to_dune.py:67-71 | Merged cell (d, j) is day start + d and symbol j, with the close the merge finds. Before it, the symbol's latest close is `LatestObserved` up to the day before. |
| Reconcile.FillMissingDates | upload_to_dune.py:63-72 | The output has one row per day of the range and symbol of the list. Its contents are given by `FillMissingDatesAt`. |
| Reconcile.FillMissingDatesAt | upload_to_dune.py:63-72 | Output row d·n + j is day start + d for symbol j. Its close is the latest observed close of that symbol from the start date up to that day. So a matched day keeps its own close, and an unmatched day takes the latest earlier close. With no earlier close, the row is present with a missing close. |
| Reconcile.LatestObservedSource | upload_to_dune.py:70-71 | A filled close is the close of a fetched row of the same symbol, dated between the start and that day. |
| Reconcile.LatestObservedNone | upload_to_dune.py:71 | A cell's close is missing if and only if no fetched row of that symbol has a close from the start date up to that day. |
| Reconcile.LatestObservedIsLatest | upload_to_dune.py:71 | The filled close is the close of the latest day with one: later days without a close do not change it. |
| Reconcile.FillMissingDatesShape | upload_to_dune.py:65-70 | The output has |days|·n rows, and none when start is after today. Its keys are exactly the grid, in date-major, symbol-list order. Every row is in range and has a listed symbol. |
| Reconcile.FillMissingDatesCovers | upload_to_dune.py:65-70 | Every (day, symbol) pair of the range has a row in the output. |
| Reconcile.FillMissingDatesUnique | upload_to_dune.py:65-70 | For distinct symbols, the output has at most one row per (date, symbol). Together with `FillMissingDatesCovers`, that is exactly one row per pair of the grid. |
| Reconcile.Relevant | upload_to_dune.py:70 | The fetched rows kept are exactly those that lie in the grid: each kept row is an in-grid fetched row, and every in-grid fetched row is kept. |
| Reconcile.UniqueKeysTail | upload_to_dune.py:70 | Dropping the first row keeps keys unique. |
| Reconcile.RelevantUnique | upload_to_dune.py:70 | Filtering fetched rows keeps keys unique. |
| Reconcile.RelevantLookup | upload_to_dune.py:70 | For any grid cell, the merge finds the same close after the filtering. |
| Reconcile.FillIgnoresRowsOutsideGrid | upload_to_dune.py:68-70 | Fetched rows dated outside [start, today], or for an unlisted symbol, contribute nothing. Dropping them leaves the output unchanged. |
| Reconcile.GridCell | upload_to_dune.py:68 | `from_product` in closed form: position k of the grid is day k / n of the range with symbol k % n of the list, where n is the number of symbols. |
| Reconcile.FilledLatestObserved | upload_to_dune.py:70-71 | Reading the filled output as input gives the same latest observed closes as the original input. |
| Reconcile.FillMissingDatesIdempotent | upload_to_dune.py:63-72 | Filling an already-filled frame again changes nothing. |
| Variant.AddDVariant | upload_to_dune.py:74-78 | The output is twice the input's length, and its first half is the input. Entry n + i, the copy `DCopy` makes of input row i, is that row with ".d" appended to the symbol, its date and close unchanged. |
| Variant.AddDVariantRoundTrip | upload_to_dune.py:76-78 | Every symbol of the second half ends in ".d". Stripping that suffix gives back the input exactly. |
| Variant.SuffixInjective | upload_to_dune.py:77 | Two symbols that are equal after ".d" is appended were equal before. |
| Variant.SuffixAppended | upload_to_dune.py:77 | A symbol with ".d" appended ends in ".d". |
| Variant.AddDVariantKeepsKeysUnique | upload_to_dune.py:74-78 | If the input has one row per key and no symbol already ends in ".d", so does the output. |
| Variant.PreparedRowsUnique | upload_to_dune.py:115-118 | The filled grid for distinct symbols, none ending in ".d", followed by its ".d" copy, has one row per (date, symbol). |
| Columns.LowerChar | upload_to_dune.py:83 | Lower-casing maps a capital to its small letter (code + 32), keeps every other character, and never yields a capital. |
| Columns.ReplaceSpaces | upload_to_dune.py:83 | Replacing spaces keeps the length, and it puts '_' exactly where there was a space. |
| Columns.Lower | upload_to_dune.py:83 | Lower-casing a name lower-cases each character and keeps the length. |
| Columns.NormalizeColumn | upload_to_dune.py:83 | The cleaned name has the same length and contains no space and no capital. Each character is '_' where the name had a space, and the lower-case of the name's character elsewhere. |
| Columns.NormalizeColumns | upload_to_dune.py:83 | Every column name is cleaned, in column order. |
| Columns.NormalizeFixesExactlyClean | upload_to_dune.py:83 | A name is left unchanged if and only if it has no space and no capital. |
| Columns.NormalizeIdempotent | upload_to_dune.py:83 | Cleaning a name twice is the same as cleaning it once. |
| Columns.CleanColumnsUnchanged | upload_to_dune.py:83 | A list of already-clean names is left as it is. |
| Columns.UploadedColumnsUnchanged | upload_to_dune.py:83 | The uploaded columns date, symbol and close keep their names. |

## Left out

- HTTP GET to MarketStack and POST to Dune, JSON decoding, the printed
  messages and the upload status check (lines 42-47, 86-106). They are network
  and console I/O. The MarketStack response is a parameter of the fetch.
- MarketStack.FetchSymbolData: requires some page that ends paging. The
  script's `while True` has no page cap, so it never ends when the service
  ignores `offset` or never answers with a non-200 or empty page. The model
  does not cover that non-terminating run.
- The URL's query parameters (access key, `date_from`, symbol) are not
  modelled. The source function is understood to answer for the requested
  symbol and start date.
- Reading the API keys from the environment and the start-up errors
  (lines 20-26) are configuration I/O.
- Date parsing with `pd.to_datetime`, the `astype(float)` coercion and the CSV
  serialisation (lines 58, 60, 86-88) are library behaviour. Dates are day
  numbers and prices are opaque; a JSON null close is `None`.
- `datetime.now(timezone.utc)` (line 66) is a clock read, so `today` is a
  parameter.
- Reconcile.FillMissingDates: requires at most one fetched row per (date,
  symbol). pandas' left merge repeats grid rows on duplicate keys, and that
  row multiplication is not modelled.
- Reconcile.FillMissingDatesAt: the cell-by-cell theorem, and the lemmas
  built on it, assume a symbol list without repeats. `SYMBOLS` has none. The
  function itself accepts any list.
- Columns.LowerChar: lower-cases ASCII capitals only. Python's `str.lower()`
  also maps non-ASCII capitals, and Unicode case mapping is not modelled.
- The top-level composition (lines 110-122) is left out as a method. In
  particular, `pd.concat` of the per-symbol frames when every fetch came back
  empty is left out: the frame then has no columns and pandas' merge raises a
  KeyError. The model's `FillMissingDates` given no rows returns the grid with
  every close missing. The composition of `fill_missing_dates` and
  `add_d_variant` is covered by `Variant.PreparedRowsUnique`.
- Assigning `df.columns` in place on the caller's frame (line 83) is modelled
  only as the per-name mapping `Columns.NormalizeColumns`.
