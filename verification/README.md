# Paris 2024 medal table: ingestion and ranking

A Dafny model of the logic inside `MedalAnalysisApp` (main.py). The desktop
program fetches a medal-table web page and turns its table rows into a frame of
countries with gold, silver, bronze and total counts. It keeps that frame and
its country list box up to date, draws one country's medal chart, and shows the
ten countries with the most medals in total.

The model works on the text the program pulls out of the page: one `Row`
(a `seq<string>` of `<td>` texts) per `<tr>`. Its modules follow the stages
of the program:

- `Results`: `Option` and `Result`, plus `Collect`, a fail-fast loop over
  results that stops at the first exception.
- `Text`: Python's argument-less `str.strip()`, using the exact `str.isspace()`
  character set, and the decimal conversion that `int()` applies to a count
  cell.
- `Medals`: the record (`Country`, `Gold`, `Silver`, `Bronze`, `Total`) and
  the load errors. It also holds the conversion of one row that passed the
  guard, cells read in the program's order.
- `Table`: the whole table. The header row is dropped, rows with fewer than
  four cells are skipped, the rest are converted, and the first failure aborts
  the load. The same pipeline appears twice: as a function (`Ingest`), and as
  the program's loop over four parallel column lists (`LoadTable`). The two are
  proved equal.
- `Ranking`: `nlargest(k, 'Total')`, i.e. the first `k` records of a stable
  sort by total, largest first. It is checked against an independent top-k
  specification (`IsTopK`), which is proved to have exactly one solution.
- `MedalApp`: the stored frame (`medal_data`) and the list box. It covers the
  load step that replaces them only on success, the country chart lookup and
  the analytics view.

Behaviour worth knowing, modelled as the code has it:

- **Four-cell rows.** The row guard is `len(cols) >= 4`, but the loop reads
  `cols[4]`. A row with exactly four cells therefore passes the guard and then
  raises `IndexError`, so the whole load fails rather than the row being
  skipped. Gold and silver are converted before that, so their errors come
  first.
- **Blank versus missing cells.** Only a blank (whitespace-only) count cell
  reads as 0. A missing cell is not read as 0.
- **Empty countries.** The country may be empty; nothing checks it.
- **Duplicate names.** The chart shows the counts of the first row with the
  selected name, so a later row with the same name is never charted.
- **Views before the first load.** Before the first load, both views answer
  "load data first". They do not report "not found".

## Model

| member | source | states |
|---|---|---|
| `Results.CollectSpec` | main.py:57-63 | The row loop's fail-fast shape: the load succeeds exactly when every converted row succeeds, the values come out in row order, and otherwise the error is that of the first failing row |
| `Text.Strip` | main.py:60 | `strip()` returns text with no whitespace at either end, never longer than its input |
| `Text.StripPadded` | main.py:60-63 | `strip()` of any trimmed text surrounded by whitespace returns exactly that text |
| `Text.StripEmptyIffAllSpace` | main.py:61-63 | A cell strips to the empty string exactly when it is whitespace only, which is when `or 0` applies |
| `Text.StripIdempotent` | main.py:60 | Stripping twice is stripping once |
| `Text.ParseDecimal` | main.py:61-63 | The simplified `int()` accepts exactly the non-empty runs of decimal digits and gives a non-negative value |
| `Text.ParseShowNat` | main.py:61-63 | Every count's decimal text converts back to that count |
| `Text.LeadingZeroIgnored` | main.py:61-63 | A leading zero does not change the converted value |
| `Medals.CountCell` | main.py:61-63 | A count cell fails exactly when its stripped text is non-empty and not all digits, with an error naming the medal and the stripped text; otherwise the value is non-negative |
| `Medals.BlankCountIsZero` | main.py:61-63 | A blank or whitespace-only count cell reads as 0 |
| `Medals.CountCellShowNat` | main.py:61-63 | A count written in decimal, with any whitespace around it, reads back as that count |
| `Medals.ParseRow` | main.py:59-63 | A guarded row converts exactly when it has a fifth cell and all three count cells convert; the record's country is the stripped second cell, and its total is the sum of its counts |
| `Medals.ParseRowFields` | main.py:60-72 | Positional mapping: gold, silver and bronze are the values of cells 2, 3 and 4, and the total is their sum |
| `Medals.ParseRowErrors` | main.py:61-63 | Error order within a row: a bad gold cell wins, then a bad silver cell, then the missing fifth cell of a four-cell row, then a bad bronze cell |
| `Medals.ExtraCellsIgnored` | main.py:58-63 | Cells after the fifth never influence the record |
| `Medals.ParseRenderRow` | main.py:60-63 | Round trip: a record with non-negative counts and a trimmed name, written out as a table row, converts back to the same record |
| `Medals.EmptySilverExample` | main.py:62 | The row `1, France, 5, (empty), 3` gives France 5 gold, 0 silver, 3 bronze and a total of 8 |
| `Table.DropHeader` | main.py:56 | The body is every row but the first, in order, and is empty when there are no rows |
| `Table.Qualifying` | main.py:59 | Every kept row has at least four cells, and no rows are added |
| `Table.QualifyingMembers` | main.py:57-59 | A row is kept exactly when it is in the body and has at least four cells |
| `Table.Ingest` | main.py:56-72 | A successful load has at most one record per row after the first, and every record's total is the sum of its counts |
| `Table.IngestRecords` | main.py:57-60 | On success, record `i` is qualifying row `i` converted, and its country is that row's stripped second cell |
| `Table.IngestFirstFailure` | main.py:57-79 | On failure, the error is that of the first qualifying row that does not convert; all earlier rows converted, and none of them is kept |
| `Table.IngestOkIff` | main.py:56-63 | A load succeeds exactly when every row after the first that has at least four cells converts |
| `Table.HeaderIgnored` | main.py:56 | The first row's contents never affect the load |
| `Table.ShortRowSkipped` | main.py:59 | A row after the first with fewer than four cells changes nothing: the load is the same without it |
| `Table.FourCellRowFailsLoad` | main.py:59-63 | A row after the first with exactly four cells makes the whole load fail |
| `Table.InvalidCountFailsLoad` | main.py:61-63 | A count cell that is neither blank nor a number, in any qualifying row after the first, makes the whole load fail |
| `Table.BlankCountsLoadAsZero` | main.py:61-63 | In a loaded record, each count whose cell is whitespace only is 0 |
| `Table.LoadTable` | main.py:51-72 | The loop over four parallel column lists, stopping at the first exception and then adding the `Total` column, computes exactly the functional load; its helper `ConvertCells` is the loop body for one guarded row, with an early exit at each failing cell |
| `Ranking.TopPositions` | main.py:126 | Returns `min(k, n)` record positions in strictly decreasing rank: more medals first, equal totals in table order |
| `Ranking.TopK` | main.py:126 | `nlargest(k, 'Total')` returns `min(k, n)` records, each drawn from the frame, with non-increasing totals |
| `Ranking.TopPositionsMeetSpec` | main.py:126 | The ranking meets the top-k specification: the right count, ranked, and every left-out record ranks below every chosen one |
| `Ranking.TopKUnique` | main.py:126 | The top-k specification has exactly one solution |
| `Ranking.TopKBySpec` | main.py:126 | Any position list meeting the specification is the one `nlargest` returns |
| `Ranking.TopKDominates` | main.py:126 | Every record left out has at most as many medals as every record shown, and strictly fewer than any shown record that comes later in the table |
| `Ranking.TopKWhole` | main.py:126 | When `k` is at least the number of records, the result is a rearrangement of the whole frame |
| `Ranking.SampleTopTwo` | main.py:126 | With totals 10, 20, 20 and 5, the top two are the two 20-medal countries in table order |
| `MedalApp.Fetch` | main.py:41-79 | Any failure leaves the store and list box unchanged and reports the transport or row error. Success stores the loaded frame and reports the number of qualifying rows. The list box keeps mirroring the frame |
| `MedalApp.FetchRestoresValid` | main.py:81-85 | After a successful load the list box shows the frame's countries in row order |
| `MedalApp.FetchIdempotent` | main.py:41-79 | Loading the same page twice leaves the same state as loading it once |
| `MedalApp.MalformedCountKeepsStore` | main.py:61-79 | A malformed count fails the load and keeps the previous store, including no store |
| `MedalApp.InitialState` | main.py:16 | Before the first load the list box is empty and both views answer "load data first" |
| `MedalApp.FindCountry` | main.py:99-106 | Finds the first row whose country equals the name, and reports none exactly when no row has it |
| `MedalApp.CountryChart` | main.py:87-106 | "Load data first" exactly when nothing is stored, then "select a country" exactly when the selection is empty, then "not found" exactly when no stored row has the selected name; otherwise the chart shows the selected name with the counts of the first row that has it |
| `MedalApp.ChartOfSelection` | main.py:93-106 | While the list box mirrors the frame, a selection is always found, and the chart shows the first row with that name, at or before the selected row |
| `MedalApp.DuplicateNamesShareChart` | main.py:98-106 | Selecting either of two rows with the same name draws the same chart |
| `MedalApp.Analytics` | main.py:120-126 | "Load data first" exactly when nothing is stored; otherwise the records at positions meeting the top-10 specification |
| `MedalApp.AnalyticsShape` | main.py:126 | The view shows at most ten stored records in non-increasing order of total, and all of them when there are at most ten |

## Left out

- The HTTP request, its User-Agent header and `raise_for_status` (main.py:42-47) are not modelled. `Fetch` receives their outcome as a parameter: the rows of the page, or the message of the exception.
- The BeautifulSoup parse and the `tr`/`td` discovery (main.py:49, 56-58) are not modelled. The input is the text of every cell of every row, already extracted, with HTML entities already decoded.
- The tkinter widgets, message boxes and windows (main.py:18-37, 76, 79, 90, 95, 113-118, 128-130) are not modelled. The list box is modelled only as the sequence of its entries, and a message box only as the `Notice` or `QueryError` value it would show.
- The matplotlib bar and pie charts and their percentages (main.py:101-111, 132-149) are not modelled, because they are floating-point rendering. A chart is modelled as the name and counts it would plot.
- `Text.ParseDecimal`: `int()` also accepts a sign, underscores between digits and non-ASCII decimal digits. The model accepts only ASCII digits and treats everything else as a conversion failure, so negative counts never arise in it. The record type still holds `int` counts.
- pandas itself is not modelled: the frame is a sequence of records. Column dtypes are left out with it. An empty frame or a count beyond 64 bits gives an `object` column, on which `nlargest` raises instead of ranking.
- Table.LoadTable: counts and totals are unbounded integers, so `WellFormed` (total = gold + silver + bronze) and the ranking by total are promised only while every count and every sum fits in a signed 64-bit integer. In the program the three count columns are `int64` and the `Total` sum at main.py:72 wraps around silently: two counts of 2^62 give a total of -2^63, which `nlargest` ranks last, where the model ranks it first. A count between 2^63 and 2^64 makes its column `uint64`, and the total then becomes a lossy `float64`. A larger count makes it an `object` column, on which `nlargest` raises. Python 3.11 and later also refuse, in `int()`, a digit string longer than 4300 digits, which fails the load; the model loads it.
- Ranking.TopK: ranks by the unbounded totals of the model. Where the program's `int64` total has wrapped around (see the line above), its order differs.
- `Ranking.TopK`: it follows pandas' fast path (stable selection, ties in table order). When `k` is at least the number of records, pandas sorts with numpy's default sort. That sort is not modelled; the model assumes it keeps ties in table order too.
- The multiple-selection case of `curselection()` is modelled only as far as the program uses it: the first selected entry. The widget guarantees that every selected position is an entry of the list box, and `CountryChart` requires that.
- An exception raised by the message box after a successful load (main.py:76) is not modelled.
