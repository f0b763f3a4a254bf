# Packing-list aggregation, modelled in Dafny

The LC_index backend totals shipment line items. Each item is a record with
`ITEM`, `MODEL`, `QTY/CTN`, `CTNS`, `NW` and `GW`. The logic exists twice:

- **The API version** (`src/routes/sheets.py`) works on dictionaries.
  - `process_data` writes `TOTAL = QTY/CTN * CTNS`, `TOTAL NW = CTNS * NW` and `TOTAL GW = CTNS * GW`, but only where both sources are present.
  - `sort_and_subtotal` stable-sorts the records by `ITEM` (a missing `ITEM` counts as `''`). It files them into buckets labelled by `ITEM` (a missing `ITEM` becomes `'Unknown'`). It then totals seven numeric fields per bucket and over everything. A field appears in a total only when some row carries it.
  - `parse_excel_file` turns a worksheet into such records.
- **The offline pandas version** (`data_structure.py`) works on a frame.
  - It derives the three columns on every line.
  - It builds one interleaved report: each item's lines in ascending item order, each item followed by an `"<ITEM> Subtotal"` row, and a single `"Grand Total"` row at the end. Four columns are summed.
- **The permission rule** `require_level` (`src/routes/user.py`) ranks `user`, `admin` and `developer` as 1, 2 and 3. Any other level counts as 1. A caller passes when their rank reaches the required rank.

The modules:

| file | module | what it holds |
|---|---|---|
| `values.dfy` | `Values` | cell values (`Num`, `Text`, `Null`), records as maps, `Result`, truthiness |
| `strings.dfy` | `Strings` | Python's `<` on `str`, `sub in s`, `str.strip()` |
| `sorting.dfy` | `Sorting` | `sorted(..., key=...)` as a stable insertion sort, and its uniqueness |
| `sheets_derive.dfy` | `SheetsDerive` | the API's `process_data` |
| `sheets_summary.dfy` | `SheetsSummary` | the API's `sort_and_subtotal` |
| `sheets_parse.dfy` | `SheetsParse` | the cell rules of `parse_excel_file` |
| `frame_report.dfy` | `FrameReport` | the pandas `process_data` and `sort_and_subtotal` |
| `agreement.dfy` | `Agreement` | the two versions compared on the same lines |
| `access.dfy` | `Access` | the rank check of `require_level` |

pandas' `sort_values` is not stable. The report lemmas therefore hold for every
`Arrangement`: any reordering of the rows that is ascending by `ITEM`. The
script's own construction is a filter per unique item. It is proved equal to a
single pass over the runs of a sorted frame (`FrameReport.BlocksAreRuns`), and
the shape, data, subtotal and total lemmas are proved about that pass.

Records without a usable `ITEM` are sorted and labelled by two different
defaults. A record whose `ITEM` is the empty string is filed under the label
`''`, not under `'Unknown'`. A record without `ITEM` sorts first, under the key
`''`, rather than where `'Unknown'` would sort, yet it is filed under
`'Unknown'` together with any record whose `ITEM` is literally `"Unknown"`
(`SheetsSummary.MissingItemQuirk`).

## Model

| member | source | states |
|---|---|---|
| Strings.BelowTrichotomy | src/routes/sheets.py:24 | two strings are equal or ordered one way round, never both ways, as Python's `<` on `str` orders them |
| Strings.AtMostTotalOrder | src/routes/sheets.py:24 | `<=` on strings is reflexive, total, antisymmetric and transitive, which `sorted` relies on |
| Strings.ContainsOccurrence | src/routes/sheets.py:89 | `sub in h` holds exactly when `sub` occurs in `h` at some index |
| Strings.Strip | src/routes/sheets.py:72 | `str.strip()` leaves a string that neither starts nor ends with whitespace |
| Strings.StripIsSlice | src/routes/sheets.py:95 | `str.strip()` returns a slice of its input with only whitespace cut off before and after it |
| Strings.StripIdempotent | src/routes/sheets.py:95 | stripping twice gives the same text as stripping once |
| Sorting.StableSort | src/routes/sheets.py:24 | `sorted` returns its input ascending by key, as a permutation, and the rows of each key keep their input order |
| Sorting.StableSortCharacterised | src/routes/sheets.py:24 | any ascending sequence that keeps each key's rows in input order is exactly the stable sort, so the sort is fully determined |
| Sorting.HavingPermutation | data_structure.py:39 | reordering rows reorders, but does not change, the rows of each key |
| SheetsDerive.ProcessRow | src/routes/sheets.py:11-18 | each of `TOTAL`, `TOTAL NW`, `TOTAL GW` is the product of its two sources when both are present and is otherwise left as it was (not added, not zeroed); every other field is unchanged; a present non-number source pair is the `TypeError` case |
| SheetsDerive.ProcessData | src/routes/sheets.py:9-19 | the call succeeds exactly when every record does; the result has the same length and order, record by record |
| SheetsDerive.ProcessRowIdempotent | src/routes/sheets.py:13-18 | deriving a derived record again changes nothing, since no derived field is a source |
| SheetsDerive.ProcessDataIdempotent | src/routes/sheets.py:9-19 | `process_data` applied twice equals applied once |
| SheetsDerive.PartialDerivationExamples | src/routes/sheets.py:13-14 | `QTY/CTN` alone derives no `TOTAL`; `QTY/CTN` 10 with `CTNS` 5 derives `TOTAL` 50 |
| SheetsSummary.TotalsRule | src/routes/sheets.py:45-48 | a total has field `f` exactly when `f` is one of the seven numeric fields and some row carries `f` at all; its value is the sum of the numbers `f` holds, so missing and non-numeric values add nothing |
| SheetsSummary.TotalsPermutation | src/routes/sheets.py:45-56 | totals depend only on which rows there are, not on their order |
| SheetsSummary.GroupRowsPartition | src/routes/sheets.py:34-39 | the buckets have distinct labels and are non-empty; each holds exactly the rows of its label in `data` order; every row's label has a bucket; together they hold `data` as a multiset |
| SheetsSummary.SortAndSubtotal | src/routes/sheets.py:21-59 | `data` is the stable sort by `ITEM` (missing as `''`), a permutation of the input; there is one subtotal per label, every row's label has one, and each totals exactly the input rows of its label; the grand total totals every row |
| SheetsSummary.GrandTotalIsSumOfSubtotals | src/routes/sheets.py:42-57 | the grand total has a field exactly when some subtotal has it, and then equals that field summed over the subtotals |
| SheetsSummary.EmptyTotals | src/routes/sheets.py:52-57 | no input gives no data, no subtotals and an empty grand total; the grand total is empty exactly when no row carries a numeric field |
| SheetsSummary.MissingItemQuirk | src/routes/sheets.py:24-36 | a row without `ITEM` sorts before every row with a non-empty `ITEM`, yet is filed under `'Unknown'` together with rows whose `ITEM` is literally `"Unknown"` |
| SheetsParse.NumericHeaderOccurrence | src/routes/sheets.py:89 | a header is numeric exactly when it is `QTY/CTN`, `CTNS`, `NW` or `GW`, or has `QTY`, `WEIGHT` or `TOTAL` at some position |
| SheetsParse.HeaderExamples | src/routes/sheets.py:89 | `TOTAL NW`, `GROSS WEIGHT` and `QTY/CTN` are numeric; `ITEM`, `MODEL` and lower-case `qty` are not |
| SheetsParse.Convert | src/routes/sheets.py:90-93 | a cell in a numeric column becomes a number: the value of `float(v)` when `str(v)` has a dot and of `int(v)` otherwise, and 0 when that conversion raises |
| SheetsParse.ConvertTruthy | src/routes/sheets.py:91-104 | a converted cell counts as data for the row test exactly when the conversion chosen by the dot test succeeds with a non-zero number |
| SheetsParse.CellKinds | src/routes/sheets.py:86-101 | a present cell of a numeric column holds its conversion; a present cell of any other column holds `str(v)` with only the surrounding whitespace cut off, so it is text that neither starts nor ends with whitespace; a missing or `None` cell gives a falsy default (0 or `''`) |
| SheetsParse.FillSpec | src/routes/sheets.py:84-101 | a record's keys are exactly the header names, and each name holds the value read for its last header, so a repeated header keeps its last column |
| SheetsParse.ParseRowsExactly | src/routes/sheets.py:79-105 | the records are those of the rows with a truthy raw cell whose record has a truthy value, one record per such row, in sheet order: the `t`-th record is the record of the `t`-th kept row |
| SheetsParse.BlankRowTestMatters | src/routes/sheets.py:81-104 | the raw-row test is not implied by the record test: a row holding only `0` would give the truthy text `"0"` but is skipped |
| SheetsParse.ParseSheet | src/routes/sheets.py:61-110 | the parse fails with "no headers" exactly when no cell of the first row is truthy; otherwise it returns one record per kept data row, in sheet order, each read with the headers over their own columns and each holding a truthy value |
| SheetsParse.ParseSheetAsWritten | src/routes/sheets.py:61-110 | the same failure rule; otherwise one record per kept data row, in sheet order, each read with the headers numbered by `enumerate` over the kept header cells |
| SheetsParse.NoHeadersExactly | src/routes/sheets.py:69-76 | the header list is empty exactly when no cell of the first row is truthy |
| SheetsParse.HeadersAgreeWithoutBlanks | src/routes/sheets.py:69-86 | with no falsy cell in the header row, numbering the kept headers pairs each with its own column |
| SheetsParse.ReadsOwnColumn | src/routes/sheets.py:84-101 | with headers aligned to their columns, each field holds the value of the column its header stands over |
| SheetsParse.BlankHeaderMisaligns | src/routes/sheets.py:69-85 | as written, a falsy header cell before a truthy one moves that header left: the header over column `k` is read from a column `i < k` |
| SheetsParse.BlankHeaderShiftsColumns | src/routes/sheets.py:69-91 | as written, a blank header cell shifts later headers onto the wrong column (`CTNS` reads the cell under the blank header) |
| FrameReport.ProcessFrame | data_structure.py:30-35 | every line gets all three derived columns with the fixed formulas; the line count is unchanged |
| FrameReport.SubtotalLabels | data_structure.py:48-66 | two subtotal rows share the label `ITEM + ' Subtotal'` exactly when they are for the same item, so each item's lookup finds its own sums |
| FrameReport.SumRowsPermutation | data_structure.py:42-57 | column sums do not depend on row order |
| FrameReport.BlocksAreRuns | data_structure.py:62-67 | on a sorted frame, one filter per unique item gives the same rows as a single pass over the runs of equal items |
| FrameReport.SortAndSubtotalReport | data_structure.py:37-71 | the report of the stably sorted frame: its data rows are that frame, each item's lines are followed by its subtotal, items ascend, each subtotal holds its item's four column sums, and it ends with the grand total of all rows; its length is rows + distinct items + 1 |
| FrameReport.ReportShape | data_structure.py:37-71 | every report row may follow the one above it: an item's lines stay together, end with that item's subtotal, and items ascend; the report does not open with a subtotal, ends with the grand total of all rows, and has one row per input row, one per distinct item, and one more |
| FrameReport.ReportData | data_structure.py:39-67 | the report's data rows are the sorted frame: every input row once, ascending by `ITEM` |
| FrameReport.ReportSubtotals | data_structure.py:42-67 | there is one subtotal row per distinct item, in strictly ascending order; each holds the four column sums of that item's rows, and together they add up to the grand total |
| FrameReport.ArrangementsAgree | data_structure.py:39 | the unstable sort changes only the order of lines within an item: the subtotals, the grand total and the length are the same |
| Agreement.DerivationsAgree | data_structure.py:30-35 | the API's `process_data` on a frame line's record gives the record of the frame's derived row |
| Agreement.TotalsAgree | src/routes/sheets.py:52-57 | on frame records the API's grand total has all seven fields once there is a row, and its four summed columns equal the frame's sums |
| Agreement.SortsAgree | src/routes/sheets.py:24 | the API's `data` is the frame's stable sort, record by record |
| Agreement.SubtotalsAgree | src/routes/sheets.py:42-49 | each item's API subtotal has the frame's group sums in the four summed columns |
| Access.Rank | src/routes/user.py:38-39 | ranks are 1 to 3; exactly `developer` has 3 and exactly `admin` has 2; every other level has 1 |
| Access.Check | src/routes/user.py:35-45 | 401 exactly for a caller without `current_user`; for an account, 403 exactly when its rank is below the required rank and the handler runs otherwise |
| Access.CheckIsTable | src/routes/user.py:38-43 | the rank comparison agrees with the table written out level by level: `developer` admits developers, `admin` admits admins and developers, anything else admits everybody |
| Access.DeveloperPassesAll | src/routes/user.py:38-43 | a developer passes every level check |
| Access.Monotone | src/routes/user.py:42 | passing is kept by every caller of at least the same rank and for every requirement of at most the same rank |
| Access.UnknownRequirementAdmitsAll | src/routes/user.py:39-42 | a required level outside the table lets every account through |
| Access.AnonymousRejectedFirst | src/routes/user.py:35-36 | a caller without `current_user` gets 401 whatever level is required |

## Findings

| source | as written | input that shows it | evidently intended | confidence | as-written member | corrected member |
|---|---|---|---|---|---|---|
| src/routes/sheets.py:69-86 | falsy header cells are skipped, but `enumerate(headers)` reads header `i` from column `i` | header row `ITEM`, blank, `CTNS` over data row `A`, `x`, `5`: `CTNS` reads `x` and stores 0, and the 5 is lost | each header reads the column it stands over | medium, not executed | SheetsParse.BlankHeaderMisaligns | SheetsParse.ReadsOwnColumn |

`SheetsParse.ParseSheetAsWritten` is the parser as written. `SheetsParse.ParseSheet` is the parser with aligned headers. The two agree when the header row has no blank cell (`SheetsParse.HeadersAgreeWithoutBlanks`). `SheetsParse.BlankHeaderShiftsColumns` works the example of the table through both parsers.

## Left out

- Flask plumbing is not modelled: routes, `request`, `jsonify`, HTTP bodies and JSON key order. `Access.Check` returns only which response is given (401, 403, the handler, or the `AttributeError` raised when `current_user` is `None`).
- Access.Check: models `require_level` alone. Every route in `src/routes/user.py` stacks it under `require_auth` (lines 191-193), whose bare `except:` (lines 25-26) turns the `AttributeError` of a vanished user into a 401, so `Crash` is not the response the application sends.
- `require_auth`, sessions, tokens, expiry, password hashing and the database models are not modelled. `current_user` is a parameter of `Access.Check`.
- The document endpoints of `src/routes/sheets.py` and `test_app.py` are left out. They only echo validated input or check `/health`.
- The unused `header_config` parameters are left out.
- openpyxl loading is left out. `SheetsParse` receives the header row and the data rows as sequences of cells. Python's truthiness, `str()`, `int()` and `float()` on a cell are passed in as `Builtins`, because their behaviour belongs to Python and the cell type.
- SheetsParse.ParseSheet: exceptions other than "no headers" are not modelled. That covers a workbook that fails to load and a conversion raising something other than `ValueError` or `TypeError`. `parse_excel_file` wraps all of them into the same `ValueError`.
- Floating-point rounding is left out. Quantities and weights are `real`, and `int` and `float` both become `Num`.
- Python's `bool` counting as a number in sums is left out. Records hold no booleans.
- SheetsDerive.ProcessRow: a present source pair that is not two numbers is the `TypeError` case. Python would instead repeat a string multiplied by an `int`, which the model does not do.
- SheetsDerive.ProcessData: Python mutates the records in place. When a later record raises, earlier records stay derived. The model returns only the error.
- SheetsSummary.SortAndSubtotal: requires every present `ITEM` to be text. Python raises `TypeError` when `sorted` compares text with a number, and mixed item types are outside the model.
- FrameReport.SortAndSubtotal: uses the stable sort as one possible `sort_values` result (`FrameReport.SortAndSubtotalReport`). pandas promises no particular order within an item, so the report lemmas are stated for every `Arrangement` instead.
- pandas NaN handling, dtypes and index resetting are left out. The frame is a sequence of typed rows, and every column is present on every line.
