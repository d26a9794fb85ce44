# google_sheets.py: header reconciliation for batched spreadsheet appends

This project models the client-side core of `GoogleSheetAppender.append_batch`.
A batch of rows is appended to the sheets of one spreadsheet. Each row is a
target sheet id plus a mapping of field names to values. The model covers the
steps that run after the sheets' header rows have been fetched:

- Each row's items are flattened. A mapping value becomes one `field[sub]`
  item per entry.
- Each flat item is matched by name against the sheet's header list, and an
  unknown name is appended as a new column. The sheet's header list is
  shared by all rows of the batch and grows as they are processed.
- Each row becomes a list of cells aligned with the header positions. Blank
  strings fill the columns the row does not write.
- Values are encoded as the API's `CellData`.
- The requests are assembled: for every sheet that gained columns, an
  `appendDimension` and an `updateCells` of its full header row come first.
  Then one `appendCells` follows per row. Nothing is sent when there is no
  request.

Modules, one per concern of `google_sheets.py`:

- `Wrappers`: `Option` and `Result`.
- `Cells`: the row value type (Python's `bool` is a kind of `int`, which the
  dispatch order of `_extended_value` has to respect). It also holds the cell
  encoding and `Decode`, the value a cell payload stands for.
- `Flattening`: `_flatten_values`.
- `Columns`: alignment of one row against a header list. This is the body of
  the per-row loop.
- `Requests`: `_add_columns_request`, `_append_row_request`,
  `_update_headers_request`.
- `Batch`: the per-row loop over the batch, the `new_headers` bookkeeping,
  the header requests, request ordering and the `batch_update` guard.

Inputs that come from outside the module are parameters:

- The fetched header rows: a map from sheet id to `seq<string>`.
- Python's `str()` for values no type test claims: a function
  `show: Value -> string`, passed where `append_batch` passes the time zone.

## Model

| member | source | states |
|---|---|---|
| Cells.Encode | google_sheets.py:51-80 | strings become `stringValue`. Booleans become `boolValue` and never `numberValue`, although `isinstance(True, int)` holds. Ints and floats become `numberValue` with the same number. A date becomes a `numberValue` counting days from 1899-12-30 with the `DATE` format, and only a date carries a format. Anything else becomes the `stringValue` of its `str()` |
| Cells.EncodeRoundTrip | google_sheets.py:51-80 | the encoding loses nothing for a string, boolean, number or date: the cell payload stands for the same value. For a mapping or other object the payload stands for the string `str()` gives for it |
| Cells.EncodeDetermined | google_sheets.py:51-80 | a cell is fixed by what its payload stands for and by whether it carries a format: every cell that decodes to what a value shows as, and is formatted exactly when the value is a date, is that value's encoding |
| Flattening.FlattenConcat | google_sheets.py:40-48 | flattening handles each item on its own: it distributes over concatenation of item lists |
| Flattening.FlattenItem | google_sheets.py:40-48 | item `k`'s output starts where the previous items' output ends. A non-mapping item passes through unchanged. A mapping gives one `field[sub]` item per entry, in order, with the entry's value untouched, so a nested mapping is not expanded further |
| Flattening.Flatten | google_sheets.py:40-48 | the flat list has one item per plain value plus one per entry of each mapping value |
| Flattening.FlattenScalars | google_sheets.py:40-48 | a row without mapping values flattens to itself |
| Columns.IndexOf | google_sheets.py:186-187 | `list.index` finds the first position holding the name, or reports the name absent exactly when no position holds it |
| Columns.Place | google_sheets.py:184-195 | one field of a row: a name the headers hold keeps the header list and the names added. A name they lack is appended to both. Either way the first column of that name then holds the value, and every other cell is unchanged |
| Columns.Merge | google_sheets.py:180-195 | after a row is aligned, the header list is the old list followed by exactly the names the row added, so nothing is removed or reordered. There is one cell per header |
| Columns.MergeCells | google_sheets.py:181-195 | the aligned cells, all of them: a column holds the row's value for its name when it is the first column of that name. If the row names the field twice, the later value wins. Every other column holds `""` |
| Columns.MergeAdded | google_sheets.py:186-192 | the names a row adds are exactly its fields missing from the header list. Each is added once, in the order the fields first occur in the row |
| Columns.MergePlacesFields | google_sheets.py:181-195 | every field of the row has a column, and that column's cell holds the field's value. Columns the row does not write stay `""` |
| Requests.AddColumnsRequest | google_sheets.py:83-90 | an `appendDimension` of the given sheet along `COLUMNS` whose length is the requested number of columns |
| Requests.AppendRowRequest | google_sheets.py:93-107 | an `appendCells` for the given sheet with field mask `*` and a single row. The row has one cell per value, and each cell's payload stands for its value (for the `str()` text of mappings and other objects). A cell carries a format exactly when its value is a date |
| Requests.UpdateHeadersRequest | google_sheets.py:110-128 | an `updateCells` starting at row 0, column 0 of the sheet, with mask `*` and a single row of unformatted cells |
| Requests.HeadersRoundTrip | google_sheets.py:110-128 | the header row written by `updateCells` decodes to exactly the header list: cell `j` is a string payload holding header `j`, never a boolean or number |
| Batch.Record | google_sheets.py:192 | `setdefault(...).append` adds the row's new names to the end of that sheet's list and leaves other sheets' lists unchanged. A sheet enters the dict's order when it first gains a name. The dict keeps one entry per sheet, and only for sheets that gained a name |
| Batch.Step | google_sheets.py:180-199 | one row of the loop fails with `KeyError` exactly when its sheet has no header list. Otherwise the set of sheets stays the same and exactly one `appendCells`, for the row's sheet, is added after the earlier row requests |
| Batch.StepEffect | google_sheets.py:180-199 | one row changes only its own sheet. That sheet's headers grow at the end, the names they gain are appended to its `new_headers` entry, and its `appendCells` has one cell per header the sheet then has |
| Batch.Run | google_sheets.py:179-199 | the per-row loop succeeds exactly when every row's sheet was fetched. Otherwise it fails with the `KeyError` of the first row whose sheet was not fetched. On success it leaves one `appendCells` per row, in batch order, for that row's sheet |
| Batch.RunConsistent | google_sheets.py:179-199 | loop invariant: each sheet's headers are the fetched ones followed by the names recorded for it in `new_headers`. Those names are distinct and none was among the fetched headers |
| Batch.HeaderRequests | google_sheets.py:202-207 | two requests per sheet of `new_headers`, in the dict's order: an `appendDimension` as long as the names the sheet gained, then an `updateCells` of its header list. None of them is an `appendCells` |
| Batch.Assemble | google_sheets.py:209-217 | the request list is the header requests followed by the row requests. An update is sent exactly when the list is non-empty, and it asks for neither the spreadsheet nor grid data in the response |
| Batch.AppendBatch | google_sheets.py:179-224 | `append_batch` fails exactly when some row's sheet was not fetched. Otherwise it calls `batch_update` exactly when the batch is non-empty |
| Batch.RequestOrder | google_sheets.py:209-217 | every header request comes before every `appendCells`. There is exactly one `appendCells` per batch row, in batch order, each for its row's sheet |
| Batch.PlanHeaders | google_sheets.py:186-192 | each sheet's final headers are its fetched headers followed by the names it gained. No gained name repeats or was already there. A sheet is in `new_headers` exactly when it gained a name, and only once |
| Batch.HeaderRequestsPerSheet | google_sheets.py:202-207 | for the k-th sheet of `new_headers`, the update starts with an `appendDimension` whose length is the number of names the sheet gained. An `updateCells` of the sheet's full final header list follows it |
| Batch.RunPrefix | google_sheets.py:179-199 | processing more rows only extends the row requests and each sheet's headers: earlier results are never changed |
| Batch.RowsSeeEarlierColumns | google_sheets.py:179-199 | row `i` is aligned against its sheet's headers as earlier rows left them, a prefix of the final list. The headers after aligning the row are a prefix of the final list as well. So a name an earlier row added is matched and not added again. The row's `appendCells` is that alignment's cells |
| Batch.RowCells | google_sheets.py:179-217 | each row's `appendCells` lines up with its sheet's final header row, although later rows may add columns: the cell under the first final column of each of the row's fields stands for the field's value (its last one) and has a date format exactly when that value is a date, every other cell of the row is an unformatted `""`, and the row is no wider than the final header list |

## Left out

- Credential loading, `read_sheet`, `GoogleSheetAppender.__init__`, `open_by_key`, `fetch_sheet_metadata`, `values_batch_get` and the `batch_update` call (google_sheets.py:14-31, 132-134, 143-147, 161-171, 218-224) are network and client-library calls. The fetched header rows are an input map, and the model returns the update it would send.
- The sheet-title lookup and the `set()` of sheet ids (google_sheets.py:149-158) only feed the header fetch. A sheet id missing from the spreadsheet raises `KeyError` there, at line 158, before any row is processed.
- Batch.Run: with several unknown sheets, the model reports the first row's sheet. `append_batch` raises at line 158 for whichever unknown id comes first in set iteration order, which is unspecified.
- Cells.Encode: the `datetime` branch (google_sheets.py:58-69) is not modelled, because it needs time-zone conversion and floating-point division. A `datetime` is not a `Value` of the model.
- Cells.Encode: dates are day ordinals (0001-01-01 is day 1), so the calendar itself is not modelled. Floats are real numbers, so NaN and infinities are not modelled.
- Cells.EncodeRoundTrip: states what the request's cell payload stands for, not what the spreadsheet stores. The service keeps every number as a double, so an `int` beyond 2^53 is not kept exactly and an `int` and a `float` of equal value cannot be told apart once stored.
- Cells.Encode: the text `str()` gives for a mapping or another object is the parameter `show`, because rendering Python objects is not part of this module.
- `DADict` and `dict` are one mapping type here. Mapping keys and field names are strings, so formatting non-string keys into `field[sub]` is not modelled.
