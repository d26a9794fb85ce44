/** The spreadsheet API requests `append_batch` sends
    (`_add_columns_request`, `_append_row_request`,
    `_update_headers_request` in google_sheets.py). */
module Requests {
  import opened Cells

  type SheetId = int

  /** `"dimension": "COLUMNS"`, the only dimension the module grows. */
  datatype Dimension = Columns

  /** `{"sheetId": ..., "rowIndex": ..., "columnIndex": ...}` */
  datatype GridCoordinate = GridCoordinate(sheetId: SheetId, rowIndex: int, columnIndex: int)

  /** `{"values": [...]}`: one row of cells. */
  datatype RowData = RowData(values: seq<CellData>)

  datatype Request =
    | AppendDimension(sheetId: SheetId, dimension: Dimension, length: int)
    | AppendCells(sheetId: SheetId, rows: seq<RowData>, fields: string)
    | UpdateCells(rows: seq<RowData>, start: GridCoordinate, fields: string)

  /** The field mask `"*"`: every field of the written cells is replaced. */
  const AllFields: string := "*"

  /** `_add_columns_request`: grow the sheet by `count` columns. */
  function AddColumnsRequest(sheetId: SheetId, count: int): (r: Request)
    ensures r.AppendDimension? && r.sheetId == sheetId && r.dimension == Columns && r.length == count
  {
    AppendDimension(sheetId, Columns, count)
  }

  /** The cells of one row, each value encoded on its own. */
  function EncodeRow(values: seq<Value>, show: Value -> string): RowData
  {
    RowData(seq(|values|, j requires 0 <= j < |values| => Encode(values[j], show)))
  }

  /** The values a row's cell payloads stand for. */
  function DecodeRow(row: RowData): seq<Value>
  {
    seq(|row.values|, j requires 0 <= j < |row.values| => Decode(row.values[j]))
  }

  /** `_append_row_request`: one new row after the sheet's last one, holding
      the values in column order. */
  function AppendRowRequest(sheetId: SheetId, values: seq<Value>, show: Value -> string): (r: Request)
    ensures r.AppendCells? && r.sheetId == sheetId && r.fields == AllFields && |r.rows| == 1
    ensures |r.rows[0].values| == |values|
    ensures forall j :: 0 <= j < |values| ==> Decode(r.rows[0].values[j]) == Shown(values[j], show)
    ensures forall j :: 0 <= j < |values| ==> (r.rows[0].values[j].userEnteredFormat.Some? <==> values[j].Date?)
  {
    EncodeRowDecodes(values, show);
    AppendCells(sheetId, [EncodeRow(values, show)], AllFields)
  }

  /** An encoded row decodes cell by cell to what each value's payload
      stands for, and only a date's cell carries a format. */
  lemma EncodeRowDecodes(values: seq<Value>, show: Value -> string)
    ensures |EncodeRow(values, show).values| == |values|
    ensures forall j :: 0 <= j < |values| ==> Decode(EncodeRow(values, show).values[j]) == Shown(values[j], show)
    ensures forall j :: 0 <= j < |values| ==> (EncodeRow(values, show).values[j].userEnteredFormat.Some? <==> values[j].Date?)
  {
    var row := EncodeRow(values, show);
    forall j | 0 <= j < |values|
      ensures Decode(row.values[j]) == Shown(values[j], show)
    {
      assert row.values[j] == Encode(values[j], show);
      EncodeRoundTrip(values[j], show);
    }
  }

  /** `_update_headers_request`: rewrite the header row from its first cell. */
  function UpdateHeadersRequest(sheetId: SheetId, headers: seq<string>, show: Value -> string): (r: Request)
    ensures r.UpdateCells? && r.start == GridCoordinate(sheetId, 0, 0) && r.fields == AllFields
    ensures |r.rows| == 1
    ensures forall j :: 0 <= j < |r.rows[0].values| ==> r.rows[0].values[j].userEnteredFormat.None?
  {
    UpdateCells([EncodeRow(seq(|headers|, j requires 0 <= j < |headers| => Str(headers[j])), show)],
                GridCoordinate(sheetId, 0, 0), AllFields)
  }

  /** The header names a row of cells stands for: as text, in order. */
  function HeaderNames(row: RowData): seq<string>
  {
    var vs := DecodeRow(row);
    seq(|vs|, j requires 0 <= j < |vs| => if vs[j].Str? then vs[j].s else "")
  }

  /** The header row written decodes to exactly the header list, each cell
      a string payload holding its header. */
  lemma HeadersRoundTrip(sheetId: SheetId, headers: seq<string>, show: Value -> string)
    ensures HeaderNames(UpdateHeadersRequest(sheetId, headers, show).rows[0]) == headers
    ensures DecodeRow(UpdateHeadersRequest(sheetId, headers, show).rows[0])
              == seq(|headers|, j requires 0 <= j < |headers| => Str(headers[j]))
  {
    var row := UpdateHeadersRequest(sheetId, headers, show).rows[0];
    assert |HeaderNames(row)| == |headers|;
    forall j | 0 <= j < |headers|
      ensures HeaderNames(row)[j] == headers[j]
    {
      assert row.values[j] == Encode(Str(headers[j]), show);
    }
  }
}
