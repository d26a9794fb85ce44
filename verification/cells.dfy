/** Row values and their encoding as the spreadsheet API's `CellData`
    (`_extended_value` in google_sheets.py). */
module Cells {
  import opened Wrappers

  /** The payload of a `numberValue`: a Python `int` or a `float`, the
      latter modelled as a real number. */
  datatype Num = IntNum(i: int) | FloatNum(x: real)

  /** A value that can appear in an appended row.
      `Date` carries the proleptic Gregorian ordinal of the day (as
      `date.toordinal()` gives it: 0001-01-01 is day 1). `Dict` is a
      mapping (a `dict` or a `DADict`) as its items in iteration order.
      `Other` is any object of another type (`None`, a list, ...), told
      apart by a tag; the text Python's `str()` gives for it is supplied
      by the caller. */
  datatype Value =
    | Str(s: string)
    | Bool(b: bool)
    | Int(i: int)
    | Float(x: real)
    | Date(ordinal: int)
    | Dict(entries: seq<(string, Value)>)
    | Other(tag: string)

  /** The empty string that fills a column a row does not write. */
  const Blank: Value := Str("")

  // The `isinstance` tests of the encoder, in Python's type hierarchy.

  predicate IsStr(v: Value) { v.Str? }

  predicate IsBool(v: Value) { v.Bool? }

  /** `isinstance(v, (float, int))`: `bool` is a subclass of `int`, so this
      holds of booleans as well. */
  predicate IsNumber(v: Value) { v.Int? || v.Float? || v.Bool? }

  predicate IsDate(v: Value) { v.Date? }

  /** The ordinal of 1899-12-30, day 0 of the spreadsheet's date serials. */
  const EpochOrdinal: int := 693594

  /** What the cell holds: exactly one of the API's typed fields. */
  datatype UserValue =
    | StringValue(text: string)
    | BoolValue(flag: bool)
    | NumberValue(number: Num)

  /** The `numberFormat.type` the encoder sets; only `DATE` is modelled. */
  datatype NumberFormatType = DateFormat

  /** `{"userEnteredValue": ..., "userEnteredFormat": {"numberFormat": ...}}`,
      the format being absent for every value but a date. */
  datatype CellData = CellData(userEnteredValue: UserValue, userEnteredFormat: Option<NumberFormatType>)

  /** `_extended_value`: the type tests in the order it applies them. `show` is
      Python's `str()` for the values no earlier test claims. */
  function Encode(v: Value, show: Value -> string): (c: CellData)
    ensures c.userEnteredValue.StringValue? <==> v.Str? || v.Dict? || v.Other?
    ensures c.userEnteredValue.BoolValue? <==> v.Bool?
    ensures c.userEnteredValue.NumberValue? <==> v.Int? || v.Float? || v.Date?
    ensures c.userEnteredFormat.Some? <==> v.Date?
    ensures v.Str? ==> c.userEnteredValue.text == v.s
    ensures v.Bool? ==> c.userEnteredValue.flag == v.b
    ensures v.Int? ==> c.userEnteredValue.number == IntNum(v.i)
    ensures v.Float? ==> c.userEnteredValue.number == FloatNum(v.x)
    ensures v.Date? ==> c.userEnteredValue.number.IntNum? && c.userEnteredValue.number.i + EpochOrdinal == v.ordinal
    ensures (v.Dict? || v.Other?) ==> c.userEnteredValue.text == show(v)
  {
    if IsStr(v) then CellData(StringValue(v.s), None)
    else if IsBool(v) then CellData(BoolValue(v.b), None)
    else if IsNumber(v) then CellData(NumberValue(if v.Int? then IntNum(v.i) else FloatNum(v.x)), None)
    else if IsDate(v) then CellData(NumberValue(IntNum(v.ordinal - EpochOrdinal)), Some(DateFormat))
    else CellData(StringValue(show(v)), None)
  }

  /** The value a cell's payload stands for: a number formatted as a date is
      the day that many days after 1899-12-30. This is the payload itself,
      not what the spreadsheet stores, which keeps every number as a double. */
  function Decode(c: CellData): Value
  {
    match c.userEnteredValue
    case StringValue(t) => Str(t)
    case BoolValue(b) => Bool(b)
    case NumberValue(IntNum(n)) =>
      if c.userEnteredFormat == Some(DateFormat) then Date(n + EpochOrdinal) else Int(n)
    case NumberValue(FloatNum(x)) => Float(x)
  }

  /** What the payload of `Encode(v, show)` stands for. */
  function Shown(v: Value, show: Value -> string): Value
  {
    if v.Dict? || v.Other? then Str(show(v)) else v
  }

  /** The encoding loses nothing for a scalar: its payload stands for the
      value itself. Everything else stands for the string Python renders for it. */
  lemma EncodeRoundTrip(v: Value, show: Value -> string)
    ensures !v.Dict? && !v.Other? ==> Decode(Encode(v, show)) == v
    ensures v.Dict? || v.Other? ==> Decode(Encode(v, show)) == Str(show(v))
  {
  }

  /** A cell is pinned down by what its payload stands for together with
      whether it carries a format: any cell that decodes to `Shown(v, show)`
      and is formatted exactly when `v` is a date is `Encode(v, show)`. */
  lemma EncodeDetermined(c: CellData, v: Value, show: Value -> string)
    requires Decode(c) == Shown(v, show)
    requires c.userEnteredFormat.Some? <==> v.Date?
    ensures c == Encode(v, show)
  {
  }
}
