/** Header merge and column alignment of one row: the body of the per-row
    loop of `GoogleSheetAppender.append_batch` in google_sheets.py. Each
    flat item is matched by name against the sheet's header list; an
    unknown name becomes a new trailing column. */
module Columns {
  import opened Wrappers
  import opened Cells

  /** Python's `list.index`: the first position holding `x`, or `None`
      where Python raises `ValueError`. */
  function IndexOf<T(==)>(s: seq<T>, x: T): (r: Option<nat>)
    ensures r.None? <==> x !in s
    ensures r.Some? ==> r.value < |s| && s[r.value] == x && x !in s[..r.value]
  {
    if |s| == 0 then None
    else if s[0] == x then Some(0)
    else
      match IndexOf(s[1..], x)
      case None => None
      case Some(i) =>
        assert s[..i + 1] == [s[0]] + s[1..][..i];
        Some(i + 1)
  }

  /** The position `list.index` finds for an element known to be present. */
  function Pos<T(==)>(s: seq<T>, x: T): (i: nat)
    requires x in s
    ensures i < |s| && s[i] == x
  {
    IndexOf(s, x).value
  }

  predicate NoDuplicates<T(==)>(s: seq<T>)
  {
    forall i, j :: 0 <= i < j < |s| ==> s[i] != s[j]
  }

  /** The names of a row's flat items, in order. */
  function Fields(flat: seq<(string, Value)>): seq<string>
  {
    seq(|flat|, k requires 0 <= k < |flat| => flat[k].0)
  }

  /** The value of the last flat item named `f`: a later item with the same
      name overwrites the cell an earlier one wrote. */
  function LastValue(flat: seq<(string, Value)>, f: string): (v: Value)
    requires f in Fields(flat)
    ensures exists j :: 0 <= j < |flat| && flat[j] == (f, v) && forall k :: j < k < |flat| ==> flat[k].0 != f
    decreases |flat|
  {
    var n := |flat|;
    if flat[n - 1].0 == f then
      flat[n - 1].1
    else
      assert f in Fields(flat[..n - 1]) by {
        var i :| 0 <= i < n && Fields(flat)[i] == f;
        assert Fields(flat[..n - 1])[i] == f;
      }
      LastValue(flat[..n - 1], f)
  }

  /** A sheet's headers while a row is aligned to them: `headers`, the row's
      cells `ordered_values`, and the names this row has added. */
  datatype Aligned = Aligned(headers: seq<string>, values: seq<Value>, added: seq<string>)

  /** One pass of the inner loop: write the value under the first column of
      that name, or add the name as a new column holding the value. */
  function Place(a: Aligned, f: string, v: Value): (r: Aligned)
    requires |a.values| == |a.headers|
    ensures |r.values| == |r.headers|
    ensures f in a.headers ==> r.headers == a.headers && r.added == a.added
    ensures f !in a.headers ==> r.headers == a.headers + [f] && r.added == a.added + [f]
    ensures f in r.headers && r.values[Pos(r.headers, f)] == v
    ensures forall i :: 0 <= i < |a.values| && i != Pos(r.headers, f) ==> r.values[i] == a.values[i]
  {
    match IndexOf(a.headers, f)
    case Some(i) => Aligned(a.headers, a.values[i := v], a.added)
    case None =>
      IndexOfAppendNew(a.headers, f);
      Aligned(a.headers + [f], a.values + [v], a.added + [f])
  }

  /** Aligns the flat items of one row against a sheet's headers, starting
      from a row of blanks, one item at a time. Existing headers are never
      removed or reordered: the result is the old list followed by exactly
      the names this row added, and there is one cell per header. */
  function Merge(headers: seq<string>, flat: seq<(string, Value)>): (r: Aligned)
    ensures r.headers == headers + r.added
    ensures |r.values| == |r.headers|
    decreases |flat|
  {
    if |flat| == 0 then
      Aligned(headers, seq(|headers|, _ => Blank), [])
    else
      var n := |flat|;
      Place(Merge(headers, flat[..n - 1]), flat[n - 1].0, flat[n - 1].1)
  }

  /** Column `i` is written by the row when its name is one of the row's
      fields and it is the first column carrying that name. */
  predicate Written(h: seq<string>, flat: seq<(string, Value)>, i: int)
    requires 0 <= i < |h|
  {
    h[i] in Fields(flat) && IndexOf(h, h[i]) == Some(i)
  }

  /** What column `i` of an aligned row should hold. */
  function CellAt(h: seq<string>, flat: seq<(string, Value)>, i: int): Value
    requires 0 <= i < |h|
  {
    if Written(h, flat, i) then LastValue(flat, h[i]) else Blank
  }

  /** `a` holds, column by column, what `CellAt` says the row `flat`
      writes there. */
  predicate CellsMatch(a: Aligned, flat: seq<(string, Value)>)
  {
    && |a.values| == |a.headers|
    && forall i :: 0 <= i < |a.headers| ==> a.values[i] == CellAt(a.headers, flat, i)
  }

  lemma IndexOfUnique<T>(s: seq<T>, x: T, i: nat)
    requires i < |s| && s[i] == x && x !in s[..i]
    ensures IndexOf(s, x) == Some(i)
  {
  }

  /** Appending to a list does not move the first occurrence of anything
      already in it. */
  lemma IndexOfAppend<T>(s: seq<T>, y: T, x: T)
    requires x in s
    ensures IndexOf(s + [y], x) == IndexOf(s, x)
  {
    var i := IndexOf(s, x).value;
    assert (s + [y])[..i] == s[..i];
    IndexOfUnique(s + [y], x, i);
  }

  /** Extending a list does not move the first occurrence of anything
      already in it. */
  lemma IndexOfPrefix<T>(s: seq<T>, t: seq<T>, x: T)
    requires s <= t && x in s
    ensures IndexOf(t, x) == IndexOf(s, x)
  {
    var i := IndexOf(s, x).value;
    assert t[..i] == s[..i];
    IndexOfUnique(t, x, i);
  }

  lemma IndexOfAppendNew<T>(s: seq<T>, x: T)
    requires x !in s
    ensures IndexOf(s + [x], x) == Some(|s|)
  {
    assert (s + [x])[..|s|] == s;
    IndexOfUnique(s + [x], x, |s|);
  }

  lemma FieldsSnoc(p: seq<(string, Value)>, f: string, v: Value)
    ensures Fields(p + [(f, v)]) == Fields(p) + [f]
  {
  }

  /** The last value of a name, once one more item is appended. */
  lemma LastValueSnoc(p: seq<(string, Value)>, f: string, v: Value, g: string)
    requires g == f || g in Fields(p)
    ensures g in Fields(p + [(f, v)])
    ensures LastValue(p + [(f, v)], g) == if g == f then v else LastValue(p, g)
  {
    FieldsSnoc(p, f, v);
    assert (p + [(f, v)])[..|p|] == p;
  }

  /** One pass of the inner loop keeps the row's cells as `CellAt` says,
      column by column. */
  lemma PlaceCell(a: Aligned, p: seq<(string, Value)>, f: string, v: Value, i: int)
    requires CellsMatch(a, p)
    requires 0 <= i < |Place(a, f, v).headers|
    ensures Place(a, f, v).values[i] == CellAt(Place(a, f, v).headers, p + [(f, v)], i)
  {
    FieldsSnoc(p, f, v);
    if f in a.headers {
      PlaceCellKnown(a, p, f, v, i);
    } else {
      PlaceCellNew(a, p, f, v, i);
    }
  }

  /** One pass of the inner loop keeps `CellsMatch`. */
  lemma PlaceCells(a: Aligned, p: seq<(string, Value)>, f: string, v: Value)
    requires CellsMatch(a, p)
    ensures CellsMatch(Place(a, f, v), p + [(f, v)])
  {
    var r := Place(a, f, v);
    forall i | 0 <= i < |r.headers|
      ensures r.values[i] == CellAt(r.headers, p + [(f, v)], i)
    {
      PlaceCell(a, p, f, v, i);
    }
  }

  /** `PlaceCell` when the name already has a column: only that column's
      cell changes. */
  lemma PlaceCellKnown(a: Aligned, p: seq<(string, Value)>, f: string, v: Value, i: int)
    requires CellsMatch(a, p)
    requires f in a.headers
    requires 0 <= i < |a.headers|
    requires Fields(p + [(f, v)]) == Fields(p) + [f]
    ensures Place(a, f, v).values[i] == CellAt(a.headers, p + [(f, v)], i)
  {
  }

  /** `PlaceCell` when the name is new: the old columns keep their cells
      and the new last column holds the value. */
  lemma PlaceCellNew(a: Aligned, p: seq<(string, Value)>, f: string, v: Value, i: int)
    requires CellsMatch(a, p)
    requires f !in a.headers
    requires 0 <= i <= |a.headers|
    requires Fields(p + [(f, v)]) == Fields(p) + [f]
    ensures Place(a, f, v).values[i] == CellAt(a.headers + [f], p + [(f, v)], i)
  {
  }

  /** The cells of an aligned row, completely: each column written by the row
      holds the value of the row's last item of that name; every other
      column holds the blank it started with. */
  lemma {:induction false} MergeCells(headers: seq<string>, flat: seq<(string, Value)>)
    ensures CellsMatch(Merge(headers, flat), flat)
    decreases |flat|
  {
    if |flat| == 0 {
      assert Fields(flat) == [];
    } else {
      var n := |flat|;
      var p := flat[..n - 1];
      assert flat == p + [(flat[n - 1].0, flat[n - 1].1)];
      MergeCells(headers, p);
      PlaceCells(Merge(headers, p), p, flat[n - 1].0, flat[n - 1].1);
    }
  }

  /** The names a row has added so far are exactly its fields the sheet did
      not have, each once, in the order they first occur in the row. */
  ghost predicate AddedFacts(added: seq<string>, headers: seq<string>, flat: seq<(string, Value)>)
  {
    && (forall f :: f in added <==> f in Fields(flat) && f !in headers)
    && NoDuplicates(added)
    && (forall i, j :: 0 <= i < j < |added| ==> Pos(Fields(flat), added[i]) < Pos(Fields(flat), added[j]))
  }

  /** Appending an item does not move the first position of any name
      already among the fields. */
  lemma PosSnoc(p: seq<(string, Value)>, f: string, v: Value)
    ensures Fields(p + [(f, v)]) == Fields(p) + [f]
    ensures forall g :: g in Fields(p) ==> Pos(Fields(p + [(f, v)]), g) == Pos(Fields(p), g)
  {
    FieldsSnoc(p, f, v);
    forall g | g in Fields(p)
      ensures Pos(Fields(p + [(f, v)]), g) == Pos(Fields(p), g)
    {
      IndexOfAppend(Fields(p), f, g);
    }
  }

  /** One pass of the inner loop keeps `AddedFacts`. */
  lemma PlaceAdded(a: Aligned, headers: seq<string>, p: seq<(string, Value)>, f: string, v: Value)
    requires |a.values| == |a.headers| && a.headers == headers + a.added
    requires AddedFacts(a.added, headers, p)
    ensures AddedFacts(Place(a, f, v).added, headers, p + [(f, v)])
  {
    PosSnoc(p, f, v);
    if f in a.headers {
      PlaceAddedKnown(a.added, headers, p, f, v);
    } else {
      PlaceAddedNew(a.added, headers, p, f, v);
    }
  }

  /** A name the headers already hold adds nothing. */
  lemma PlaceAddedKnown(added: seq<string>, headers: seq<string>, p: seq<(string, Value)>, f: string, v: Value)
    requires AddedFacts(added, headers, p)
    requires f in headers + added
    requires Fields(p + [(f, v)]) == Fields(p) + [f]
    requires forall g :: g in Fields(p) ==> Pos(Fields(p + [(f, v)]), g) == Pos(Fields(p), g)
    ensures AddedFacts(added, headers, p + [(f, v)])
  {
  }

  /** A name the headers lack is added after every name added before it. */
  lemma PlaceAddedNew(added: seq<string>, headers: seq<string>, p: seq<(string, Value)>, f: string, v: Value)
    requires AddedFacts(added, headers, p)
    requires f !in headers + added
    requires Fields(p + [(f, v)]) == Fields(p) + [f]
    requires forall g :: g in Fields(p) ==> Pos(Fields(p + [(f, v)]), g) == Pos(Fields(p), g)
    ensures AddedFacts(added + [f], headers, p + [(f, v)])
  {
  }

  /** The names a row adds are exactly its fields missing from the sheet's
      headers, each once, in the order they first occur in the row. */
  lemma {:induction false} MergeAdded(headers: seq<string>, flat: seq<(string, Value)>)
    ensures AddedFacts(Merge(headers, flat).added, headers, flat)
    decreases |flat|
  {
    if |flat| == 0 {
      assert Fields(flat) == [];
    } else {
      var n := |flat|;
      var p := flat[..n - 1];
      assert flat == p + [(flat[n - 1].0, flat[n - 1].1)];
      MergeAdded(headers, p);
      PlaceAdded(Merge(headers, p), headers, p, flat[n - 1].0, flat[n - 1].1);
    }
  }

  /** Every field of the row is matched to a column, whose cell holds the
      field's value (its last one, should the row name it twice); a column
      the row does not write stays blank. */
  lemma MergePlacesFields(headers: seq<string>, flat: seq<(string, Value)>)
    ensures
      var r := Merge(headers, flat);
      && (forall f :: f in Fields(flat) ==> f in r.headers && r.values[Pos(r.headers, f)] == LastValue(flat, f))
      && (forall i :: 0 <= i < |r.headers| && !Written(r.headers, flat, i) ==> r.values[i] == Blank)
  {
    var r := Merge(headers, flat);
    MergeCells(headers, flat);
    MergeAdded(headers, flat);
    forall f | f in Fields(flat)
      ensures f in r.headers && r.values[Pos(r.headers, f)] == LastValue(flat, f)
    {
      if f !in headers {
        assert f in r.added;
      }
      assert f in r.headers;
      assert Written(r.headers, flat, Pos(r.headers, f));
    }
  }
}
