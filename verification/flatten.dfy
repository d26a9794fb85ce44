/** Flattening of a row's items (`_flatten_values` in google_sheets.py):
    a mapping value is spread into one item per entry, named
    `field[sub_field]`; nothing deeper is expanded. */
module Flattening {
  import opened Cells

  /** The column name `f"{field}[{sub_field}]"`. */
  function SubKey(field: string, sub: string): string
  {
    field + "[" + sub + "]"
  }

  /** The items one `(field, value)` pair of a row contributes. */
  function Expand(field: string, value: Value): seq<(string, Value)>
  {
    if value.Dict? then
      seq(|value.entries|, k requires 0 <= k < |value.entries| =>
        (SubKey(field, value.entries[k].0), value.entries[k].1))
    else
      [(field, value)]
  }

  /** `_flatten_values`: the row's items with every mapping value spread
      out, in order. Each item yields one flat item per unit of its width. */
  function Flatten(items: seq<(string, Value)>): (flat: seq<(string, Value)>)
    ensures |flat| == TotalWidth(items)
    decreases |items|
  {
    if |items| == 0 then [] else Expand(items[0].0, items[0].1) + Flatten(items[1..])
  }

  /** How many flat items a value turns into. */
  function Width(v: Value): nat
  {
    if v.Dict? then |v.entries| else 1
  }

  function TotalWidth(items: seq<(string, Value)>): nat
  {
    if |items| == 0 then 0 else Width(items[0].1) + TotalWidth(items[1..])
  }

  /** Flattening works item by item: it distributes over concatenation. */
  lemma {:induction false} FlattenConcat(a: seq<(string, Value)>, b: seq<(string, Value)>)
    ensures Flatten(a + b) == Flatten(a) + Flatten(b)
    decreases |a|
  {
    if |a| == 0 {
      assert a + b == b;
    } else {
      assert (a + b)[1..] == a[1..] + b;
      FlattenConcat(a[1..], b);
    }
  }

  /** Item `k` lands right after what the items before it produced: a plain
      value passes through unchanged, a mapping gives one `field[sub]` item
      per entry, in the mapping's order, each carrying the entry's value as
      it is (a nested mapping stays a mapping). */
  lemma FlattenItem(items: seq<(string, Value)>, k: nat)
    requires k < |items|
    ensures
      var flat, off, item := Flatten(items), |Flatten(items[..k])|, items[k];
      && |Flatten(items[..k + 1])| == off + Width(item.1)
      && off + Width(item.1) <= |flat|
      && (!item.1.Dict? ==> flat[off] == item)
      && (item.1.Dict? ==>
            forall j :: 0 <= j < |item.1.entries| ==>
              flat[off + j] == (SubKey(item.0, item.1.entries[j].0), item.1.entries[j].1))
  {
    assert items == items[..k] + [items[k]] + items[k + 1..];
    assert items[..k + 1] == items[..k] + [items[k]];
    FlattenConcat(items[..k], [items[k]]);
    FlattenConcat(items[..k] + [items[k]], items[k + 1..]);
    assert Flatten([items[k]]) == Expand(items[k].0, items[k].1) by {
      assert [items[k]][1..] == [];
    }
  }

  /** A row holding no mapping flattens to itself. */
  lemma {:induction false} FlattenScalars(items: seq<(string, Value)>)
    requires forall k :: 0 <= k < |items| ==> !items[k].1.Dict?
    ensures Flatten(items) == items
    decreases |items|
  {
    if |items| > 0 {
      FlattenScalars(items[1..]);
      assert items == [items[0]] + items[1..];
    }
  }
}
