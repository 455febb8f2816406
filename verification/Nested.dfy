/** Recursive nested columns and what they denote: a value per row. */
module Nested {
  import opened Machine
  import opened Scalars

  /** How a list column's batches spell their offsets. */
  datatype ListKind = SmallList | LargeList | FixedSizeList(width: nat)

  /** `NestedColumnData` */
  datatype Column =
    | ScalarCol(nulls: seq<bool>, vals: MaterializedValues)
    | ListCol(nulls: seq<bool>, kind: ListKind, offsets: seq<nat>, child: Column)
    | StructCol(nulls: seq<bool>, fields: seq<Column>)
    | MapCol(nulls: seq<bool>, offsets: seq<nat>, keys: Column, values: Column, canonical: seq<seq<byte>>)

  function Rows(c: Column): nat {
    |c.nulls|
  }

  /** Offsets over `n` rows: start at zero, never decrease, end at the child row count. */
  ghost predicate OffsetsOk(offsets: seq<nat>, n: nat, childRows: nat) {
    && |offsets| == n + 1 && offsets[0] == 0 && offsets[n] == childRows <= U32_MAX
    && forall i, j :: 0 <= i <= j <= n ==> offsets[i] <= offsets[j]
  }

  /** The shape invariant, at every level. */
  ghost predicate WellFormed(c: Column) {
    match c
    case ScalarCol(nulls, vals) => RowCount(vals) == |nulls|
    case ListCol(nulls, kind, offsets, child) =>
      WellFormed(child) && OffsetsOk(offsets, |nulls|, Rows(child))
    case StructCol(nulls, fields) =>
      forall i :: 0 <= i < |fields| ==> WellFormed(fields[i]) && Rows(fields[i]) == |nulls|
    case MapCol(nulls, offsets, keys, values, canonical) =>
      && WellFormed(keys) && WellFormed(values) && OffsetsOk(offsets, |nulls|, Rows(keys))
      && Rows(values) == Rows(keys) == |canonical|
      && keys.ScalarCol? && forall i :: 0 <= i < Rows(keys) ==> !keys.nulls[i]
  }

  datatype Entry = Entry(key: Value, value: Value, canonical: seq<byte>)

  /** What one row of a column denotes. */
  datatype Value =
    | Null
    | Prim(scalar: Scalar)
    | ListOf(items: seq<Value>)
    | StructOf(fields: seq<Value>)
    | MapOf(entries: seq<Entry>)

  /** The denotation of a column: row by row, a null or a nested value. */
  function RowValue(c: Column, row: nat): Value
    requires WellFormed(c) && row < Rows(c)
    decreases c, 0
  {
    if c.nulls[row] then Null
    else
      match c
      case ScalarCol(_, vals) => Prim(ScalarAt(vals, row))
      case ListCol(_, _, offsets, child) =>
        var from, to := offsets[row], offsets[row + 1];
        assert to <= Rows(child);
        ListOf(RowValues(child, from, to - from))
      case StructCol(_, fields) =>
        StructOf(seq(|fields|, i requires 0 <= i < |fields| => RowValue(fields[i], row)))
      case MapCol(_, offsets, keys, values, canonical) =>
        var from, to := offsets[row], offsets[row + 1];
        assert to <= Rows(keys);
        MapOf(Entries(RowValues(keys, from, to - from), RowValues(values, from, to - from), canonical[from..to]))
  }

  function Entries(keys: seq<Value>, values: seq<Value>, canonical: seq<seq<byte>>): (r: seq<Entry>)
    requires |keys| == |values| == |canonical|
    ensures |r| == |keys|
  {
    seq(|keys|, i requires 0 <= i < |keys| => Entry(keys[i], values[i], canonical[i]))
  }

  /** A column's rows from `start` on, as values. */
  function RowValues(c: Column, start: nat, len: nat): (r: seq<Value>)
    requires WellFormed(c) && start + len <= Rows(c)
    ensures |r| == len
    decreases c, 1
  {
    seq(len, i requires 0 <= i < len => RowValue(c, start + i))
  }

  /** A list row's items are a stretch of child rows. */
  lemma ListRow(c: Column, row: nat)
    requires WellFormed(c) && c.ListCol? && row < Rows(c)
    ensures row + 1 < |c.offsets| && WellFormed(c.child)
    ensures c.offsets[row] <= c.offsets[row + 1] <= Rows(c.child)
    ensures RowValue(c, row) ==
              if c.nulls[row] then Null
              else ListOf(RowValues(c.child, c.offsets[row], c.offsets[row + 1] - c.offsets[row]))
  {
  }

  lemma MapRow(c: Column, row: nat)
    requires WellFormed(c) && c.MapCol? && row < Rows(c)
    ensures row + 1 < |c.offsets| && WellFormed(c.keys) && WellFormed(c.values)
    ensures c.offsets[row] <= c.offsets[row + 1] <= Rows(c.keys) == Rows(c.values) == |c.canonical|
    ensures var from, to := c.offsets[row], c.offsets[row + 1];
            RowValue(c, row) ==
              if c.nulls[row] then Null
              else MapOf(Entries(RowValues(c.keys, from, to - from), RowValues(c.values, from, to - from),
                                 c.canonical[from..to]))
  {
  }

  lemma ListOffsets(c: Column)
    requires WellFormed(c) && c.ListCol?
    ensures OffsetsOk(c.offsets, Rows(c), Rows(c.child))
  {
  }

  lemma MapOffsets(c: Column)
    requires WellFormed(c) && c.MapCol?
    ensures OffsetsOk(c.offsets, Rows(c), Rows(c.keys)) && Rows(c.values) == Rows(c.keys) == |c.canonical|
  {
  }

  /** The same kind of column: same nesting, kinds and field counts. */
  ghost predicate SameShape(a: Column, b: Column) {
    match (a, b)
    case (ScalarCol(_, v), ScalarCol(_, w)) => KindOf(v) == KindOf(w)
    case (ListCol(_, k, _, x), ListCol(_, l, _, y)) => k == l && SameShape(x, y)
    case (StructCol(_, f), StructCol(_, g)) =>
      |f| == |g| && forall i :: 0 <= i < |f| ==> SameShape(f[i], g[i])
    case (MapCol(_, _, k, v, _), MapCol(_, _, l, w, _)) => SameShape(k, l) && SameShape(v, w)
    case _ => false
  }
}
