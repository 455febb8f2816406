/** Fixed-size list columns keep one width: batches are appended and rows reordered
    without ever breaking it, so every such page stays readable. */
module NestedWidths {
  import opened Machine
  import opened Scalars
  import opened Nested
  import opened NestedReorder
  import opened NestedAppend
  import opened PageDecode
  import opened PageRoundTrip

  lemma MoreUniform(offsets: seq<nat>, n: nat, childRows: nat, a: Arr)
    requires ArrOk(a) && a.ListArr? && a.kind.FixedSizeList?
    requires OffsetsOk(offsets, n, childRows) && OffsetsFit(offsets, a) && Uniform(offsets, a.kind.width)
    ensures Uniform(MoreOffsets(offsets, a), a.kind.width)
  {
    MoreOffsetsOk(offsets, n, childRows, a);
    var more := MoreOffsets(offsets, a);
    forall i | 0 <= i < |more| - 1 ensures RowWidth(more, i) == a.kind.width {
      if i < n {
        assert RowWidth(offsets, i) == a.kind.width;
      } else {
        FixedCount(a, i - n);
        hide ArrOk, OffsetsOk, OffsetsFit, MoreOffsets, ItemCount;
        assert more[n + (i - n)] == childRows + ItemCount(a, i - n);
        assert more[n + (i - n + 1)] == childRows + ItemCount(a, i - n + 1);
      }
    }
  }

  lemma FixedCount(a: Arr, row: nat)
    requires ArrOk(a) && a.ListArr? && a.kind.FixedSizeList? && row < Len(a)
    ensures ItemCount(a, row + 1) == ItemCount(a, row) + a.kind.width
  {
    FixedItems(0, Len(a), row, a.kind.width);
  }

  lemma {:induction false} AppendKeepsWidths(c: Column, a: Arr, canon: Value -> seq<byte>)
    requires WellFormed(c) && ArrOk(a) && FixedWidths(c) && Appended(c, a, canon).Ok?
    ensures FixedWidths(Appended(c, a, canon).value)
    decreases c
  {
    match (c, a)
    case (ListCol(_, kind, offsets, child), ListArr(_, _, _, arrChild)) =>
      AppendKeepsWidths(child, Covered(a, arrChild), canon);
      if Width(kind) > 0 { MoreUniform(offsets, Rows(c), Rows(child), a); }
    case (StructCol(_, fields), StructArr(_, arrFields)) =>
      forall k | 0 <= k < |fields| ensures FixedWidths(Appended(c, a, canon).value.fields[k]) {
        AppendKeepsWidths(fields[k], arrFields[k], canon);
      }
    case (MapCol(_, _, keys, values, _), MapArr(_, _, arrKeys, arrValues)) =>
      AppendKeepsWidths(keys, Covered(a, arrKeys), canon);
      AppendKeepsWidths(values, Covered(a, arrValues), canon);
    case _ =>
  }

  lemma {:induction false} ReorderKeepsWidths(c: Column, order: seq<nat>)
    requires WellFormed(c) && Within(order, Rows(c)) && FixedWidths(c) && Reordered(c, order).Ok?
    ensures FixedWidths(Reordered(c, order).value)
    decreases c
  {
    match c
    case ScalarCol(_, _) =>
    case StructCol(_, fields) =>
      forall k | 0 <= k < |fields| ensures FixedWidths(Reordered(c, order).value.fields[k]) {
        ReorderKeepsWidths(fields[k], order);
      }
    case ListCol(_, kind, offsets, child) =>
      ChildRowsOk(offsets, order, Rows(c), Rows(child));
      ReorderKeepsWidths(child, ChildRows(offsets, order));
      if Width(kind) > 0 {
        forall i | 0 <= i < |order| ensures |Span(offsets, order[i])| == Width(kind) {
          assert RowWidth(offsets, order[i]) == Width(kind);
        }
        UniformOffsets(offsets, order, Width(kind));
        MultiplesUniform(|order|, Width(kind));
      }
    case MapCol(_, offsets, keys, values, _) =>
      ChildRowsOk(offsets, order, Rows(c), Rows(keys));
      ReorderKeepsWidths(keys, ChildRows(offsets, order));
      ReorderKeepsWidths(values, ChildRows(offsets, order));
  }

  lemma MultiplesUniform(n: nat, width: nat)
    ensures Uniform(Multiples(n, width), width)
  {
    forall i | 0 <= i < n ensures RowWidth(Multiples(n, width), i) == width {
      MultiplesGrow(i, width);
    }
  }
}
