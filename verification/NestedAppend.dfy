/** Appending Arrow batches to a nested column. A batch's list offsets may start
    anywhere in its child array; the column's offsets always start at zero. */
module NestedAppend {
  import opened Machine
  import opened Scalars
  import opened Nested

  /** An Arrow array, with scalar values already in materialised form. Offsets are
      those of the array's own rows; fixed-size lists have none. */
  datatype Arr =
    | ScalarArr(nulls: seq<bool>, scalars: seq<Scalar>)
    | ListArr(nulls: seq<bool>, kind: ListKind, offsets: seq<nat>, child: Arr)
    | StructArr(nulls: seq<bool>, fields: seq<Arr>)
    | MapArr(nulls: seq<bool>, offsets: seq<nat>, keys: Arr, values: Arr)

  function Len(a: Arr): nat {
    |a.nulls|
  }

  /** Where the items of row `row` start in the child array. */
  function ItemStart(a: Arr, row: nat): nat
    requires a.ListArr? || a.MapArr?
    requires !(a.ListArr? && a.kind.FixedSizeList?) ==> row < |a.offsets|
  {
    if a.ListArr? && a.kind.FixedSizeList? then row * a.kind.width else a.offsets[row]
  }

  ghost predicate BatchOffsetsOk(offsets: seq<nat>, n: nat, childLen: nat) {
    && |offsets| == n + 1 && offsets[n] <= childLen
    && forall i, j :: 0 <= i <= j <= n ==> offsets[i] <= offsets[j]
  }

  /** What the Arrow library guarantees of an array. */
  ghost predicate ArrOk(a: Arr) {
    match a
    case ScalarArr(nulls, scalars) => |scalars| == |nulls|
    case ListArr(nulls, kind, offsets, child) =>
      && ArrOk(child)
      && (if kind.FixedSizeList? then |nulls| * kind.width <= Len(child)
          else BatchOffsetsOk(offsets, |nulls|, Len(child)))
    case StructArr(nulls, fields) =>
      forall i :: 0 <= i < |fields| ==> ArrOk(fields[i]) && Len(fields[i]) == |nulls|
    case MapArr(nulls, offsets, keys, values) =>
      ArrOk(keys) && ArrOk(values) && Len(keys) == Len(values) && BatchOffsetsOk(offsets, |nulls|, Len(keys))
  }

  lemma ItemsOrdered(a: Arr, i: nat, j: nat)
    requires ArrOk(a) && (a.ListArr? || a.MapArr?) && i <= j <= Len(a)
    ensures !(a.ListArr? && a.kind.FixedSizeList?) ==> j < |a.offsets|
    ensures ItemStart(a, i) <= ItemStart(a, j)
    ensures ItemStart(a, j) <= Len(if a.ListArr? then a.child else a.keys)
  {
    if a.ListArr? && a.kind.FixedSizeList? {
      Multiply(i, j, a.kind.width);
      Multiply(j, Len(a), a.kind.width);
    }
  }

  lemma Multiply(i: nat, j: nat, width: nat)
    requires i <= j
    ensures i * width <= j * width
  {
  }

  /** What one row of an array denotes. `canon` is the canonical JSON text of a
      map key, which the converter stores beside the key. */
  function ArrValue(a: Arr, row: nat, canon: Value -> seq<byte>): Value
    requires ArrOk(a) && row < Len(a)
    decreases a, 0
  {
    if a.nulls[row] then Null
    else
      match a
      case ScalarArr(_, scalars) => Prim(scalars[row])
      case ListArr(_, _, _, child) =>
        ItemsOrdered(a, row, row + 1);
        ListOf(ArrValues(child, ItemStart(a, row), ItemStart(a, row + 1) - ItemStart(a, row), canon))
      case StructArr(_, fields) =>
        StructOf(seq(|fields|, i requires 0 <= i < |fields| => ArrValue(fields[i], row, canon)))
      case MapArr(_, offsets, keys, values) =>
        ItemsOrdered(a, row, row + 1);
        var from, n := offsets[row], offsets[row + 1] - offsets[row];
        var ks := ArrValues(keys, from, n, canon);
        MapOf(Entries(ks, ArrValues(values, from, n, canon), Canonical(ks, canon)))
  }

  function ArrValues(a: Arr, start: nat, len: nat, canon: Value -> seq<byte>): (r: seq<Value>)
    requires ArrOk(a) && start + len <= Len(a)
    ensures |r| == len
    decreases a, 1
  {
    seq(len, i requires 0 <= i < len => ArrValue(a, start + i, canon))
  }

  function Canonical(keys: seq<Value>, canon: Value -> seq<byte>): (r: seq<seq<byte>>)
    ensures |r| == |keys|
  {
    seq(|keys|, i requires 0 <= i < |keys| => canon(keys[i]))
  }

  /** Arrow's zero-copy slice. */
  function Slice(a: Arr, start: nat, len: nat): (r: Arr)
    requires ArrOk(a) && start + len <= Len(a)
    ensures ArrOk(r) && Len(r) == len
    decreases a
  {
    var nulls := a.nulls[start..start + len];
    match a
    case ScalarArr(_, scalars) => ScalarArr(nulls, scalars[start..start + len])
    case ListArr(_, kind, offsets, child) =>
      if kind.FixedSizeList? then
        var w := kind.width;
        assert start * w + len * w == (start + len) * w;
        Multiply(start + len, Len(a), w);
        ListArr(nulls, kind, [], Slice(child, start * w, len * w))
      else ListArr(nulls, kind, offsets[start..start + len + 1], child)
    case StructArr(_, fields) =>
      StructArr(nulls, seq(|fields|, i requires 0 <= i < |fields| => Slice(fields[i], start, len)))
    case MapArr(_, offsets, keys, values) => MapArr(nulls, offsets[start..start + len + 1], keys, values)
  }

  lemma ArrListRow(a: Arr, row: nat, canon: Value -> seq<byte>)
    requires ArrOk(a) && a.ListArr? && row < Len(a)
    ensures !a.kind.FixedSizeList? ==> row + 1 < |a.offsets|
    ensures ArrOk(a.child) && ItemStart(a, row) <= ItemStart(a, row + 1) <= Len(a.child)
    ensures ArrValue(a, row, canon) ==
              if a.nulls[row] then Null
              else ListOf(ArrValues(a.child, ItemStart(a, row), ItemStart(a, row + 1) - ItemStart(a, row), canon))
  {
    ItemsOrdered(a, row, row + 1);
  }

  /** Item positions of a row of a sliced fixed-size list. */
  lemma FixedItems(start: nat, len: nat, i: nat, w: nat)
    requires i < len
    ensures (i + 1) * w - i * w == w && i * w + w <= len * w
    ensures (start + i) * w == start * w + i * w && (start + i + 1) * w - (start + i) * w == w
  {
    Multiply(i + 1, len, w);
  }

  /** Slicing only renumbers rows. */
  lemma {:induction false} SliceDenotes(a: Arr, start: nat, len: nat, i: nat, canon: Value -> seq<byte>)
    requires ArrOk(a) && start + len <= Len(a) && i < len
    ensures ArrValue(Slice(a, start, len), i, canon) == ArrValue(a, start + i, canon)
    decreases a, 0
  {
    hide *;
    match a
    case ScalarArr(_, _) => SliceSharesChildren(a, start, len, i, canon);
    case ListArr(_, kind, _, child) =>
      if !kind.FixedSizeList? {
        SliceSharesChildren(a, start, len, i, canon);
      } else {
        var w := kind.width;
        FixedItems(start, len, i, w);
        SliceFixed(a, start, len);
        SliceManyDenotes(child, start * w, len * w, i * w, w, canon);
        SliceFixedRow(a, start, len, i, canon);
      }
    case StructArr(_, fields) =>
      StructFields(a);
      forall k | 0 <= k < |fields|
        ensures ArrValue(Slice(fields[k], start, len), i, canon) == ArrValue(fields[k], start + i, canon)
      {
        SliceDenotes(fields[k], start, len, i, canon);
      }
      SliceStructRow(a, start, len, i, canon);
    case MapArr(_, _, _, _) => SliceSharesChildren(a, start, len, i, canon);
  }

  lemma StructFields(a: Arr)
    requires ArrOk(a) && a.StructArr?
    ensures forall k :: 0 <= k < |a.fields| ==> ArrOk(a.fields[k]) && Len(a.fields[k]) == Len(a)
  {
  }

  lemma SliceStructRow(a: Arr, start: nat, len: nat, i: nat, canon: Value -> seq<byte>)
    requires ArrOk(a) && a.StructArr? && start + len <= Len(a) && i < len
    requires forall k :: 0 <= k < |a.fields| ==> ArrOk(a.fields[k]) && Len(a.fields[k]) == Len(a)
    requires forall k :: 0 <= k < |a.fields| ==>
               ArrValue(Slice(a.fields[k], start, len), i, canon) == ArrValue(a.fields[k], start + i, canon)
    ensures ArrValue(Slice(a, start, len), i, canon) == ArrValue(a, start + i, canon)
  {
  }

  /** Slicing an array without child rows of its own, or whose offsets point into
      shared ones, only moves the row. */
  lemma SliceSharesChildren(a: Arr, start: nat, len: nat, i: nat, canon: Value -> seq<byte>)
    requires ArrOk(a) && start + len <= Len(a) && i < len
    requires a.ScalarArr? || a.MapArr? || (a.ListArr? && !a.kind.FixedSizeList?)
    ensures ArrValue(Slice(a, start, len), i, canon) == ArrValue(a, start + i, canon)
  {
  }

  lemma SliceFixedRow(a: Arr, start: nat, len: nat, i: nat, canon: Value -> seq<byte>)
    requires ArrOk(a) && a.ListArr? && a.kind.FixedSizeList? && start + len <= Len(a) && i < len
    requires var w := a.kind.width;
             && ArrOk(a.child) && start * w + len * w <= Len(a.child) && i * w + w <= len * w
             && ArrValues(Slice(a.child, start * w, len * w), i * w, w, canon)
                == ArrValues(a.child, start * w + i * w, w, canon)
    ensures ArrValue(Slice(a, start, len), i, canon) == ArrValue(a, start + i, canon)
  {
    var s := Slice(a, start, len);
    assert s.nulls[i] == a.nulls[start + i];
    FixedItems(start, len, i, a.kind.width);
    SliceFixed(a, start, len);
    hide *;
    ArrListRow(a, start + i, canon);
    ArrListRow(s, i, canon);
    FixedStart(a, start + i);
    FixedStart(s, i);
  }

  lemma FixedStart(a: Arr, row: nat)
    requires a.ListArr? && a.kind.FixedSizeList?
    ensures ItemStart(a, row) == row * a.kind.width && ItemStart(a, row + 1) == (row + 1) * a.kind.width
  {
  }

  lemma SliceFixed(a: Arr, start: nat, len: nat)
    requires ArrOk(a) && a.ListArr? && a.kind.FixedSizeList? && start + len <= Len(a)
    ensures var w, s := a.kind.width, Slice(a, start, len);
            && ArrOk(a.child) && start * w + len * w <= Len(a.child)
            && s.ListArr? && s.kind == a.kind && s.child == Slice(a.child, start * w, len * w)
  {
    var w := a.kind.width;
    assert start * w + len * w == (start + len) * w;
    Multiply(start + len, Len(a), w);
  }

  lemma {:induction false} SliceManyDenotes(a: Arr, start: nat, len: nat, from: nat, n: nat, canon: Value -> seq<byte>)
    requires ArrOk(a) && start + len <= Len(a) && from + n <= len
    ensures ArrValues(Slice(a, start, len), from, n, canon) == ArrValues(a, start + from, n, canon)
    decreases a, 1
  {
    var s := Slice(a, start, len);
    forall k | from <= k < from + n ensures ArrValue(s, k, canon) == ArrValue(a, start + k, canon) {
      SliceDenotes(a, start, len, k, canon);
    }
    hide ArrValue, Slice, ArrOk;
    SameStretch(s, from, a, start + from, n, canon);
  }

  lemma SameStretch(s: Arr, from: nat, a: Arr, base: nat, n: nat, canon: Value -> seq<byte>)
    requires ArrOk(s) && ArrOk(a) && from + n <= Len(s) && base + n <= Len(a) && base >= from
    requires forall k :: from <= k < from + n ==> ArrValue(s, k, canon) == ArrValue(a, base - from + k, canon)
    ensures ArrValues(s, from, n, canon) == ArrValues(a, base, n, canon)
  {
    hide ArrValue, ArrOk;
    forall i | 0 <= i < n
      ensures ArrValues(s, from, n, canon)[i] == ArrValues(a, base, n, canon)[i]
    {
      assert ArrValue(s, from + i, canon) == ArrValue(a, base - from + (from + i), canon);
    }
  }

  // ---- appending ----

  function LastOffset(offsets: seq<nat>): nat {
    if offsets == [] then 0 else offsets[|offsets| - 1]
  }

  /** The offsets after a batch: continue from the last one by the batch's item counts. */
  function MoreOffsets(offsets: seq<nat>, a: Arr): (r: seq<nat>)
    requires ArrOk(a) && (a.ListArr? || a.MapArr?)
    ensures |r| == |offsets| + Len(a)
  {
    offsets + seq(Len(a), i requires 0 <= i < Len(a) =>
      ItemsOrdered(a, 0, i + 1);
      LastOffset(offsets) + (ItemStart(a, i + 1) - ItemStart(a, 0)))
  }

  /** The batch's items still fit u32 offsets. */
  predicate OffsetsFit(offsets: seq<nat>, a: Arr)
    requires ArrOk(a) && (a.ListArr? || a.MapArr?)
  {
    ItemsOrdered(a, 0, Len(a));
    Len(a) == 0 || LastOffset(offsets) + (ItemStart(a, Len(a)) - ItemStart(a, 0)) <= U32_MAX
  }

  /** `append_list_offsets_{i32,i64}` and the fixed-size-list loop: one checked
      addition per row, from the last offset or from a base fixed beforehand. */
  method AppendOffsets(offsets: seq<nat>, a: Arr) returns (r: Result<seq<nat>>)
    requires ArrOk(a) && (a.ListArr? || a.MapArr?)
    ensures r.Ok? <==> OffsetsFit(offsets, a)
    ensures r.Ok? ==> r.value == MoreOffsets(offsets, a)
    ensures r.Err? ==> r.error == ArithOverflow
  {
    hide ArrOk;
    var out := offsets;
    for row := 0 to Len(a)
      invariant out == MoreOffsets(offsets, a)[..|offsets| + row]
      invariant LastOffset(out) == LastOffset(offsets) + ItemCount(a, row)
      invariant row > 0 ==> LastOffset(out) <= U32_MAX
    {
      ItemsOrdered(a, row, row + 1);
      ItemsOrdered(a, 0, row + 1);
      ItemsOrdered(a, row + 1, Len(a));
      var delta := ItemStart(a, row + 1) - ItemStart(a, row);
      var next := LastOffset(out) + delta;
      if next > U32_MAX { return Err(ArithOverflow); }
      assert next == MoreOffsets(offsets, a)[|offsets| + row];
      out := out + [next];
    }
    return Ok(out);
  }

  /** Items of the first `row` rows. */
  function ItemCount(a: Arr, row: nat): nat
    requires ArrOk(a) && (a.ListArr? || a.MapArr?) && row <= Len(a)
  {
    ItemsOrdered(a, 0, row);
    ItemStart(a, row) - ItemStart(a, 0)
  }

  /** The part of the child array that the batch's rows cover. */
  function Covered(a: Arr, child: Arr): (r: Arr)
    requires ArrOk(a) && (a.ListArr? || a.MapArr?)
    requires a.ListArr? ==> child == a.child
    requires a.MapArr? ==> child == a.keys || child == a.values
    ensures ArrOk(r) && Len(r) == ItemCount(a, Len(a))
  {
    ItemsOrdered(a, 0, Len(a));
    Slice(child, ItemStart(a, 0), ItemCount(a, Len(a)))
  }

  /** `append_materialized_values`: a placeholder for nulls, else the value. */
  function PushScalar(v: MaterializedValues, isNull: bool, s: Scalar): Result<MaterializedValues> {
    match v
    case Booleans(x) =>
      if isNull then Ok(Booleans(x + [0]))
      else if s.Code? && s.code < 256 then Ok(Booleans(x + [s.code])) else Err(BadSchema)
    case FileCodes(x) => Err(BadSchema)
    case NumCodes(x) =>
      if isNull then Ok(NumCodes(x + [0])) else if s.Code? then Ok(NumCodes(x + [s.code])) else Err(BadSchema)
    case VarByteRows(x) =>
      if isNull then Ok(VarByteRows(x + [[]]))
      else if s.Bytes? then Ok(VarByteRows(x + [s.bytes])) else Err(BadSchema)
    case FixedByteRows(w, x) =>
      if isNull then Ok(FixedByteRows(w, x + [seq(w, _ => 0)]))
      else if s.Bytes? then Ok(FixedByteRows(w, x + [s.bytes])) else Err(BadSchema)
  }

  lemma PushScalarPushes(v: MaterializedValues, isNull: bool, s: Scalar)
    requires PushScalar(v, isNull, s).Ok?
    ensures var w := PushScalar(v, isNull, s).value;
            && KindOf(w) == KindOf(v) && RowCount(w) == RowCount(v) + 1
            && (forall i :: 0 <= i < RowCount(v) ==> ScalarAt(w, i) == ScalarAt(v, i))
            && (!isNull ==> ScalarAt(w, RowCount(v)) == s)
  {
  }

  /** The first `k` values of a batch pushed. */
  function PushScalars(v: MaterializedValues, nulls: seq<bool>, scalars: seq<Scalar>,
                       k: nat): Result<MaterializedValues>
    requires k <= |nulls| == |scalars|
    decreases k
  {
    if k == 0 then Ok(v)
    else
      match PushScalars(v, nulls, scalars, k - 1)
      case Err(e) => Err(e)
      case Ok(front) => PushScalar(front, nulls[k - 1], scalars[k - 1])
  }

  lemma {:induction false} PushScalarsPush(v: MaterializedValues, nulls: seq<bool>, scalars: seq<Scalar>, k: nat)
    requires k <= |nulls| == |scalars| && PushScalars(v, nulls, scalars, k).Ok?
    ensures var w := PushScalars(v, nulls, scalars, k).value;
            && KindOf(w) == KindOf(v) && RowCount(w) == RowCount(v) + k
            && (forall i :: 0 <= i < RowCount(v) ==> ScalarAt(w, i) == ScalarAt(v, i))
            && (forall i :: RowCount(v) <= i < RowCount(v) + k && !nulls[i - RowCount(v)] ==>
                  ScalarAt(w, i) == scalars[i - RowCount(v)])
    decreases k
  {
    if k > 0 {
      PushScalarsPush(v, nulls, scalars, k - 1);
      PushScalarPushes(PushScalars(v, nulls, scalars, k - 1).value, nulls[k - 1], scalars[k - 1]);
      hide PushScalar, ScalarAt, KindOf, RowCount;
    }
  }

  /** `append_array`: the column after one batch, or why the batch is refused. */
  function Appended(c: Column, a: Arr, canon: Value -> seq<byte>): Result<Column>
    requires WellFormed(c) && ArrOk(a)
    decreases c, 1, 0
  {
    var nulls := c.nulls + a.nulls;
    match (c, a)
    case (ScalarCol(_, vals), ScalarArr(_, scalars)) =>
      (match PushScalars(vals, a.nulls, scalars, Len(a))
       case Err(e) => Err(e)
       case Ok(more) => Ok(ScalarCol(nulls, more)))
    case (ListCol(_, kind, offsets, child), ListArr(_, arrKind, _, arrChild)) =>
      if kind != arrKind then Err(BadSchema)
      else if !OffsetsFit(offsets, a) then Err(ArithOverflow)
      else
        (match Appended(child, Covered(a, arrChild), canon)
         case Err(e) => Err(e)
         case Ok(more) => Ok(ListCol(nulls, kind, MoreOffsets(offsets, a), more)))
    case (StructCol(_, fields), StructArr(_, arrFields)) =>
      if |fields| != |arrFields| then Err(BadSchema)
      else
        (match AppendedFields(c, a, canon, |fields|)
         case Err(e) => Err(e)
         case Ok(done) => Ok(StructCol(nulls, done)))
    case (MapCol(_, offsets, keys, values, canonical), MapArr(_, _, arrKeys, arrValues)) =>
      if !OffsetsFit(offsets, a) then Err(ArithOverflow)
      else
        var newKeys := Covered(a, arrKeys);
        if true in newKeys.nulls then Err(BadSchema)
        else
          (match Appended(keys, newKeys, canon)
           case Err(e) => Err(e)
           case Ok(moreKeys) =>
             (match Appended(values, Covered(a, arrValues), canon)
              case Err(e) => Err(e)
              case Ok(moreValues) =>
                Ok(MapCol(nulls, MoreOffsets(offsets, a), moreKeys, moreValues,
                          canonical + Canonical(ArrValues(newKeys, 0, Len(newKeys), canon), canon)))))
    case _ => Err(BadSchema)
  }

  function AppendedFields(c: Column, a: Arr, canon: Value -> seq<byte>, k: nat): (r: Result<seq<Column>>)
    requires WellFormed(c) && ArrOk(a) && c.StructCol? && a.StructArr? && k <= |c.fields| == |a.fields|
    ensures r.Ok? ==> |r.value| == k
    ensures r.Ok? ==> forall i :: 0 <= i < k ==> Appended(c.fields[i], a.fields[i], canon) == Ok(r.value[i])
    decreases c, 0, k
  {
    if k == 0 then Ok([])
    else
      match AppendedFields(c, a, canon, k - 1)
      case Err(e) => Err(e)
      case Ok(front) =>
        match Appended(c.fields[k - 1], a.fields[k - 1], canon)
        case Err(e) => Err(e)
        case Ok(last) => Ok(front + [last])
  }

  /** `d` is `c` followed by the rows of `a`. */
  ghost predicate Extends(d: Column, c: Column, a: Arr, canon: Value -> seq<byte>) {
    && WellFormed(c) && ArrOk(a) && WellFormed(d) && Rows(d) == Rows(c) + Len(a) && SameShape(d, c)
    && (forall i :: 0 <= i < Rows(c) ==> RowValue(d, i) == RowValue(c, i))
    && (forall i :: Rows(c) <= i < Rows(d) ==> RowValue(d, i) == ArrValue(a, i - Rows(c), canon))
  }

  lemma MoreOffsetsOk(offsets: seq<nat>, n: nat, childRows: nat, a: Arr)
    requires ArrOk(a) && (a.ListArr? || a.MapArr?)
    requires OffsetsOk(offsets, n, childRows) && OffsetsFit(offsets, a)
    ensures OffsetsOk(MoreOffsets(offsets, a), n + Len(a), childRows + ItemCount(a, Len(a)))
    ensures forall i :: 0 <= i <= n ==> MoreOffsets(offsets, a)[i] == offsets[i]
    ensures forall i :: 0 <= i <= Len(a) ==> MoreOffsets(offsets, a)[n + i] == childRows + ItemCount(a, i)
  {
    hide ArrOk;
    var more := MoreOffsets(offsets, a);
    forall i | 0 <= i <= Len(a) ensures more[n + i] == childRows + ItemCount(a, i) {
      ItemsOrdered(a, 0, i);
    }
    assert more[n + Len(a)] == childRows + ItemCount(a, Len(a));
    forall i, j | 0 <= i <= j <= n + Len(a) ensures more[i] <= more[j] {
      if i > n {
        ItemsOrdered(a, i - n, j - n);
        assert more[i] == more[n + (i - n)] && more[j] == more[n + (j - n)];
      } else if j > n {
        ItemsOrdered(a, 0, j - n);
        assert more[j] == more[n + (j - n)];
      }
    }
  }

  lemma OldStretch(d: Column, c: Column, a: Arr, canon: Value -> seq<byte>, from: nat, n: nat)
    requires Extends(d, c, a, canon) && from + n <= Rows(c)
    ensures RowValues(d, from, n) == RowValues(c, from, n)
  {
  }

  lemma NewStretch(d: Column, c: Column, a: Arr, canon: Value -> seq<byte>, from: nat, n: nat)
    requires Extends(d, c, a, canon) && from + n <= Len(a)
    ensures RowValues(d, Rows(c) + from, n) == ArrValues(a, from, n, canon)
  {
    hide WellFormed, ArrOk, RowValue, ArrValue, SameShape;
    forall i | 0 <= i < n ensures RowValues(d, Rows(c) + from, n)[i] == ArrValues(a, from, n, canon)[i] {
      assert Rows(c) + from + i - Rows(c) == from + i;
    }
  }

  /** Items of a batch row, inside the covered part of the child array. */
  lemma CoveredStretch(a: Arr, child: Arr, row: nat, canon: Value -> seq<byte>)
    requires ArrOk(a) && (a.ListArr? || a.MapArr?) && row < Len(a)
    requires a.ListArr? ==> child == a.child
    requires a.MapArr? ==> child == a.keys || child == a.values
    ensures ItemCount(a, row) <= ItemCount(a, row + 1) <= Len(Covered(a, child))
    ensures ItemStart(a, row) <= ItemStart(a, row + 1) <= Len(child) && ArrOk(child)
    ensures var n := ItemStart(a, row + 1) - ItemStart(a, row);
            ItemCount(a, row + 1) - ItemCount(a, row) == n
            && ArrValues(Covered(a, child), ItemCount(a, row), n, canon)
               == ArrValues(child, ItemStart(a, row), n, canon)
  {
    ItemsOrdered(a, 0, row);
    ItemsOrdered(a, row, row + 1);
    ItemsOrdered(a, row + 1, Len(a));
    ItemsOrdered(a, 0, Len(a));
    SliceManyDenotes(child, ItemStart(a, 0), ItemCount(a, Len(a)), ItemCount(a, row),
                     ItemStart(a, row + 1) - ItemStart(a, row), canon);
  }

  lemma OldOffsets(offsets: seq<nat>, n: nat, childRows: nat, a: Arr, i: nat)
    requires ArrOk(a) && (a.ListArr? || a.MapArr?)
    requires OffsetsOk(offsets, n, childRows) && OffsetsFit(offsets, a) && i < n
    ensures MoreOffsets(offsets, a)[i] == offsets[i] && MoreOffsets(offsets, a)[i + 1] == offsets[i + 1]
  {
    MoreOffsetsOk(offsets, n, childRows, a);
  }

  lemma NewOffsetsAt(offsets: seq<nat>, n: nat, childRows: nat, a: Arr, row: nat)
    requires ArrOk(a) && (a.ListArr? || a.MapArr?)
    requires OffsetsOk(offsets, n, childRows) && OffsetsFit(offsets, a) && row < Len(a)
    ensures MoreOffsets(offsets, a)[n + row] == childRows + ItemCount(a, row)
    ensures MoreOffsets(offsets, a)[n + row + 1] == childRows + ItemCount(a, row + 1)
  {
    MoreOffsetsOk(offsets, n, childRows, a);
    assert MoreOffsets(offsets, a)[n + (row + 1)] == childRows + ItemCount(a, row + 1);
  }

  /** A list column `d` made from `c` and a batch whose items went into the child. */
  ghost predicate ListGrown(c: Column, a: Arr, canon: Value -> seq<byte>, d: Column) {
    && WellFormed(c) && c.ListCol? && ArrOk(a) && a.ListArr? && OffsetsFit(c.offsets, a)
    && WellFormed(d) && d.ListCol? && d.nulls == c.nulls + a.nulls && d.offsets == MoreOffsets(c.offsets, a)
    && Extends(d.child, c.child, Covered(a, a.child), canon)
  }

  lemma ListOldRow(c: Column, a: Arr, canon: Value -> seq<byte>, d: Column, i: nat)
    requires ListGrown(c, a, canon, d) && i < Rows(c)
    ensures RowValue(d, i) == RowValue(c, i)
  {
    hide WellFormed, RowValue, ArrOk, Extends, MoreOffsets, OffsetsFit;
    ListOffsets(c);
    assert d.nulls[i] == c.nulls[i];
    OldOffsets(c.offsets, Rows(c), Rows(c.child), a, i);
    hide *;
    ListRow(d, i);
    ListRow(c, i);
    OldStretch(d.child, c.child, Covered(a, a.child), canon, c.offsets[i], c.offsets[i + 1] - c.offsets[i]);
  }

  lemma ListNewRow(c: Column, a: Arr, canon: Value -> seq<byte>, d: Column, row: nat)
    requires ListGrown(c, a, canon, d) && row < Len(a)
    ensures RowValue(d, Rows(c) + row) == ArrValue(a, row, canon)
  {
    hide WellFormed, RowValue, ArrOk, Extends, MoreOffsets, OffsetsFit, ArrValue;
    ListOffsets(c);
    assert d.nulls[Rows(c) + row] == a.nulls[row];
    NewOffsetsAt(c.offsets, Rows(c), Rows(c.child), a, row);
    hide *;
    ListRow(d, Rows(c) + row);
    CoveredStretch(a, a.child, row, canon);
    ArrListRow(a, row, canon);
    NewStretch(d.child, c.child, Covered(a, a.child), canon, ItemCount(a, row),
               ItemStart(a, row + 1) - ItemStart(a, row));
  }

  lemma ArrMapRow(a: Arr, row: nat, canon: Value -> seq<byte>)
    requires ArrOk(a) && a.MapArr? && row < Len(a)
    ensures row + 1 < |a.offsets| && ArrOk(a.keys) && ArrOk(a.values)
    ensures a.offsets[row] <= a.offsets[row + 1] <= Len(a.keys) == Len(a.values)
    ensures ItemStart(a, row) == a.offsets[row] && ItemStart(a, row + 1) == a.offsets[row + 1]
    ensures var from, n := a.offsets[row], a.offsets[row + 1] - a.offsets[row];
            var ks := ArrValues(a.keys, from, n, canon);
            ArrValue(a, row, canon) ==
              if a.nulls[row] then Null
              else MapOf(Entries(ks, ArrValues(a.values, from, n, canon), Canonical(ks, canon)))
  {
    ItemsOrdered(a, row, row + 1);
  }

  /** The canonical keys that a map batch adds. */
  function NewCanonical(a: Arr, canon: Value -> seq<byte>): (r: seq<seq<byte>>)
    requires ArrOk(a) && a.MapArr?
    ensures |r| == Len(Covered(a, a.keys))
  {
    var keys := Covered(a, a.keys);
    Canonical(ArrValues(keys, 0, Len(keys), canon), canon)
  }

  /** A map column `d` made from `c` and a batch. */
  ghost predicate MapGrown(c: Column, a: Arr, canon: Value -> seq<byte>, d: Column) {
    && WellFormed(c) && c.MapCol? && ArrOk(a) && a.MapArr? && OffsetsFit(c.offsets, a)
    && WellFormed(d) && d.MapCol? && d.nulls == c.nulls + a.nulls && d.offsets == MoreOffsets(c.offsets, a)
    && Extends(d.keys, c.keys, Covered(a, a.keys), canon)
    && Extends(d.values, c.values, Covered(a, a.values), canon)
    && d.canonical == c.canonical + NewCanonical(a, canon)
  }

  lemma MapOldRow(c: Column, a: Arr, canon: Value -> seq<byte>, d: Column, i: nat)
    requires MapGrown(c, a, canon, d) && i < Rows(c)
    ensures RowValue(d, i) == RowValue(c, i)
  {
    hide WellFormed, RowValue, ArrOk, Extends, MoreOffsets, OffsetsFit, NewCanonical;
    MapOffsets(c);
    assert d.nulls[i] == c.nulls[i];
    OldOffsets(c.offsets, Rows(c), Rows(c.keys), a, i);
    var from, to := c.offsets[i], c.offsets[i + 1];
    MapRow(c, i);
    assert d.canonical[from..to] == c.canonical[from..to];
    hide *;
    MapRow(d, i);
    OldStretch(d.keys, c.keys, Covered(a, a.keys), canon, from, to - from);
    OldStretch(d.values, c.values, Covered(a, a.values), canon, from, to - from);
  }

  lemma MapNewRow(c: Column, a: Arr, canon: Value -> seq<byte>, d: Column, row: nat)
    requires MapGrown(c, a, canon, d) && row < Len(a)
    ensures RowValue(d, Rows(c) + row) == ArrValue(a, row, canon)
  {
    hide WellFormed, RowValue, ArrOk, Extends, MoreOffsets, OffsetsFit, ArrValue, NewCanonical, Covered, ArrValues;
    MapOffsets(c);
    assert d.nulls[Rows(c) + row] == a.nulls[row];
    NewOffsetsAt(c.offsets, Rows(c), Rows(c.keys), a, row);
    ArrMapRow(a, row, canon);
    CoveredStretch(a, a.keys, row, canon);
    CoveredStretch(a, a.values, row, canon);
    var from, n := ItemCount(a, row), ItemStart(a, row + 1) - ItemStart(a, row);
    NewCanonicalAt(a, row, canon);
    assert d.canonical[Rows(c.keys) + from..Rows(c.keys) + (from + n)] == NewCanonical(a, canon)[from..from + n];
    hide *;
    MapRow(d, Rows(c) + row);
    NewStretch(d.keys, c.keys, Covered(a, a.keys), canon, from, n);
    NewStretch(d.values, c.values, Covered(a, a.values), canon, from, n);
  }

  lemma NewCanonicalAt(a: Arr, row: nat, canon: Value -> seq<byte>)
    requires ArrOk(a) && a.MapArr? && row < Len(a)
    ensures ItemCount(a, row) <= ItemCount(a, row + 1) <= |NewCanonical(a, canon)|
    ensures ItemStart(a, row) <= ItemStart(a, row + 1) <= Len(a.keys) && ArrOk(a.keys)
    ensures NewCanonical(a, canon)[ItemCount(a, row)..ItemCount(a, row + 1)]
            == Canonical(ArrValues(a.keys, ItemStart(a, row), ItemStart(a, row + 1) - ItemStart(a, row), canon), canon)
  {
    CoveredStretch(a, a.keys, row, canon);
    var keys, from, n := Covered(a, a.keys), ItemCount(a, row), ItemStart(a, row + 1) - ItemStart(a, row);
    hide ArrValue, ArrOk, Covered, ItemCount;
    assert ArrValues(keys, 0, Len(keys), canon)[from..from + n] == ArrValues(keys, from, n, canon);
  }

  // ---- the main result ----

  lemma ScalarAppends(c: Column, a: Arr, canon: Value -> seq<byte>)
    requires WellFormed(c) && c.ScalarCol? && ArrOk(a) && a.ScalarArr? && Appended(c, a, canon).Ok?
    ensures Extends(Appended(c, a, canon).value, c, a, canon)
  {
    PushScalarsPush(c.vals, a.nulls, a.scalars, Len(a));
  }

  lemma ListGrows(c: Column, a: Arr, canon: Value -> seq<byte>, child: Column)
    requires WellFormed(c) && c.ListCol? && ArrOk(a) && a.ListArr? && c.kind == a.kind && OffsetsFit(c.offsets, a)
    requires Extends(child, c.child, Covered(a, a.child), canon)
    ensures Extends(ListCol(c.nulls + a.nulls, c.kind, MoreOffsets(c.offsets, a), child), c, a, canon)
  {
    hide RowValue, ArrValue, MoreOffsets, OffsetsFit;
    var d := ListCol(c.nulls + a.nulls, c.kind, MoreOffsets(c.offsets, a), child);
    MoreOffsetsOk(c.offsets, Rows(c), Rows(c.child), a);
    assert WellFormed(d) && ListGrown(c, a, canon, d);
    assert SameShape(d, c) && Rows(d) == Rows(c) + Len(a);
    hide *;
    forall i | 0 <= i < Rows(c) ensures RowValue(d, i) == RowValue(c, i) { ListOldRow(c, a, canon, d, i); }
    forall i | Rows(c) <= i < Rows(d) ensures RowValue(d, i) == ArrValue(a, i - Rows(c), canon) {
      ListNewRow(c, a, canon, d, i - Rows(c));
    }
    RowsExtend(d, c, a, canon);
  }

  lemma RowsExtend(d: Column, c: Column, a: Arr, canon: Value -> seq<byte>)
    requires WellFormed(c) && ArrOk(a) && WellFormed(d) && Rows(d) == Rows(c) + Len(a) && SameShape(d, c)
    requires forall i :: 0 <= i < Rows(c) ==> RowValue(d, i) == RowValue(c, i)
    requires forall i :: Rows(c) <= i < Rows(d) ==> RowValue(d, i) == ArrValue(a, i - Rows(c), canon)
    ensures Extends(d, c, a, canon)
  {
    hide WellFormed, ArrOk, RowValue, ArrValue, SameShape;
  }

  lemma MapGrows(c: Column, a: Arr, canon: Value -> seq<byte>, keys: Column, values: Column)
    requires WellFormed(c) && c.MapCol? && ArrOk(a) && a.MapArr? && OffsetsFit(c.offsets, a)
    requires Extends(keys, c.keys, Covered(a, a.keys), canon)
    requires Extends(values, c.values, Covered(a, a.values), canon)
    requires keys.ScalarCol? && true !in keys.nulls
    ensures Extends(MapCol(c.nulls + a.nulls, MoreOffsets(c.offsets, a), keys, values,
                           c.canonical + NewCanonical(a, canon)), c, a, canon)
  {
    hide *;
    var d := MapCol(c.nulls + a.nulls, MoreOffsets(c.offsets, a), keys, values, c.canonical + NewCanonical(a, canon));
    MapGrownIs(c, a, canon, keys, values);
    MapShapes(c, a, canon, d);
    forall i | 0 <= i < Rows(c) ensures RowValue(d, i) == RowValue(c, i) { MapOldRow(c, a, canon, d, i); }
    forall i | Rows(c) <= i < Rows(d) ensures RowValue(d, i) == ArrValue(a, i - Rows(c), canon) {
      MapNewRow(c, a, canon, d, i - Rows(c));
    }
    RowsExtend(d, c, a, canon);
  }

  lemma MapGrownIs(c: Column, a: Arr, canon: Value -> seq<byte>, keys: Column, values: Column)
    requires WellFormed(c) && c.MapCol? && ArrOk(a) && a.MapArr? && OffsetsFit(c.offsets, a)
    requires Extends(keys, c.keys, Covered(a, a.keys), canon)
    requires Extends(values, c.values, Covered(a, a.values), canon)
    requires keys.ScalarCol? && true !in keys.nulls
    ensures MapGrown(c, a, canon, MapCol(c.nulls + a.nulls, MoreOffsets(c.offsets, a), keys, values,
                                         c.canonical + NewCanonical(a, canon)))
  {
    hide RowValue, ArrValue, MoreOffsets, OffsetsFit, NewCanonical, SameShape, Extends, ArrOk;
    MapOffsets(c);
    ExtendsSizes(keys, c.keys, Covered(a, a.keys), canon);
    ExtendsSizes(values, c.values, Covered(a, a.values), canon);
    MoreOffsetsOk(c.offsets, Rows(c), Rows(c.keys), a);
  }

  lemma ExtendsSizes(d: Column, c: Column, a: Arr, canon: Value -> seq<byte>)
    requires Extends(d, c, a, canon)
    ensures WellFormed(d) && WellFormed(c) && ArrOk(a) && Rows(d) == Rows(c) + Len(a) && SameShape(d, c)
  {
    hide RowValue, ArrValue, WellFormed, ArrOk, SameShape;
  }

  lemma MapShapes(c: Column, a: Arr, canon: Value -> seq<byte>, d: Column)
    requires MapGrown(c, a, canon, d)
    ensures SameShape(d, c) && Rows(d) == Rows(c) + Len(a) && WellFormed(d)
  {
    hide RowValue, ArrValue, MoreOffsets, OffsetsFit, NewCanonical, Extends, WellFormed, ArrOk;
    MapOffsets(c);
    ExtendsSizes(d.keys, c.keys, Covered(a, a.keys), canon);
    ExtendsSizes(d.values, c.values, Covered(a, a.values), canon);
  }

  lemma StructGrows(c: Column, a: Arr, canon: Value -> seq<byte>, fields: seq<Column>)
    requires WellFormed(c) && c.StructCol? && ArrOk(a) && a.StructArr? && |fields| == |c.fields| == |a.fields|
    requires forall k :: 0 <= k < |fields| ==> Extends(fields[k], c.fields[k], a.fields[k], canon)
    ensures Extends(StructCol(c.nulls + a.nulls, fields), c, a, canon)
  {
    var d := StructCol(c.nulls + a.nulls, fields);
    assert WellFormed(d) && SameShape(d, c);
    forall i | 0 <= i < Rows(d)
      ensures RowValue(d, i) == if i < Rows(c) then RowValue(c, i) else ArrValue(a, i - Rows(c), canon)
    {
      StructRowGrows(c, a, canon, d, i);
    }
  }

  lemma StructRowGrows(c: Column, a: Arr, canon: Value -> seq<byte>, d: Column, i: nat)
    requires WellFormed(c) && c.StructCol? && ArrOk(a) && a.StructArr? && WellFormed(d) && d.StructCol?
    requires |d.fields| == |c.fields| == |a.fields| && d.nulls == c.nulls + a.nulls && i < Rows(d)
    requires forall k :: 0 <= k < |d.fields| ==> Extends(d.fields[k], c.fields[k], a.fields[k], canon)
    ensures RowValue(d, i) == if i < Rows(c) then RowValue(c, i) else ArrValue(a, i - Rows(c), canon)
  {
    hide Extends, WellFormed, ArrOk;
    StructColFields(c);
    StructColFields(d);
    StructFields(a);
    forall k | 0 <= k < |d.fields|
      ensures RowValue(d.fields[k], i)
              == if i < Rows(c) then RowValue(c.fields[k], i) else ArrValue(a.fields[k], i - Rows(c), canon)
    {
      hide RowValue, ArrValue;
      ExtendsRow(d.fields[k], c.fields[k], a.fields[k], canon, i);
    }
  }

  lemma StructColFields(c: Column)
    requires WellFormed(c) && c.StructCol?
    ensures forall k :: 0 <= k < |c.fields| ==> WellFormed(c.fields[k]) && Rows(c.fields[k]) == Rows(c)
  {
  }

  lemma ExtendsRow(d: Column, c: Column, a: Arr, canon: Value -> seq<byte>, i: nat)
    requires Extends(d, c, a, canon) && i < Rows(d)
    ensures WellFormed(d) && WellFormed(c) && ArrOk(a) && Rows(d) == Rows(c) + Len(a)
    ensures RowValue(d, i) == if i < Rows(c) then RowValue(c, i) else ArrValue(a, i - Rows(c), canon)
  {
    hide RowValue, ArrValue, WellFormed, ArrOk, SameShape;
  }

  /** A successful append keeps the shape invariant at every level and makes the
      column denote its old rows followed by the rows of the batch. */
  lemma {:induction false} AppendDenotes(c: Column, a: Arr, canon: Value -> seq<byte>)
    requires WellFormed(c) && ArrOk(a) && Appended(c, a, canon).Ok?
    ensures Extends(Appended(c, a, canon).value, c, a, canon)
    decreases c
  {
    hide RowValue, ArrValue, MoreOffsets, OffsetsFit, Extends, SameShape, Covered, Canonical;
    match (c, a)
    case (ScalarCol(_, _), ScalarArr(_, _)) => ScalarAppends(c, a, canon);
    case (ListCol(_, _, _, child), ListArr(_, _, _, arrChild)) =>
      AppendDenotes(child, Covered(a, arrChild), canon);
      ListGrows(c, a, canon, Appended(child, Covered(a, arrChild), canon).value);
    case (StructCol(_, fields), StructArr(_, arrFields)) =>
      var done := AppendedFields(c, a, canon, |fields|).value;
      forall k | 0 <= k < |fields| ensures Extends(done[k], fields[k], arrFields[k], canon) {
        AppendDenotes(fields[k], arrFields[k], canon);
      }
      StructGrows(c, a, canon, done);
    case (MapCol(_, _, keys, values, _), MapArr(_, _, arrKeys, arrValues)) =>
      AppendDenotes(keys, Covered(a, arrKeys), canon);
      AppendDenotes(values, Covered(a, arrValues), canon);
      MapGrows(c, a, canon, Appended(keys, Covered(a, arrKeys), canon).value,
               Appended(values, Covered(a, arrValues), canon).value);
  }

  /** A run of appends that all succeed. */
  function AppendAll(c: Column, batches: seq<Arr>, canon: Value -> seq<byte>): Result<Column>
    requires WellFormed(c) && forall i :: 0 <= i < |batches| ==> ArrOk(batches[i])
    decreases |batches|
  {
    if batches == [] then Ok(c)
    else
      match Appended(c, batches[0], canon)
      case Err(e) => Err(e)
      case Ok(d) =>
        AppendDenotes(c, batches[0], canon);
        AppendAll(d, batches[1..], canon)
  }

  function BatchValues(batches: seq<Arr>, canon: Value -> seq<byte>): seq<Value>
    requires forall i :: 0 <= i < |batches| ==> ArrOk(batches[i])
  {
    if batches == [] then []
    else ArrValues(batches[0], 0, Len(batches[0]), canon) + BatchValues(batches[1..], canon)
  }

  lemma ExtendsValues(d: Column, c: Column, a: Arr, canon: Value -> seq<byte>)
    requires Extends(d, c, a, canon)
    ensures RowValues(d, 0, Rows(d)) == RowValues(c, 0, Rows(c)) + ArrValues(a, 0, Len(a), canon)
  {
    hide WellFormed, ArrOk, RowValue, ArrValue, SameShape;
  }

  /** After any run of successful appends the column denotes, row by row, its old
      rows followed by the concatenation of the batches, and is well formed. */
  lemma {:induction false} AppendAllDenotes(c: Column, batches: seq<Arr>, canon: Value -> seq<byte>)
    requires WellFormed(c) && forall i :: 0 <= i < |batches| ==> ArrOk(batches[i])
    requires AppendAll(c, batches, canon).Ok?
    ensures var d := AppendAll(c, batches, canon).value;
            WellFormed(d) && RowValues(d, 0, Rows(d)) == RowValues(c, 0, Rows(c)) + BatchValues(batches, canon)
    decreases |batches|
  {
    hide RowValues, ArrValues, RowValue, ArrValue, Appended, ArrOk;
    if batches == [] {
      assert RowValues(c, 0, Rows(c)) + [] == RowValues(c, 0, Rows(c));
    } else {
      var d := Appended(c, batches[0], canon).value;
      AppendDenotes(c, batches[0], canon);
      ExtendsValues(d, c, batches[0], canon);
      AppendAllDenotes(d, batches[1..], canon);
      assert (RowValues(c, 0, Rows(c)) + ArrValues(batches[0], 0, Len(batches[0]), canon))
        + BatchValues(batches[1..], canon)
          == RowValues(c, 0, Rows(c))
             + (ArrValues(batches[0], 0, Len(batches[0]), canon) + BatchValues(batches[1..], canon));
    }
  }

  /** Appends a batch level by level: offsets first, then the child slice they cover. */
  method AppendArray(c: Column, a: Arr, canon: Value -> seq<byte>) returns (r: Result<Column>)
    requires WellFormed(c) && ArrOk(a)
    ensures r == Appended(c, a, canon)
    decreases c
  {
    hide MoreOffsets, OffsetsFit, ArrValue, RowValue;
    var nulls := c.nulls + a.nulls;
    match (c, a) {
      case (ScalarCol(_, vals), ScalarArr(_, scalars)) =>
        var more := PushBatch(vals, a.nulls, scalars);
        r := match more { case Err(e) => Err(e) case Ok(v) => Ok(ScalarCol(nulls, v)) };
      case (ListCol(_, kind, offsets, child), ListArr(_, arrKind, _, arrChild)) =>
        if kind != arrKind { return Err(BadSchema); }
        var newOffsets :- AppendOffsets(offsets, a);
        var newChild :- AppendArray(child, Covered(a, arrChild), canon);
        r := Ok(ListCol(nulls, kind, newOffsets, newChild));
      case (StructCol(_, fields), StructArr(_, arrFields)) =>
        if |fields| != |arrFields| { return Err(BadSchema); }
        var done: seq<Column> := [];
        for k := 0 to |fields|
          invariant AppendedFields(c, a, canon, k) == Ok(done)
        {
          var field := AppendArray(fields[k], arrFields[k], canon);
          if field.Err? {
            FieldRefused(c, a, canon, k, |fields|);
            return field;
          }
          done := done + [field.value];
        }
        r := Ok(StructCol(nulls, done));
      case (MapCol(_, offsets, keys, values, canonical), MapArr(_, _, arrKeys, arrValues)) =>
        var newOffsets :- AppendOffsets(offsets, a);
        var keySlice := Covered(a, arrKeys);
        if true in keySlice.nulls { return Err(BadSchema); }
        var newKeys :- AppendArray(keys, keySlice, canon);
        var newValues :- AppendArray(values, Covered(a, arrValues), canon);
        r := Ok(MapCol(nulls, newOffsets, newKeys, newValues, canonical + NewCanonical(a, canon)));
      case _ => r := Err(BadSchema);
    }
  }

  lemma {:induction false} FieldRefused(c: Column, a: Arr, canon: Value -> seq<byte>, k: nat, n: nat)
    requires WellFormed(c) && ArrOk(a) && c.StructCol? && a.StructArr? && k < n <= |c.fields| == |a.fields|
    requires AppendedFields(c, a, canon, k).Ok? && Appended(c.fields[k], a.fields[k], canon).Err?
    ensures AppendedFields(c, a, canon, n) == Err(Appended(c.fields[k], a.fields[k], canon).error)
    decreases n
  {
    hide Appended;
    if n > k + 1 { FieldRefused(c, a, canon, k, n - 1); }
  }

  /** `append_materialized_values`: push row by row. */
  method PushBatch(v: MaterializedValues, nulls: seq<bool>, scalars: seq<Scalar>)
    returns (r: Result<MaterializedValues>)
    requires |nulls| == |scalars|
    ensures r == PushScalars(v, nulls, scalars, |nulls|)
  {
    var out := v;
    for k := 0 to |nulls|
      invariant PushScalars(v, nulls, scalars, k) == Ok(out)
    {
      var next := PushScalar(out, nulls[k], scalars[k]);
      if next.Err? {
        PushRefused(v, nulls, scalars, k, |nulls|);
        return next;
      }
      out := next.value;
    }
    return Ok(out);
  }

  lemma {:induction false} PushRefused(v: MaterializedValues, nulls: seq<bool>, scalars: seq<Scalar>, k: nat, n: nat)
    requires k < n <= |nulls| == |scalars| && PushScalars(v, nulls, scalars, k + 1).Err?
    ensures PushScalars(v, nulls, scalars, n) == PushScalars(v, nulls, scalars, k + 1)
    decreases n
  {
    if n > k + 1 { PushRefused(v, nulls, scalars, k, n - 1); }
  }
}
