/** Reading page trees back: any in-range row list of a written page yields exactly
    those rows of the column, nulls and map keys included. */
module PageDecode {
  import opened Machine
  import opened Bits
  import opened LittleEndian
  import opened Validity
  import opened Scalars
  import opened Nested
  import opened NestedReorder
  import opened Layouts
  import opened PageTree
  import opened PageEmit
  import LeafExport
  import VarBytes

  /** `NestedSchemaNodeV1`, with what each leaf is exported as. */
  datatype Schema =
    | ScalarSchema(leaf: LeafExport.Leaf)
    | ListSchema(listKind: ListKind, item: Schema)
    | StructSchema(fields: seq<Schema>)
    | MapSchema(key: Schema, value: Schema)

  /** The schema has the column's shape and physical kinds; logical types are its own. */
  ghost predicate Describes(s: Schema, c: Column)
    decreases c
  {
    match c
    case ScalarCol(_, vals) => s.ScalarSchema? && LeafExport.LeafKind(s.leaf) == KindOf(vals)
    case ListCol(_, kind, _, child) => s.ListSchema? && s.listKind == kind && Describes(s.item, child)
    case StructCol(_, fields) =>
      s.StructSchema? && |s.fields| == |fields| && forall i :: 0 <= i < |fields| ==> Describes(s.fields[i], fields[i])
    case MapCol(_, _, keys, values, _) => s.MapSchema? && Describes(s.key, keys) && Describes(s.value, values)
  }

  function PhysicalOfSchema(s: Schema): PhysicalKind {
    match s
    case ScalarSchema(leaf) => ScalarPhysical(LeafExport.LeafKind(leaf))
    case ListSchema(_, _) => ListPhysical
    case StructSchema(_) => StructPhysical
    case MapSchema(_, _) => MapPhysical
  }

  /** `fixed_size_list_len`: zero for lists that carry offsets. */
  function Width(kind: ListKind): nat {
    match kind
    case FixedSizeList(width) => width
    case _ => 0
  }

  function OfKind(buffers: seq<Buffer>, kind: BufferKind): seq<Buffer> {
    if buffers == [] then []
    else (if buffers[0].kind == kind then [buffers[0]] else []) + OfKind(buffers[1..], kind)
  }

  /** `buffer_of_kind`: at most one buffer of a kind per node. */
  function OnlyBuffer(t: Tree, kind: BufferKind): Result<Option<seq<byte>>> {
    var found := OfKind(t.buffers, kind);
    if |found| > 1 then Err(PageCorrupt)
    else if |found| == 0 then Ok(None)
    else Ok(Some(found[0].bytes))
  }

  function RequiredBuffer(t: Tree, kind: BufferKind): Result<seq<byte>> {
    match OnlyBuffer(t, kind)
    case Err(e) => Err(e)
    case Ok(None) => Err(PageCorrupt)
    case Ok(Some(bytes)) => Ok(bytes)
  }

  /** The null flags of the listed rows; no bitmap means no nulls. */
  function NullFlags(t: Tree, rows: seq<nat>): (r: Result<seq<bool>>)
    ensures r.Ok? ==> |r.value| == |rows|
  {
    match OnlyBuffer(t, NullBitmapBuffer)
    case Err(e) => Err(e)
    case Ok(None) => Ok(Falses(|rows|))
    case Ok(Some(bytes)) =>
      if !Within(rows, t.node.logicalLen) || !Within(rows, 8 * |bytes|) then Err(OffsetRange)
      else Ok(seq(|rows|, i requires 0 <= i < |rows| => Bit(bytes[rows[i] / 8], rows[i] % 8)))
  }

  function Flagged(flags: seq<bool>, values: seq<Value>): (r: seq<Value>)
    requires |flags| == |values|
    ensures |r| == |flags|
  {
    seq(|flags|, i requires 0 <= i < |flags| => if flags[i] then Null else values[i])
  }

  /** Row i holds items offsets[i] to offsets[i + 1]. */
  ghost predicate Spans(offsets: seq<nat>, n: nat, items: nat) {
    |offsets| == n + 1 && Monotone(offsets) && offsets[n] <= items
  }

  function Lists(n: nat, offsets: seq<nat>, items: seq<Value>): (r: seq<Value>)
    requires Spans(offsets, n, |items|)
    ensures |r| == n
  {
    seq(n, i requires 0 <= i < n => ListOf(items[offsets[i]..offsets[i + 1]]))
  }

  function Multiples(n: nat, width: nat): (r: seq<nat>)
    ensures |r| == n + 1 && forall i :: 0 <= i <= n ==> r[i] == i * width
  {
    seq(n + 1, i => i * width)
  }

  lemma MultiplesSpan(n: nat, width: nat)
    ensures Spans(Multiples(n, width), n, n * width)
  {
    forall i, j | 0 <= i <= j <= n ensures i * width <= j * width {}
  }

  /** The Arrow list array: 32-bit offsets, or a fixed width that must fit exactly. */
  function ListArray(kind: ListKind, n: nat, offsets: seq<nat>, items: seq<Value>): (r: Result<seq<Value>>)
    requires Spans(offsets, n, |items|)
    ensures r.Ok? ==> |r.value| == n
  {
    var width := Width(kind);
    if width == 0 then if offsets[n] > I32_MAX then Err(ArithOverflow) else Ok(Lists(n, offsets, items))
    else if width > I32_MAX then Err(ArithOverflow)
    else if |items| != n * width then Err(BadSection)
    else
      MultiplesSpan(n, width);
      Ok(Lists(n, Multiples(n, width), items))
  }

  function Structs(n: nat, columns: seq<seq<Value>>): (r: seq<Value>)
    requires forall k :: 0 <= k < |columns| ==> |columns[k]| == n
    ensures |r| == n
  {
    seq(n, i requires 0 <= i < n =>
      StructOf(seq(|columns|, k requires 0 <= k < |columns| => columns[k][i])))
  }

  function Maps(n: nat, offsets: seq<nat>, entries: seq<Entry>): (r: seq<Value>)
    requires Spans(offsets, n, |entries|)
    ensures |r| == n
  {
    seq(n, i requires 0 <= i < n => MapOf(entries[offsets[i]..offsets[i + 1]]))
  }

  function WithFlags(flags: Result<seq<bool>>, values: Result<seq<Value>>): (r: Result<seq<Value>>)
    requires flags.Ok? && values.Ok? ==> |flags.value| == |values.value|
    ensures r.Ok? ==> values.Ok? && |r.value| == |values.value|
  {
    if flags.Err? then Err(flags.error)
    else if values.Err? then Err(values.error)
    else Ok(Flagged(flags.value, values.value))
  }

  /** The child rows of the listed rows, where the layout's offsets allow it. */
  lemma LayoutRows(offsets: seq<u32>, childRows: nat, rows: seq<nat>)
    requires ValidOffsets(offsets, childRows) && Within(rows, |offsets| - 1)
    ensures Monotone(offsets)
    ensures Spans(NewOffsets(offsets, rows), |rows|, |ChildRows(offsets, rows)|)
    ensures Within(ChildRows(offsets, rows), childRows)
  {
    forall i, j | 0 <= i <= j < |offsets| ensures offsets[i] <= offsets[j] {
      ValidOffsetsMonotone(offsets, childRows, i, j);
    }
    ValidOffsetsMonotone(offsets, childRows, 0, |offsets| - 1);
    NewOffsetsSpan(offsets, rows);
    ChildWithin(offsets, rows, childRows);
  }

  lemma {:induction false} NewOffsetsSpan(offsets: seq<nat>, rows: seq<nat>)
    requires |offsets| > 0 && Monotone(offsets) && Within(rows, |offsets| - 1)
    ensures Spans(NewOffsets(offsets, rows), |rows|, |ChildRows(offsets, rows)|)
    ensures NewOffsets(offsets, rows)[|rows|] == |ChildRows(offsets, rows)|
    decreases |rows|
  {
    if rows != [] {
      var front := rows[..|rows| - 1];
      Front(rows, |offsets| - 1);
      NewOffsetsSpan(offsets, front);
      ChildRowsSnoc(offsets, front, rows[|rows| - 1]);
    }
  }

  lemma {:induction false} ChildWithin(offsets: seq<nat>, rows: seq<nat>, childRows: nat)
    requires |offsets| > 0 && Monotone(offsets) && Within(rows, |offsets| - 1) && offsets[|offsets| - 1] <= childRows
    ensures Within(ChildRows(offsets, rows), childRows)
    decreases |rows|
  {
    if rows != [] {
      var front := rows[..|rows| - 1];
      Front(rows, |offsets| - 1);
      ChildWithin(offsets, front, childRows);
      ChildRowsSnoc(offsets, front, rows[|rows| - 1]);
    }
  }

  /** A list node's child rows and new offsets for the listed rows. */
  function ListRows(t: Tree, rows: seq<nat>): (r: Result<(seq<nat>, seq<nat>)>)
    ensures r.Ok? ==> Spans(r.value.1, |rows|, |r.value.0|)
  {
    match RequiredBuffer(t, ChildLayoutBuffer)
    case Err(e) => Err(e)
    case Ok(bytes) =>
      match ParseList(bytes)
      case Err(e) => Err(e)
      case Ok(l) =>
        if !ValidOffsets(l.offsets, l.childRows) then Err(PageCorrupt)
        else ChildSelection(l.offsets, l.childRows, rows)
  }

  function ChildSelection(offsets: seq<u32>, childRows: nat, rows: seq<nat>): (r: Result<(seq<nat>, seq<nat>)>)
    requires ValidOffsets(offsets, childRows)
    ensures r.Ok? ==> Spans(r.value.1, |rows|, |r.value.0|)
    ensures r.Ok? ==> Within(r.value.0, childRows)
  {
    if !Within(rows, |offsets| - 1) then Err(OffsetRange)
    else
      LayoutRows(offsets, childRows, rows);
      var selected := ChildRows(offsets, rows);
      if |selected| > U32_MAX then Err(ArithOverflow) else Ok((selected, NewOffsets(offsets, rows)))
  }

  function StructCheck(t: Tree): Result<()> {
    match RequiredBuffer(t, ChildLayoutBuffer)
    case Err(e) => Err(e)
    case Ok(bytes) =>
      match ParseStruct(bytes)
      case Err(e) => Err(e)
      case Ok(l) => if ValidStruct(l, t.node.logicalLen) then Ok(()) else Err(PageCorrupt)
  }

  /** A map node's child rows, new offsets and canonical keys for the listed rows. */
  function MapRows(t: Tree, rows: seq<nat>): (r: Result<(seq<nat>, seq<nat>, seq<seq<byte>>)>)
    ensures r.Ok? ==> Spans(r.value.1, |rows|, |r.value.0|) && |r.value.2| == |r.value.0|
  {
    match RequiredBuffer(t, ChildLayoutBuffer)
    case Err(e) => Err(e)
    case Ok(bytes) =>
      match ParseMap(bytes)
      case Err(e) => Err(e)
      case Ok(l) =>
        if !ValidMap(l) then Err(PageCorrupt)
        else
          match ChildSelection(l.offsets, l.keyRows, rows)
          case Err(e) => Err(e)
          case Ok((selected, offsets)) => Ok((selected, offsets, Pick(l.canonical, selected)))
  }

  function MapArray(n: nat, offsets: seq<nat>, entries: seq<Entry>): (r: Result<seq<Value>>)
    requires Spans(offsets, n, |entries|)
    ensures r.Ok? ==> |r.value| == n
  {
    if offsets[n] > I32_MAX then Err(ArithOverflow) else Ok(Maps(n, offsets, entries))
  }

  /** `nested_tree_to_arrow_array`: the listed rows of a page tree. An offset list too
      short for a listed row is an error. */
  ghost function DecodeTree(t: Tree, s: Schema, rows: seq<nat>): (r: Result<seq<Value>>)
    ensures r.Ok? ==> |r.value| == |rows|
    decreases t
  {
    if t.node.physical != PhysicalOfSchema(s) then Err(PageCorrupt)
    else if !Within(rows, t.node.logicalLen) then Err(OffsetRange)
    else
      match s
      case ScalarSchema(leaf) => DecodeLeaf(t, leaf, rows)
      case ListSchema(kind, item) =>
        if |t.children| != 1 then Err(PageCorrupt)
        else
          (match ListRows(t, rows)
           case Err(e) => Err(e)
           case Ok((childRows, offsets)) =>
             match DecodeTree(t.children[0], item, childRows)
             case Err(e) => Err(e)
             case Ok(items) => WithFlags(NullFlags(t, rows), ListArray(kind, |rows|, offsets, items)))
      case StructSchema(fields) =>
        if |t.children| != |fields| then Err(PageCorrupt)
        else
          (match StructCheck(t)
           case Err(e) => Err(e)
           case Ok(_) =>
             match DecodeFields(t.children, fields, rows)
             case Err(e) => Err(e)
             case Ok(columns) => WithFlags(NullFlags(t, rows), Ok(Structs(|rows|, columns))))
      case MapSchema(key, value) =>
        if |t.children| != 2 then Err(PageCorrupt)
        else
          match MapRows(t, rows)
          case Err(e) => Err(e)
          case Ok((childRows, offsets, canonical)) =>
            match DecodeTree(t.children[0], key, childRows)
            case Err(e) => Err(e)
            case Ok(keys) =>
              if Null in keys then Err(PageCorrupt)
              else
                match DecodeTree(t.children[1], value, childRows)
                case Err(e) => Err(e)
                case Ok(values) =>
                  WithFlags(NullFlags(t, rows), MapArray(|rows|, offsets, Entries(keys, values, canonical)))
  }

  ghost function DecodeFields(ts: seq<Tree>, fields: seq<Schema>, rows: seq<nat>): (r: Result<seq<seq<Value>>>)
    requires |ts| == |fields|
    ensures r.Ok? ==> |r.value| == |ts| && forall k :: 0 <= k < |ts| ==> |r.value[k]| == |rows|
    decreases ts
  {
    if ts == [] then Ok([])
    else
      match DecodeTree(ts[0], fields[0], rows)
      case Err(e) => Err(e)
      case Ok(first) =>
        match DecodeFields(ts[1..], fields[1..], rows)
        case Err(e) => Err(e)
        case Ok(more) => Ok([first] + more)
  }

  /** The array a leaf node hands to the export: its values and its bitmap. */
  function NodePage(t: Tree, bytes: seq<byte>, bitmap: Option<seq<byte>>): VarBytes.Page {
    var n := t.node.logicalLen;
    VarBytes.Page(bytes, n, if bitmap.Some? then Some(Bitmap(bitmap.value, n)) else None)
  }

  /** A leaf is exported like a flat column, by the routes of its kind; which of its errors
      is reported is not modelled. */
  ghost function DecodeLeaf(t: Tree, leaf: LeafExport.Leaf, rows: seq<nat>): (r: Result<seq<Value>>)
    requires Within(rows, t.node.logicalLen)
    ensures r.Ok? ==> |r.value| == |rows|
  {
    if Ok(t.node.encoding) != MaterializedEncoding(ScalarPhysical(LeafExport.LeafKind(leaf))) then Err(BadSection)
    else
      match RequiredBuffer(t, ValuesBuffer)
      case Err(e) => Err(e)
      case Ok(bytes) =>
        match OnlyBuffer(t, NullBitmapBuffer)
        case Err(e) => Err(e)
        case Ok(bitmap) =>
          var p, sel := NodePage(t, bytes, bitmap), LeafExport.ListedRows(rows, t.node.logicalLen);
          LeafExport.ListedVisits(rows, t.node.logicalLen);
          if LeafExport.LeafAccepted(leaf, p, sel) then Ok(LeafExport.LeafCells(leaf, p, sel)) else Err(PageCorrupt)
  }
}
