/** Exporting one leaf of a page tree to Arrow: the dispatch over the direct routes and
    the row-by-row fallback, and what an Arrow reader sees in the result. */
module LeafExport {
  import opened Machine
  import opened Bits
  import opened LittleEndian
  import opened Validity
  import opened Scalars
  import opened VarBytes
  import opened VarBytesExport
  import opened NumCodes
  import opened Booleans
  import RowSelection
  import SelectedRoutes
  import Nested

  /** Which Arrow array a leaf becomes, by its logical type and the export options:
      `Int64Leaf` for Int64 and both timestamps, `UInt64Leaf` for UInt64, `NarrowLeaf` for
      the smaller integers, dates (32 signed bits) and floats (their bits, unsigned). */
  datatype Leaf =
    | BooleanLeaf
    | Int64Leaf
    | UInt64Leaf
    | NarrowLeaf(signed: bool, bits: nat)
    | FileCodeLeaf
    | BinaryLeaf
    | TextLeaf(policy: StringPolicy)
    | FixedLeaf(width: nat)

  function LeafKind(l: Leaf): Kind {
    match l
    case BooleanLeaf => BooleanKind
    case Int64Leaf => NumCodeKind
    case UInt64Leaf => NumCodeKind
    case NarrowLeaf(_, _) => NumCodeKind
    case FileCodeLeaf => FileCodeKind
    case BinaryLeaf => VarBytesKind
    case TextLeaf(_) => VarBytesKind
    case FixedLeaf(width) => FixedBytesKind(width)
  }

  /** The code stands for a number of the leaf's narrow type (`i8::try_from` and the like). */
  predicate CodeFits(l: Leaf, code: u64) {
    match l
    case NarrowLeaf(true, bits) => 0 <= 2 * AsI64(code) + Pow2(bits) < 2 * Pow2(bits)
    case NarrowLeaf(false, bits) => code < Pow2(bits)
    case _ => true
  }

  /** Bytes a row takes in the fallback. */
  function CodeWidth(l: Leaf): nat {
    if l.FileCodeLeaf? then 4 else 8
  }

  /** `decode_present_row` of a code, narrowed to the leaf's type. */
  function PresentCode(l: Leaf, p: Page, row: nat): Result<u64> {
    var width := CodeWidth(l);
    if width * row + width > |p.data| then Err(OffsetRange)
    else
      var code := CodeIn(p.data[width * row..width * row + width]);
      if CodeFits(l, code) then Ok(code) else Err(PageCorrupt)
  }

  function CodeIn(bytes: seq<byte>): (code: u64)
    requires |bytes| <= 8
    ensures code == LeNat(bytes)
  {
    Widths();
    LeBytesOfNat(bytes);
    Pow2Monotone(8 * |bytes|, 64);
    LeNat(bytes)
  }

  /** `decode_row`: a null, or the row's code. */
  function RowCode(l: Leaf, p: Page, row: nat): Result<Option<u64>> {
    match IsNull(p, row)
    case Err(e) => Err(e)
    case Ok(true) => Ok(None)
    case Ok(false) =>
      match PresentCode(l, p, row)
      case Err(e) => Err(e)
      case Ok(code) => Ok(Some(code))
  }

  ghost predicate FixedAccepted(width: nat, p: Page, rows: seq<nat>) {
    width * p.rowCount <= |p.data| && RowsIn(p, rows) && NullsReadable(p, rows)
  }

  function FixedAt(width: nat, p: Page, row: nat): (bytes: seq<byte>)
    requires width * p.rowCount <= |p.data| && row < p.rowCount
  {
    RowInside(width, row, p.rowCount);
    p.data[width * row..width * row + width]
  }

  lemma {:induction false} RowInside(width: nat, row: nat, n: nat)
    requires row < n
    ensures 0 <= width * row && width * row + width <= width * n
    decreases n
  {
    assert width * n == width * (n - 1) + width;
    if row + 1 < n { RowInside(width, row, n - 1); }
  }

  /** When the leaf exports, whichever route it takes. */
  ghost predicate LeafAccepted(l: Leaf, p: Page, sel: RowSelection.Selection) {
    var visited := RowSelection.Visited(sel, p.rowCount);
    && visited.Ok?
    && match l
       case BooleanLeaf => BoolsAccepted(p, visited.value)
       case Int64Leaf => CodesAccepted(p, visited.value, true)
       case UInt64Leaf => CodesAccepted(p, visited.value, false)
       case BinaryLeaf => Accepted(U32Prefixed, p, sel)
       case TextLeaf(policy) =>
         && HasNulls(p.validity).Ok? && Accepted(U32Prefixed, p, sel)
         && (policy != TrustedPageProof ==> TextCells(ExportedCells(U32Prefixed, p, sel)))
       case FixedLeaf(width) => FixedAccepted(width, p, visited.value)
       case _ => forall i :: 0 <= i < |visited.value| ==> RowCode(l, p, visited.value[i]).Ok?
  }

  function CellValue(c: Cell): Nested.Value {
    match c
    case None => Nested.Null
    case Some(bytes) => Nested.Prim(Bytes(bytes))
  }

  function CodeValue(code: Option<u64>): Nested.Value {
    match code
    case None => Nested.Null
    case Some(n) => Nested.Prim(Code(n))
  }

  function Bool01(b: bool): u64 {
    if b then 1 else 0
  }

  /** The value of one visited row, for leaves that are read row by row. */
  ghost function RowLeaf(l: Leaf, p: Page, row: nat): Nested.Value
    requires row < p.rowCount && !l.BinaryLeaf? && !l.TextLeaf?
    requires l.BooleanLeaf? ==> p.rowCount <= |p.data|
    requires l.Int64Leaf? || l.UInt64Leaf? ==> 8 * p.rowCount <= |p.data|
    requires l.FixedLeaf? ==> l.width * p.rowCount <= |p.data|
    requires l.NarrowLeaf? || l.FileCodeLeaf? ==> RowCode(l, p, row).Ok?
  {
    if l.NarrowLeaf? || l.FileCodeLeaf? then CodeValue(RowCode(l, p, row).value)
    else if !ValidAt(p, row) then Nested.Null
    else if l.BooleanLeaf? then Nested.Prim(Code(Bool01(BoolAt(p, row))))
    else if l.FixedLeaf? then Nested.Prim(Bytes(FixedAt(l.width, p, row)))
    else Nested.Prim(Code(CodeAt(p, row)))
  }

  /** What the exported leaf holds, visited row by visited row. */
  ghost function LeafCells(l: Leaf, p: Page, sel: RowSelection.Selection): (values: seq<Nested.Value>)
    requires LeafAccepted(l, p, sel)
    ensures |values| == |RowSelection.Visited(sel, p.rowCount).value|
  {
    var rows := RowSelection.Visited(sel, p.rowCount).value;
    if l.BinaryLeaf? || l.TextLeaf? then
      var cells := ExportedCells(U32Prefixed, p, sel);
      CellPerRow(p, sel);
      seq(|rows|, i requires 0 <= i < |rows| => CellValue(cells[i]))
    else
      RowsBelow(l, p, sel);
      seq(|rows|, i requires 0 <= i < |rows| => RowLeaf(l, p, rows[i]))
  }

  lemma CellPerRow(p: Page, sel: RowSelection.Selection)
    requires Accepted(U32Prefixed, p, sel) && RowSelection.Visited(sel, p.rowCount).Ok?
    ensures |ExportedCells(U32Prefixed, p, sel)| == |RowSelection.Visited(sel, p.rowCount).value|
  {
  }

  lemma RowsBelow(l: Leaf, p: Page, sel: RowSelection.Selection)
    requires LeafAccepted(l, p, sel) && !l.BinaryLeaf? && !l.TextLeaf?
    ensures RowsIn(p, RowSelection.Visited(sel, p.rowCount).value)
  {
  }

  // ---- the arrays ----

  datatype LeafArray =
    | BytesArray(parts: Parts)
    | CodeArray(codes: Primitive)
    | BoolArray(bits: Packed)
    | FixedArray(rows: seq<seq<byte>>, nulls: Option<NullBuffer>)

  /** The validity bit of a row; no buffer means that every row is present. */
  predicate BitValid(nulls: Option<NullBuffer>, i: nat) {
    nulls.Some? ==> i / 8 < |nulls.value.bytes| && Bit(nulls.value.bytes[i / 8], i % 8)
  }

  /** What an Arrow reader gets for row i. */
  function ReadRow(a: LeafArray, i: nat): Option<Nested.Value> {
    match a
    case BytesArray(parts) =>
      if !BitValid(parts.nulls, i) then Some(Nested.Null)
      else if i + 1 < |parts.offsets| && parts.offsets[i] <= parts.offsets[i + 1] <= |parts.values|
      then Some(Nested.Prim(Bytes(parts.values[parts.offsets[i]..parts.offsets[i + 1]])))
      else None
    case CodeArray(codes) =>
      if !BitValid(codes.nulls, i) then Some(Nested.Null)
      else if i < |codes.values| && codes.values[i] <= U64_MAX then Some(Nested.Prim(Code(codes.values[i])))
      else None
    case BoolArray(bits) =>
      if !BitValid(bits.nulls, i) then Some(Nested.Null)
      else if i / 8 < |bits.values| then Some(Nested.Prim(Code(Bool01(Bit(bits.values[i / 8], i % 8)))))
      else None
    case FixedArray(rows, nulls) =>
      if !BitValid(nulls, i) then Some(Nested.Null)
      else if i < |rows| then Some(Nested.Prim(Bytes(rows[i])))
      else None
  }

  function ArrayLen(a: LeafArray): nat {
    match a
    case BytesArray(parts) => if parts.offsets == [] then 0 else |parts.offsets| - 1
    case CodeArray(codes) => |codes.values|
    case BoolArray(bits) => bits.len
    case FixedArray(rows, _) => |rows|
  }

  /** The Arrow array holds exactly these values. */
  ghost predicate Holds(a: LeafArray, values: seq<Nested.Value>) {
    && ArrayLen(a) == |values|
    && forall i :: 0 <= i < |values| ==> ReadRow(a, i) == Some(values[i])
  }

  lemma NullsOfBit(flags: seq<bool>, i: nat)
    requires i < |flags|
    ensures BitValid(NullsOf(flags), i) == flags[i]
  {
    if NullsOf(flags).Some? { PackedBit(flags, i); }
  }

  lemma BytesHold(p: Page, sel: RowSelection.Selection, l: Leaf)
    requires LeafAccepted(l, p, sel) && (l.BinaryLeaf? || l.TextLeaf?)
    ensures Holds(BytesArray(Export(ExportedCells(U32Prefixed, p, sel))), LeafCells(l, p, sel))
  {
    CellsHold(ExportedCells(U32Prefixed, p, sel));
    BytesLeafCells(l, p, sel);
  }

  lemma BytesLeafCells(l: Leaf, p: Page, sel: RowSelection.Selection)
    requires LeafAccepted(l, p, sel) && (l.BinaryLeaf? || l.TextLeaf?)
    ensures LeafCells(l, p, sel) == CellValues(ExportedCells(U32Prefixed, p, sel))
  {
    CellPerRow(p, sel);
    hide LeafAccepted, ExportedCells, Accepted;
  }

  function CellValues(cells: seq<Cell>): (values: seq<Nested.Value>)
    ensures |values| == |cells|
  {
    seq(|cells|, i requires 0 <= i < |cells| => CellValue(cells[i]))
  }

  lemma CellsHold(cells: seq<Cell>)
    ensures Holds(BytesArray(Export(cells)), CellValues(cells))
  {
    forall i | 0 <= i < |cells| ensures ReadRow(BytesArray(Export(cells)), i) == Some(CellValues(cells)[i]) {
      ExportDenotes(cells, i);
      NullsOfBit(ValidFlags(cells), i);
    }
  }

  lemma CodesHold(p: Page, sel: RowSelection.Selection, l: Leaf)
    requires LeafAccepted(l, p, sel) && (l.Int64Leaf? || l.UInt64Leaf?)
    ensures Holds(CodeArray(CodeExport(p, RowSelection.Visited(sel, p.rowCount).value)), LeafCells(l, p, sel))
  {
    var rows := RowSelection.Visited(sel, p.rowCount).value;
    var a, values := CodeArray(CodeExport(p, rows)), LeafCells(l, p, sel);
    forall i | 0 <= i < |values| ensures ReadRow(a, i) == Some(values[i]) {
      NullsOfBit(Flags(p, rows), i);
    }
  }

  lemma BoolsHold(p: Page, sel: RowSelection.Selection)
    requires LeafAccepted(BooleanLeaf, p, sel)
    ensures Holds(BoolArray(BoolExport(p, RowSelection.Visited(sel, p.rowCount).value)), LeafCells(BooleanLeaf, p, sel))
  {
    var rows := RowSelection.Visited(sel, p.rowCount).value;
    var a, values := BoolArray(BoolExport(p, rows)), LeafCells(BooleanLeaf, p, sel);
    forall i | 0 <= i < |values| ensures ReadRow(a, i) == Some(values[i]) {
      NullsOfBit(Flags(p, rows), i);
      PackedBit(BoolsOf(p, rows), i);
    }
  }

  // ---- fixed-width bytes, and codes read row by row ----

  /** The collector has handled the first `i` rows. */
  ghost predicate FixedState(width: nat, p: Page, rows: seq<nat>, i: nat, out: seq<seq<byte>>, flags: seq<bool>) {
    && width * p.rowCount <= |p.data| && i <= |rows| && RowsIn(p, rows) && HasNulls(p.validity).Ok?
    && |out| == |flags| == i
    && forall j :: 0 <= j < i ==>
         && NullAt(p, HasNulls(p.validity).value, rows[j]).Ok? && flags[j] == ValidAt(p, rows[j])
         && (flags[j] ==> out[j] == FixedAt(width, p, rows[j]))
  }

  lemma FixedStep(width: nat, p: Page, rows: seq<nat>, i: nat, out: seq<seq<byte>>, flags: seq<bool>)
    requires FixedState(width, p, rows, i, out, flags) && i < |rows|
    ensures var n := NullAt(p, HasNulls(p.validity).value, rows[i]);
            && (n.Err? ==> !NullsReadable(p, rows))
            && (n.Ok? ==> FixedState(width, p, rows, i + 1,
                                     out + [if n.value then Zeros(width) else FixedAt(width, p, rows[i])],
                                     flags + [!n.value]))
  {
  }

  lemma FixedEnds(width: nat, p: Page, sel: RowSelection.Selection, rows: seq<nat>, out: seq<seq<byte>>,
                  flags: seq<bool>)
    requires RowSelection.Visited(sel, p.rowCount) == Ok(rows) && FixedState(width, p, rows, |rows|, out, flags)
    ensures LeafAccepted(FixedLeaf(width), p, sel)
    ensures Holds(FixedArray(out, NullsOf(flags)), LeafCells(FixedLeaf(width), p, sel))
  {
    var a, values := FixedArray(out, NullsOf(flags)), LeafCells(FixedLeaf(width), p, sel);
    forall i | 0 <= i < |values| ensures ReadRow(a, i) == Some(values[i]) {
      NullsOfBit(flags, i);
    }
  }

  /** `try_direct_plain_fixed_array`: the bytes of the visited rows, zeros for nulls. */
  method CollectFixed(width: nat, p: Page, sel: RowSelection.Selection) returns (r: Result<LeafArray>)
    ensures r.Ok? <==> LeafAccepted(FixedLeaf(width), p, sel)
    ensures r.Ok? ==> Holds(r.value, LeafCells(FixedLeaf(width), p, sel))
  {
    hide FixedState, Holds, LeafCells, HasNulls, NullAt, IsNull, RowSelection.Visited;
    if width * p.rowCount > |p.data| { return Err(OffsetRange); }
    var hasNulls :- HasNulls(p.validity);
    var rows :- RowSelection.ForEachRow(sel, p.rowCount);
    VisitedBelow(sel, p.rowCount);
    var out: seq<seq<byte>>, flags := [], [];
    FixedStart(width, p, rows);
    for i := 0 to |rows|
      invariant FixedState(width, p, rows, i, out, flags)
    {
      FixedStep(width, p, rows, i, out, flags);
      var isNull :- NullAt(p, hasNulls, rows[i]);
      out := out + [if isNull then Zeros(width) else FixedAt(width, p, rows[i])];
      flags := flags + [!isNull];
    }
    FixedEnds(width, p, sel, rows, out, flags);
    return Ok(FixedArray(out, NullsOf(flags)));
  }

  lemma FixedStart(width: nat, p: Page, rows: seq<nat>)
    requires width * p.rowCount <= |p.data| && HasNulls(p.validity).Ok? && RowsIn(p, rows)
    ensures FixedState(width, p, rows, 0, [], [])
  {
  }

  lemma VisitedBelow(sel: RowSelection.Selection, n: nat)
    requires RowSelection.Visited(sel, n).Ok?
    ensures forall i :: 0 <= i < |RowSelection.Visited(sel, n).value| ==> RowSelection.Visited(sel, n).value[i] < n
  {
    SelectedRoutes.VisitedInRange(sel, n);
  }

  /** The first `i` rows are decoded. */
  ghost predicate DecodeState(l: Leaf, p: Page, rows: seq<nat>, i: nat, out: seq<nat>, flags: seq<bool>) {
    && i <= |rows| && |out| == |flags| == i
    && forall j :: 0 <= j < i ==>
         && RowCode(l, p, rows[j]).Ok? && flags[j] == RowCode(l, p, rows[j]).value.Some?
         && (flags[j] ==> out[j] == RowCode(l, p, rows[j]).value.value)
  }

  lemma DecodeEnds(l: Leaf, p: Page, sel: RowSelection.Selection, rows: seq<nat>, out: seq<nat>, flags: seq<bool>)
    requires l.NarrowLeaf? || l.FileCodeLeaf?
    requires RowSelection.Visited(sel, p.rowCount) == Ok(rows) && DecodeState(l, p, rows, |rows|, out, flags)
    ensures LeafAccepted(l, p, sel)
    ensures Holds(CodeArray(Primitive(out, NullsOf(flags))), LeafCells(l, p, sel))
  {
    hide RowCode;
    var a, values := CodeArray(Primitive(out, NullsOf(flags))), LeafCells(l, p, sel);
    forall i | 0 <= i < |values| ensures ReadRow(a, i) == Some(values[i]) {
      NullsOfBit(flags, i);
    }
  }

  /** `decode_selected_rows` and `values_to_arrow_array_with_data_type`, one row at a time. */
  method DecodeRowCodes(l: Leaf, p: Page, sel: RowSelection.Selection) returns (r: Result<LeafArray>)
    requires l.NarrowLeaf? || l.FileCodeLeaf?
    ensures r.Ok? <==> LeafAccepted(l, p, sel)
    ensures r.Ok? ==> Holds(r.value, LeafCells(l, p, sel))
  {
    hide RowCode, Holds, LeafCells, RowSelection.Visited;
    var rows :- RowSelection.ForEachRow(sel, p.rowCount);
    var out: seq<nat>, flags := [], [];
    for i := 0 to |rows|
      invariant DecodeState(l, p, rows, i, out, flags)
    {
      var code: Option<u64> :- RowCode(l, p, rows[i]);
      out := out + [if code.Some? then code.value else 0];
      flags := flags + [code.Some?];
    }
    DecodeEnds(l, p, sel, rows, out, flags);
    return Ok(CodeArray(Primitive(out, NullsOf(flags))));
  }

  // ---- the dispatch ----

  /** A selection of every row in order is exported as all rows. */
  ghost function Taken(sel: RowSelection.Selection, n: nat): RowSelection.Selection {
    if RowSelection.Visited(sel, n) == Ok(Identity(n)) then RowSelection.All else sel
  }

  /** A row list, taken as all rows where it is all of them in order. */
  function ListedRows(rows: seq<nat>, n: nat): RowSelection.Selection {
    if rows == Identity(n) then RowSelection.All else RowSelection.Rows(rows)
  }

  lemma ListedVisits(rows: seq<nat>, n: nat)
    requires Within(rows, n)
    ensures RowSelection.Visited(ListedRows(rows, n), n) == Ok(rows)
    ensures ListedRows(rows, n) == Taken(RowSelection.Rows(rows), n)
  {
  }

  /** `encoded_array_to_arrow_with_row_selection_options` on a leaf. */
  method ExportLeaf(l: Leaf, p: Page, sel: RowSelection.Selection) returns (r: Result<LeafArray>)
    ensures r.Ok? <==> LeafAccepted(l, p, Taken(sel, p.rowCount))
    ensures r.Ok? ==> Holds(r.value, LeafCells(l, p, Taken(sel, p.rowCount)))
  {
    hide Holds, LeafCells, Accepted, BoolsAccepted, CodesAccepted, TextCells, RowSelection.Visited;
    var all :- RowSelection.IsAllRows(sel, p.rowCount);
    var taken := if all then RowSelection.All else sel;
    match l
    case BooleanLeaf =>
      var bits :- CollectBools(p, taken);
      BoolsHold(p, taken);
      return Ok(BoolArray(bits));
    case Int64Leaf =>
      var codes :- CollectNumCodes(p, taken, true);
      CodesHold(p, taken, l);
      return Ok(CodeArray(codes));
    case UInt64Leaf =>
      var codes :- CollectNumCodes(p, taken, false);
      CodesHold(p, taken, l);
      return Ok(CodeArray(codes));
    case BinaryLeaf =>
      AcceptedVisits(p, taken);
      var parts :- Materialize(U32Prefixed, p, taken);
      BytesHold(p, taken, l);
      return Ok(BytesArray(parts));
    case TextLeaf(policy) =>
      AcceptedVisits(p, taken);
      var parts :- MaterializeUtf8(U32Prefixed, p, taken, policy);
      BytesHold(p, taken, l);
      return Ok(BytesArray(parts));
    case FixedLeaf(width) => r := CollectFixed(width, p, taken);
    case _ => r := DecodeRowCodes(l, p, taken);
  }

  lemma AcceptedVisits(p: Page, sel: RowSelection.Selection)
    ensures Accepted(U32Prefixed, p, sel) ==> RowSelection.Visited(sel, p.rowCount).Ok?
  {
  }
}
