/** Written leaves and the Arrow export: exactly when a row list of a written leaf can be
    exported, and that what is exported are the listed rows of the column. */
module LeafRoundTrip {
  import opened Machine
  import opened Bits
  import opened LittleEndian
  import opened Validity
  import opened Scalars
  import opened Nested
  import opened VarBytes
  import opened VarBytesExport
  import opened NumCodes
  import opened Booleans
  import opened RowOrder
  import opened Segments
  import opened Pages
  import opened PageExport
  import opened LeafExport
  import RowSelection
  import SelectedRoutes

  ghost predicate LeafRange(c: Column, start: nat, len: nat, rows: seq<nat>) {
    && Nested.WellFormed(c) && c.ScalarCol? && start + len <= Nested.Rows(c) && Within(rows, len)
  }

  /** The listed rows of a VarBytes leaf, absent when null. */
  function RowCells(c: Column, start: nat, rows: seq<nat>): (cells: seq<Cell>)
    requires c.ScalarCol? && c.vals.VarByteRows? && |c.vals.rows| == |c.nulls|
    requires forall i :: 0 <= i < |rows| ==> start + rows[i] < |c.nulls|
    ensures |cells| == |rows|
  {
    seq(|rows|, i requires 0 <= i < |rows| =>
      if c.nulls[start + rows[i]] then None else Some(c.vals.rows[start + rows[i]]))
  }

  /** What a caller can check of the listed rows before the export: Boolean bytes are 0 or
      1, present signed codes are not negative, present narrow codes fit their type, and
      the present bytes fit Arrow's 32-bit offsets and are text where text is checked. */
  ghost predicate LeafReadable(l: Leaf, c: Column, start: nat, len: nat, rows: seq<nat>)
    requires LeafRange(c, start, len, rows) && LeafKind(l) == KindOf(c.vals)
  {
    match l
    case BooleanLeaf => forall i :: 0 <= i < |rows| ==> c.vals.flags[start + rows[i]] <= 1
    case Int64Leaf =>
      forall i :: 0 <= i < |rows| && !c.nulls[start + rows[i]] ==> c.vals.nums[start + rows[i]] <= I64_MAX
    case NarrowLeaf(_, _) =>
      forall i :: 0 <= i < |rows| && !c.nulls[start + rows[i]] ==> CodeFits(l, c.vals.nums[start + rows[i]])
    case BinaryLeaf => |VarBytes.Flat(RowCells(c, start, rows))| <= I32_MAX
    case TextLeaf(policy) =>
      && |VarBytes.Flat(RowCells(c, start, rows))| <= I32_MAX
      && (policy != TrustedPageProof ==> TextCells(RowCells(c, start, rows)))
    case _ => true
  }

  function Alone(c: Column): ConvertedColumn {
    ConvertedColumn("", false, OtherLogical, false, c)
  }

  /** The page the export is given: the written values and the written bitmap. */
  function LeafPage(c: Column, start: nat, len: nat): (p: Page)
    requires Nested.WellFormed(c) && c.ScalarCol? && start + len <= Nested.Rows(c) && Encoded(c.vals, start, len).Ok?
    ensures p == Page(Encoded(c.vals, start, len).value, len, PageValidity(c.nulls[start..start + len]))
  {
    PageBack(Alone(c), Tile(start, len))
  }

  /** Null flags of the listed rows, however they are asked for. */
  lemma NullsOfPage(c: Column, start: nat, len: nat, rows: seq<nat>)
    requires LeafRange(c, start, len, rows) && Encoded(c.vals, start, len).Ok?
    ensures var p := LeafPage(c, start, len);
            && NullsReadable(p, rows) && p.rowCount == len
            && forall i :: 0 <= i < |rows| ==>
                 && IsNull(p, rows[i]) == Ok(c.nulls[start + rows[i]])
                 && ValidAt(p, rows[i]) == !c.nulls[start + rows[i]]
  {
    var p, nulls := LeafPage(c, start, len), c.nulls[start..start + len];
    ValidityBack(p, nulls);
    NullsBack(p, nulls, rows);
    assert NullSlice(Alone(c), Tile(start, len)) == nulls;
    hide HasNulls, BitmapIsNull, PackBits;
    forall i | 0 <= i < |rows|
      ensures IsNull(p, rows[i]) == Ok(c.nulls[start + rows[i]]) && ValidAt(p, rows[i]) == !c.nulls[start + rows[i]]
    {
      assert NullAt(p, PageEmit.AnyNull(nulls), rows[i]) == Ok(nulls[rows[i]]);
      if !PageEmit.AnyNull(nulls) { assert !nulls[rows[i]]; }
    }
  }

  // ---- fixed-width rows ----

  /** Every row of the range takes `width` bytes. */
  ghost predicate RowsTake(v: MaterializedValues, start: nat, len: nat, width: nat)
    requires start + len <= RowCount(v)
  {
    forall i :: start <= i < start + len ==>
      EncodeScalar(KindOf(v), ScalarAt(v, i)).Ok? && |EncodeScalar(KindOf(v), ScalarAt(v, i)).value| == width
  }

  lemma {:induction false} RowAtWidth(v: MaterializedValues, start: nat, len: nat, width: nat, i: nat)
    requires start + len <= RowCount(v) && RowsTake(v, start, len, width) && i < len
    ensures Encoded(v, start, len).Ok? && |Encoded(v, start, len).value| == width * len
    ensures 0 <= width * i && width * i + width <= width * len
    ensures Encoded(v, start, len).value[width * i..width * i + width]
            == EncodeScalar(KindOf(v), ScalarAt(v, start + i)).value
    decreases len
  {
    FirstRow(v, start, len, width);
    AllWidths(v, start, len, width);
    AllWidths(v, start + 1, len - 1, width);
    hide *;
    var first, rest := EncodeScalar(KindOf(v), ScalarAt(v, start)).value, Encoded(v, start + 1, len - 1).value;
    RowInside(width, i, len);
    if i > 0 {
      MulStep(width, i);
      RowAtWidth(v, start + 1, len - 1, width, i - 1);
      TailSlice(first, rest, width * (i - 1), width);
    } else {
      HeadSlice(first, rest);
    }
  }

  lemma FirstRow(v: MaterializedValues, start: nat, len: nat, width: nat)
    requires start + len <= RowCount(v) && RowsTake(v, start, len, width) && len > 0
    ensures RowsTake(v, start + 1, len - 1, width)
    ensures var first, rest := EncodeScalar(KindOf(v), ScalarAt(v, start)), Encoded(v, start + 1, len - 1);
            && first.Ok? && |first.value| == width
            && (rest.Ok? ==> Encoded(v, start, len) == Ok(first.value + rest.value))
  {
    hide EncodeScalar, ScalarAt, KindOf;
  }

  lemma HeadSlice(first: seq<byte>, rest: seq<byte>)
    ensures |first| * 0 == 0 && (first + rest)[..|first|] == first
    ensures (first + rest)[|first| * 0..|first| * 0 + |first|] == first
  {
  }

  lemma TailSlice(first: seq<byte>, rest: seq<byte>, at: int, width: nat)
    requires |first| == width && 0 <= at && at + width <= |rest|
    ensures (first + rest)[at + width..at + width + width] == rest[at..at + width]
  {
  }

  lemma {:induction false} AllWidths(v: MaterializedValues, start: nat, len: nat, width: nat)
    requires start + len <= RowCount(v) && RowsTake(v, start, len, width)
    ensures Encoded(v, start, len).Ok? && |Encoded(v, start, len).value| == width * len
    decreases len
  {
    if len > 0 {
      AllWidths(v, start + 1, len - 1, width);
      MulStep(width, len);
    }
  }

  lemma MulStep(width: nat, n: nat)
    requires n > 0
    ensures width * n == width * (n - 1) + width
  {
  }

  lemma CodeBytes(code: nat, width: nat)
    requires (width == 8 && code <= U64_MAX) || (width == 4 && code <= U32_MAX)
    ensures |LeBytes(code, width)| == width && LeNat(LeBytes(code, width)) == code
  {
    if width == 8 { U64RoundTrip(code); } else { U32RoundTrip(code); }
  }

  lemma CodesTake(l: Leaf, v: MaterializedValues, start: nat, len: nat)
    requires start + len <= RowCount(v) && LeafKind(l) == KindOf(v) && (l.NarrowLeaf? || l.FileCodeLeaf?)
    ensures RowsTake(v, start, len, CodeWidth(l))
    ensures forall i :: start <= i < start + len ==> CodeReads(l, v, i)
  {
    hide RowsTake, CodeReads;
    forall i | start <= i < start + len
      ensures CodeReads(l, v, i) && EncodeScalar(KindOf(v), ScalarAt(v, i)).Ok?
      ensures |EncodeScalar(KindOf(v), ScalarAt(v, i)).value| == CodeWidth(l)
    {
      OneCodeReads(l, v, i);
    }
    TakesIs(v, start, len, CodeWidth(l));
  }

  lemma TakesIs(v: MaterializedValues, start: nat, len: nat, width: nat)
    requires start + len <= RowCount(v)
    requires forall i :: start <= i < start + len ==>
      EncodeScalar(KindOf(v), ScalarAt(v, i)).Ok? && |EncodeScalar(KindOf(v), ScalarAt(v, i)).value| == width
    ensures RowsTake(v, start, len, width)
  {
  }

  /** The bytes written for a code are the code's. */
  ghost predicate CodeReads(l: Leaf, v: MaterializedValues, i: nat)
    requires i < RowCount(v)
  {
    var s, bytes := ScalarAt(v, i), EncodeScalar(KindOf(v), ScalarAt(v, i));
    s.Code? && bytes.Ok? && |bytes.value| == CodeWidth(l) && CodeIn(bytes.value) == s.code
  }

  lemma OneCodeReads(l: Leaf, v: MaterializedValues, i: nat)
    requires i < RowCount(v) && LeafKind(l) == KindOf(v) && (l.NarrowLeaf? || l.FileCodeLeaf?)
    ensures EncodeScalar(KindOf(v), ScalarAt(v, i)).Ok?
    ensures |EncodeScalar(KindOf(v), ScalarAt(v, i)).value| == CodeWidth(l)
    ensures CodeReads(l, v, i)
  {
    CodesFit(v, i);
    CodeBytes(ScalarAt(v, i).code, CodeWidth(l));
    hide LeBytes, LeNat;
  }

  /** The fallback reads every written code back. */
  lemma RowCodeBack(l: Leaf, c: Column, start: nat, len: nat, rows: seq<nat>, i: nat)
    requires LeafRange(c, start, len, rows) && LeafKind(l) == KindOf(c.vals) && i < |rows|
    requires l.NarrowLeaf? || l.FileCodeLeaf?
    ensures Encoded(c.vals, start, len).Ok? && ScalarAt(c.vals, start + rows[i]).Code?
    ensures RowCode(l, LeafPage(c, start, len), rows[i])
            == ReadCodeOf(l, c.nulls[start + rows[i]], ScalarAt(c.vals, start + rows[i]).code)
  {
    CodesTake(l, c.vals, start, len);
    RowAtWidth(c.vals, start, len, CodeWidth(l), rows[i]);
    NullsOfPage(c, start, len, rows);
    assert CodeReads(l, c.vals, start + rows[i]);
    hide Encoded, IsNull, EncodeScalar, ScalarAt, KindOf, LeafKind, CodeIn, CodeFits, RowsTake, HasNulls, PackBits,
         CodeWidth, Nested.WellFormed, ValidAt, NullsReadable, PageBack, PageValidity;
  }

  function ReadCodeOf(l: Leaf, isNull: bool, code: u64): Result<Option<u64>> {
    if isNull then Ok(None) else if CodeFits(l, code) then Ok(Some(code)) else Err(PageCorrupt)
  }

  lemma FixedBack(c: Column, start: nat, len: nat, rows: seq<nat>, i: nat)
    requires LeafRange(c, start, len, rows) && c.vals.FixedByteRows? && i < |rows| && Encoded(c.vals, start, len).Ok?
    ensures var p, width := LeafPage(c, start, len), c.vals.width;
            && width * len <= |p.data| && FixedAt(width, p, rows[i]) == c.vals.fixed[start + rows[i]]
  {
    EncodedIffEncodable(c.vals, start, len);
    RowAtWidth(c.vals, start, len, c.vals.width, rows[i]);
    hide Encoded, HasNulls, PackBits, Nested.WellFormed;
  }

  // ---- each kind of leaf ----

  /** What reading the listed rows of a leaf must give. */
  ghost predicate LeafBack(l: Leaf, c: Column, start: nat, len: nat, rows: seq<nat>)
    requires LeafRange(c, start, len, rows) && LeafKind(l) == KindOf(c.vals) && Encoded(c.vals, start, len).Ok?
  {
    var p, sel := LeafPage(c, start, len), ListedRows(rows, len);
    && (LeafAccepted(l, p, sel) <==> LeafReadable(l, c, start, len, rows))
    && (LeafAccepted(l, p, sel) ==> LeafCells(l, p, sel) == Pick(RowValues(c, start, len), rows))
  }

  lemma PickedLeaf(c: Column, start: nat, len: nat, rows: seq<nat>)
    requires LeafRange(c, start, len, rows)
    ensures var r := Pick(RowValues(c, start, len), rows);
            |r| == |rows| && forall i :: 0 <= i < |rows| ==>
              r[i] == if c.nulls[start + rows[i]] then Null else Prim(ScalarAt(c.vals, start + rows[i]))
  {
    var r := Pick(RowValues(c, start, len), rows);
    forall i | 0 <= i < |rows|
      ensures r[i] == if c.nulls[start + rows[i]] then Null else Prim(ScalarAt(c.vals, start + rows[i]))
    {
      assert r[i] == RowValue(c, start + rows[i]);
    }
  }

  lemma CodeLeafBack(l: Leaf, c: Column, start: nat, len: nat, rows: seq<nat>)
    requires LeafRange(c, start, len, rows) && LeafKind(l) == KindOf(c.vals) && Encoded(c.vals, start, len).Ok?
    requires l.Int64Leaf? || l.UInt64Leaf?
    ensures LeafBack(l, c, start, len, rows)
  {
    var p, sel := LeafPage(c, start, len), ListedRows(rows, len);
    CodesSeen(c, start, len, rows);
    ListedVisits(rows, len);
    hide Encoded, HasNulls, NullsReadable, CodeAt, ValidAt, LeafPage, PageBack, RowValues, Nested.WellFormed,
         RowSelection.Visited, LeafCells, Pick, ListedRows, CodeExport;
    if LeafAccepted(l, p, sel) { CodeCellsBack(l, c, start, len, rows); }
  }

  lemma CodesSeen(c: Column, start: nat, len: nat, rows: seq<nat>)
    requires LeafRange(c, start, len, rows) && c.vals.NumCodes? && Encoded(c.vals, start, len).Ok?
    ensures var p := LeafPage(c, start, len);
            && 8 * p.rowCount <= |p.data| && RowsIn(p, rows) && NullsReadable(p, rows)
            && forall i :: 0 <= i < |rows| ==>
                 && ValidAt(p, rows[i]) == !c.nulls[start + rows[i]]
                 && CodeAt(p, rows[i]) == if c.nulls[start + rows[i]] then 0 else c.vals.nums[start + rows[i]]
  {
    CodesBack(Alone(c), Tile(start, len));
    NullsOfPage(c, start, len, rows);
    hide Encoded, IsNull, HasNulls, NullsReadable, CodeAt, ValidAt, PageBack, Nested.WellFormed;
  }

  lemma CodeCellsBack(l: Leaf, c: Column, start: nat, len: nat, rows: seq<nat>)
    requires LeafRange(c, start, len, rows) && LeafKind(l) == KindOf(c.vals) && Encoded(c.vals, start, len).Ok?
    requires (l.Int64Leaf? || l.UInt64Leaf?) && LeafAccepted(l, LeafPage(c, start, len), ListedRows(rows, len))
    ensures LeafCells(l, LeafPage(c, start, len), ListedRows(rows, len)) == Pick(RowValues(c, start, len), rows)
  {
    CodesSeen(c, start, len, rows);
    ListedVisits(rows, len);
    PickedLeaf(c, start, len, rows);
    hide Encoded, HasNulls, NullsReadable, CodeAt, ValidAt, LeafPage, PageBack, RowValues, Nested.WellFormed,
         RowSelection.Visited, ListedRows, LeafAccepted;
  }

  lemma BooleanLeafBack(c: Column, start: nat, len: nat, rows: seq<nat>)
    requires LeafRange(c, start, len, rows) && c.vals.Booleans? && Encoded(c.vals, start, len).Ok?
    ensures LeafBack(BooleanLeaf, c, start, len, rows)
  {
    var p, sel := LeafPage(c, start, len), ListedRows(rows, len);
    BoolsEncoded(c.vals, start, len);
    NullsOfPage(c, start, len, rows);
    ListedVisits(rows, len);
    PickedLeaf(c, start, len, rows);
    forall i | 0 <= i < |rows| ensures rows[i] < |p.data| && p.data[rows[i]] == c.vals.flags[start + rows[i]] {}
    hide Encoded, IsNull, HasNulls, NullsReadable, ValidAt, LeafPage, PageBack, RowValues, Nested.WellFormed,
         RowSelection.Visited;
    if LeafAccepted(BooleanLeaf, p, sel) {
      assert LeafCells(BooleanLeaf, p, sel) == Pick(RowValues(c, start, len), rows);
    }
  }

  lemma FallbackLeafBack(l: Leaf, c: Column, start: nat, len: nat, rows: seq<nat>)
    requires LeafRange(c, start, len, rows) && LeafKind(l) == KindOf(c.vals) && Encoded(c.vals, start, len).Ok?
    requires l.NarrowLeaf? || l.FileCodeLeaf?
    ensures LeafBack(l, c, start, len, rows)
  {
    var p, sel := LeafPage(c, start, len), ListedRows(rows, len);
    ListedVisits(rows, len);
    PickedLeaf(c, start, len, rows);
    forall i | 0 <= i < |rows|
      ensures ScalarAt(c.vals, start + rows[i]).Code?
      ensures RowCode(l, p, rows[i])
              == ReadCodeOf(l, c.nulls[start + rows[i]], ScalarAt(c.vals, start + rows[i]).code)
    {
      RowCodeBack(l, c, start, len, rows, i);
    }
    hide Encoded, RowCode, LeafPage, PageBack, RowValues, Nested.WellFormed, RowSelection.Visited;
    if LeafAccepted(l, p, sel) {
      assert LeafCells(l, p, sel) == Pick(RowValues(c, start, len), rows);
    }
  }

  lemma FixedLeafBack(l: Leaf, c: Column, start: nat, len: nat, rows: seq<nat>)
    requires LeafRange(c, start, len, rows) && LeafKind(l) == KindOf(c.vals) && Encoded(c.vals, start, len).Ok?
    requires l.FixedLeaf?
    ensures LeafBack(l, c, start, len, rows)
  {
    var p, sel := LeafPage(c, start, len), ListedRows(rows, len);
    NullsOfPage(c, start, len, rows);
    ListedVisits(rows, len);
    PickedLeaf(c, start, len, rows);
    EncodedIffEncodable(c.vals, start, len);
    AllWidths(c.vals, start, len, c.vals.width);
    forall i | 0 <= i < |rows| ensures FixedAt(c.vals.width, p, rows[i]) == c.vals.fixed[start + rows[i]] {
      FixedBack(c, start, len, rows, i);
    }
    hide Encoded, IsNull, HasNulls, NullsReadable, ValidAt, FixedAt, LeafPage, PageBack, RowValues, Nested.WellFormed,
         RowSelection.Visited;
    if LeafAccepted(l, p, sel) {
      assert LeafCells(l, p, sel) == Pick(RowValues(c, start, len), rows);
    }
  }

  /** On a written page every route sees the listed rows of the column. */
  lemma BytesSeen(c: Column, start: nat, len: nat, rows: seq<nat>)
    requires LeafRange(c, start, len, rows) && c.vals.VarByteRows? && Encoded(c.vals, start, len).Ok?
    ensures var p, sel := LeafPage(c, start, len), ListedRows(rows, len);
            && (Accepted(U32Prefixed, p, sel) <==> |VarBytes.Flat(RowCells(c, start, rows))| <= I32_MAX)
            && (Accepted(U32Prefixed, p, sel) ==> ExportedCells(U32Prefixed, p, sel) == RowCells(c, start, rows))
            && HasNulls(p.validity).Ok?
  {
    var p, sel := LeafPage(c, start, len), ListedRows(rows, len);
    PageParses(Alone(c), Tile(start, len));
    NullsOfPage(c, start, len, rows);
    ListedVisits(rows, len);
    RoutesAgree(U32Prefixed, p, sel);
    SeenCells(c, start, len, rows);
    NothingFits();
    hide Encoded, Parse, Cells, RowCells, VarBytes.Flat, ValidAt, IsNull, NullAt, LeafPage, PageBack, Nested.WellFormed,
         RowSelection.Visited, SelectedRoutes.TakesForward, Accepted, ExportedCells;
  }

  lemma NothingFits()
    ensures VarBytes.Flat([]) == []
  {
  }

  /** The page parses and its ranges hold the rows of the column. */
  lemma LeafRanges(c: Column, start: nat, len: nat)
    requires Nested.WellFormed(c) && c.ScalarCol? && c.vals.VarByteRows? && start + len <= Nested.Rows(c)
    requires Encoded(c.vals, start, len).Ok?
    ensures var p := LeafPage(c, start, len);
            && Parse(U32Prefixed, p).Ok? && RangesIn(Parse(U32Prefixed, p).value, |p.data|)
            && |Parse(U32Prefixed, p).value| == len
            && forall i :: 0 <= i < len ==>
                 var range := Parse(U32Prefixed, p).value[i];
                 p.data[range.start..range.end] == c.vals.rows[start + i]
  {
    PageParses(Alone(c), Tile(start, len));
    hide Encoded, Parse, RangesIn, PageBack, Nested.WellFormed;
  }

  lemma SeenCells(c: Column, start: nat, len: nat, rows: seq<nat>)
    requires LeafRange(c, start, len, rows) && c.vals.VarByteRows? && Encoded(c.vals, start, len).Ok?
    ensures var p := LeafPage(c, start, len);
            && Parse(U32Prefixed, p).Ok? && RangesIn(Parse(U32Prefixed, p).value, |p.data|)
            && |Parse(U32Prefixed, p).value| == len
            && Cells(p, Parse(U32Prefixed, p).value, rows) == RowCells(c, start, rows)
  {
    hide Encoded, Parse, ValidAt, IsNull, NullsReadable, LeafPage, PageBack, PageValidity, HasNulls, Cells, CellAt,
         Alone;
    LeafRanges(c, start, len);
    NullsOfPage(c, start, len, rows);
    var p := LeafPage(c, start, len);
    CellsAre(p, Parse(U32Prefixed, p).value, rows, RowCells(c, start, rows));
  }

  lemma CellsAre(p: Page, ranges: seq<Range>, rows: seq<nat>, cells: seq<Cell>)
    requires RangesIn(ranges, |p.data|) && |cells| == |rows|
    requires forall i :: 0 <= i < |rows| ==>
      && rows[i] < |ranges| && ValidAt(p, rows[i]) == cells[i].Some?
      && (cells[i].Some? ==> p.data[ranges[rows[i]].start..ranges[rows[i]].end] == cells[i].value)
    ensures Cells(p, ranges, rows) == cells
  {
    hide HasNulls, IsNull, ValidAt;
    forall i | 0 <= i < |rows| ensures Cells(p, ranges, rows)[i] == cells[i] {
      CellIsValid(p, ranges, rows[i]);
    }
  }

  lemma CellsArePicked(c: Column, start: nat, len: nat, rows: seq<nat>)
    requires LeafRange(c, start, len, rows) && c.vals.VarByteRows?
    ensures CellValues(RowCells(c, start, rows)) == Pick(RowValues(c, start, len), rows)
  {
    PickedLeaf(c, start, len, rows);
    hide RowValues;
  }

  lemma BytesLeafBack(l: Leaf, c: Column, start: nat, len: nat, rows: seq<nat>)
    requires LeafRange(c, start, len, rows) && LeafKind(l) == KindOf(c.vals) && Encoded(c.vals, start, len).Ok?
    requires l.BinaryLeaf? || l.TextLeaf?
    ensures LeafBack(l, c, start, len, rows)
  {
    var p, sel := LeafPage(c, start, len), ListedRows(rows, len);
    BytesSeen(c, start, len, rows);
    ListedVisits(rows, len);
    CellsArePicked(c, start, len, rows);
    hide Encoded, LeafPage, PageBack, RowValues, RowCells, RowSelection.Visited, Accepted, ExportedCells, TextCells,
         VarBytes.Flat, HasNulls, LeafCells, CellValues, Pick, PageValidity, ListedRows;
    if LeafAccepted(l, p, sel) { BytesLeafCells(l, p, sel); }
  }

  /** Writing then exporting a leaf: the listed rows come back when they are readable,
      and the export fails exactly when they are not. */
  lemma LeafReadsBack(l: Leaf, c: Column, start: nat, len: nat, rows: seq<nat>)
    requires LeafRange(c, start, len, rows) && LeafKind(l) == KindOf(c.vals) && Encoded(c.vals, start, len).Ok?
    ensures LeafBack(l, c, start, len, rows)
  {
    hide *;
    match l
    case BooleanLeaf => BooleanKinds(l, c, start, len, rows); BooleanLeafBack(c, start, len, rows);
    case Int64Leaf => CodeLeafBack(l, c, start, len, rows);
    case UInt64Leaf => CodeLeafBack(l, c, start, len, rows);
    case NarrowLeaf(_, _) => FallbackLeafBack(l, c, start, len, rows);
    case FileCodeLeaf => FallbackLeafBack(l, c, start, len, rows);
    case BinaryLeaf => BytesLeafBack(l, c, start, len, rows);
    case TextLeaf(_) => BytesLeafBack(l, c, start, len, rows);
    case FixedLeaf(_) => FixedLeafBack(l, c, start, len, rows);
  }

  lemma BooleanKinds(l: Leaf, c: Column, start: nat, len: nat, rows: seq<nat>)
    requires LeafRange(c, start, len, rows) && LeafKind(l) == KindOf(c.vals)
    ensures l.BooleanLeaf? <==> c.vals.Booleans?
  {
  }
}
