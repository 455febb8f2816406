/** The one small specification behind every VarBytes export route: parse the
    length prefixes, keep the visited rows, drop the bytes of null rows, take
    prefix sums. */
module VarBytes {
  import opened Machine
  import opened Bits
  import opened LittleEndian
  import opened Validity
  import opened Utf8

  datatype Layout = U32Prefixed | Leb128Prefixed

  /** A VarBytes page: payload bytes, row count and optional null bitmap. */
  datatype Page = Page(data: seq<byte>, rowCount: nat, validity: Option<Bitmap>)

  /** The half-open byte range of one row's value. */
  datatype Range = Range(start: nat, end: nat)

  /** `read_u32_len_prefixed_range`. Slices are shorter than 2^63 bytes, so the
      checked additions on `usize` cannot overflow here. */
  function ReadU32Range(data: seq<byte>, pos: nat): (r: Result<Range>)
    ensures r.Ok? ==> r.value.start == pos + 4 && pos + 4 <= r.value.end <= |data|
  {
    if pos + 4 > |data| then Err(OffsetRange)
    else
      var end := pos + 4 + LeNat(data[pos..pos + 4]);
      if end > |data| then Err(OffsetRange) else Ok(Range(pos + 4, end))
  }

  /** `wire::decode_u64_leb128` after `i` bytes that accumulated `value`. */
  function DecodeLeb(bytes: seq<byte>, i: nat, value: nat): (r: Result<(nat, nat)>)
    ensures r.Ok? ==> i < r.value.1 <= |bytes|
    decreases |bytes| - i
  {
    if i >= |bytes| then Err(BufferTooShort)
    else
      var low := bytes[i] % 128;
      if 64 - 7 * i < 7 && low >= Pow2(Max(0, 64 - 7 * i)) then Err(ArithOverflow)
      else
        var next := value + low * Pow2(7 * i);
        if bytes[i] < 128 then Ok((next, i + 1))
        else if 7 * (i + 1) >= 64 then Err(ArithOverflow)
        else DecodeLeb(bytes, i + 1, next)
  }

  /** `read_leb128_len_prefixed_range` */
  function ReadLebRange(data: seq<byte>, pos: nat): (r: Result<Range>)
    ensures r.Ok? ==> pos < r.value.start <= r.value.end <= |data|
  {
    if pos > |data| then Err(OffsetRange)
    else
      match DecodeLeb(data[pos..], 0, 0)
      case Err(e) => Err(e)
      case Ok((len, consumed)) =>
        var end := pos + consumed + len;
        if end > U64_MAX then Err(ArithOverflow)
        else if end > |data| then Err(OffsetRange)
        else Ok(Range(pos + consumed, end))
  }

  function ReadRange(layout: Layout, data: seq<byte>, pos: nat): (r: Result<Range>)
    ensures r.Ok? ==> pos < r.value.start <= r.value.end <= |data|
  {
    if layout.U32Prefixed? then ReadU32Range(data, pos) else ReadLebRange(data, pos)
  }

  ghost predicate RangesIn(ranges: seq<Range>, len: nat) {
    forall i :: 0 <= i < |ranges| ==> ranges[i].start <= ranges[i].end <= len
  }

  /** Parse `n` rows from `pos`; the last one must end with the page. */
  function ParseFrom(layout: Layout, data: seq<byte>, pos: nat, n: nat): (r: Result<seq<Range>>)
    ensures r.Ok? ==> |r.value| == n && RangesIn(r.value, |data|)
    decreases n
  {
    if n == 0 then
      if pos == |data| then Ok([]) else Err(PageCorrupt)
    else
      match ReadRange(layout, data, pos)
      case Err(e) => Err(e)
      case Ok(range) => Prepend([range], ParseFrom(layout, data, range.end, n - 1))
  }

  function Prepend(ranges: seq<Range>, rest: Result<seq<Range>>): Result<seq<Range>> {
    match rest
    case Err(e) => Err(e)
    case Ok(more) => Ok(ranges + more)
  }

  lemma PrependNothing(rest: Result<seq<Range>>)
    ensures Prepend([], rest) == rest
  {
    if rest.Ok? { assert [] + rest.value == rest.value; }
  }

  lemma PrependStep(ranges: seq<Range>, range: Range, rest: Result<seq<Range>>)
    ensures Prepend(ranges, Prepend([range], rest)) == Prepend(ranges + [range], rest)
  {
    if rest.Ok? { assert ranges + ([range] + rest.value) == (ranges + [range]) + rest.value; }
  }

  function Parse(layout: Layout, p: Page): Result<seq<Range>> {
    ParseFrom(layout, p.data, 0, p.rowCount)
  }

  /** `EncodedArray::is_null` */
  function IsNull(p: Page, row: nat): Result<bool> {
    if row >= p.rowCount then Err(OffsetRange)
    else match p.validity
      case None => Ok(false)
      case Some(bm) => BitmapIsNull(bm, row)
  }

  /** `has_nulls && array.is_null(row)?` */
  function NullAt(p: Page, hasNulls: bool, row: nat): Result<bool> {
    if hasNulls then IsNull(p, row) else Ok(false)
  }

  /** The null flags of all these rows can be read. */
  ghost predicate NullsReadable(p: Page, rows: seq<nat>) {
    && HasNulls(p.validity).Ok?
    && forall i :: 0 <= i < |rows| ==> NullAt(p, HasNulls(p.validity).value, rows[i]).Ok?
  }

  type Cell = Option<seq<byte>>

  /** The logical value of one row: absent when null, else its bytes. */
  function CellAt(p: Page, ranges: seq<Range>, row: nat): Cell
    requires row < |ranges| && RangesIn(ranges, |p.data|)
  {
    if HasNulls(p.validity) == Ok(true) && IsNull(p, row) == Ok(true) then None
    else Some(p.data[ranges[row].start..ranges[row].end])
  }

  function Cells(p: Page, ranges: seq<Range>, rows: seq<nat>): (cells: seq<Cell>)
    requires RangesIn(ranges, |p.data|)
    requires forall i :: 0 <= i < |rows| ==> rows[i] < |ranges|
    ensures |cells| == |rows|
  {
    seq(|rows|, i requires 0 <= i < |rows| => CellAt(p, ranges, rows[i]))
  }

  function Payload(c: Cell): seq<byte> {
    if c.Some? then c.value else []
  }

  function Flat(cells: seq<Cell>): seq<byte> {
    if cells == [] then [] else Flat(cells[..|cells| - 1]) + Payload(cells[|cells| - 1])
  }

  function Offsets(cells: seq<Cell>): (offsets: seq<nat>)
    ensures |offsets| == |cells| + 1
  {
    seq(|cells| + 1, i requires 0 <= i <= |cells| => |Flat(cells[..i])|)
  }

  function ValidFlags(cells: seq<Cell>): (flags: seq<bool>)
    ensures |flags| == |cells|
  {
    seq(|cells|, i requires 0 <= i < |cells| => cells[i].Some?)
  }

  /** Arrow's three buffers for a byte array. */
  datatype Parts = Parts(offsets: seq<nat>, values: seq<byte>, nulls: Option<NullBuffer>)

  function Export(cells: seq<Cell>): Parts {
    Parts(Offsets(cells), Flat(cells), NullsOf(ValidFlags(cells)))
  }

  lemma Snoc(cells: seq<Cell>, c: Cell)
    ensures Flat(cells + [c]) == Flat(cells) + Payload(c)
    ensures Offsets(cells + [c]) == Offsets(cells) + [|Flat(cells + [c])|]
    ensures ValidFlags(cells + [c]) == ValidFlags(cells) + [c.Some?]
  {
    var more := cells + [c];
    assert more[..|cells|] == cells;
    forall i | 0 <= i <= |cells| ensures more[..i] == cells[..i] {}
    assert more[..|more|] == more;
  }

  lemma {:induction false} FlatPrefix(cells: seq<Cell>, i: nat)
    requires i <= |cells|
    ensures Flat(cells[..i]) <= Flat(cells)
    decreases |cells| - i
  {
    if i == |cells| {
      assert cells[..i] == cells;
    } else {
      FlatPrefix(cells, i + 1);
      assert cells[..i + 1] == cells[..i] + [cells[i]];
      Snoc(cells[..i], cells[i]);
    }
  }

  /** What an Arrow reader sees: row i of the exported buffers is cell i. */
  lemma ExportDenotes(cells: seq<Cell>, i: nat)
    requires i < |cells|
    ensures var e := Export(cells);
            && e.offsets[i] <= e.offsets[i + 1] <= |e.values|
            && e.values[e.offsets[i]..e.offsets[i + 1]] == Payload(cells[i])
            && (e.nulls.None? ==> cells[i].Some?)
            && (e.nulls.Some? ==> (i / 8 < |e.nulls.value.bytes|
                && Bit(e.nulls.value.bytes[i / 8], i % 8) == cells[i].Some?))
  {
    FlatPrefix(cells, i + 1);
    assert cells[..i + 1] == cells[..i] + [cells[i]];
    Snoc(cells[..i], cells[i]);
    assert ValidFlags(cells)[i] == cells[i].Some?;
    if NullsOf(ValidFlags(cells)).Some? { PackedBit(ValidFlags(cells), i); }
  }

  lemma OffsetsAreCover(cells: seq<Cell>)
    ensures OffsetsCover(Offsets(cells), |Flat(cells)|)
  {
    assert cells[..|cells|] == cells;
    forall i, j | 0 <= i <= j <= |cells| ensures Offsets(cells)[i] <= Offsets(cells)[j] {
      FlatPrefix(cells[..j], i);
      assert cells[..j][..i] == cells[..i];
    }
  }

  /** Every present cell is well-formed UTF-8. */
  ghost predicate TextCells(cells: seq<Cell>) {
    forall i :: 0 <= i < |cells| ==> WellFormed(Payload(cells[i]))
  }

  lemma RowsAreCells(cells: seq<Cell>)
    ensures OffsetsCover(Offsets(cells), |Flat(cells)|)
    ensures RowsWellFormed(Offsets(cells), Flat(cells), |cells|) <==> TextCells(cells)
  {
    OffsetsAreCover(cells);
    var offsets, values := Offsets(cells), Flat(cells);
    forall i: nat | i < |cells| ensures Row(offsets, values, i) == Payload(cells[i]) {
      ExportDenotes(cells, i);
    }
    if RowsWellFormed(offsets, values, |cells|) {
      forall i | 0 <= i < |cells| ensures WellFormed(Payload(cells[i])) {
        assert WellFormed(Row(offsets, values, i));
      }
    }
  }

  /** The page's rows are all readable and their total size fits Arrow's i32 offsets. */
  ghost predicate AllRowsExportable(layout: Layout, p: Page) {
    && NullsReadable(p, Identity(p.rowCount))
    && Parse(layout, p).Ok?
    && |Flat(AllCells(layout, p))| <= I32_MAX
  }

  function AllCells(layout: Layout, p: Page): (cells: seq<Cell>)
    requires Parse(layout, p).Ok?
    ensures |cells| == p.rowCount
  {
    Cells(p, Parse(layout, p).value, Identity(p.rowCount))
  }

  /** The selected rows are all readable and their total size fits i32 offsets. */
  ghost predicate RowsExportable(layout: Layout, p: Page, rows: seq<nat>) {
    && NullsReadable(p, rows)
    && Parse(layout, p).Ok?
    && (forall i :: 0 <= i < |rows| ==> rows[i] < p.rowCount)
    && |Flat(Cells(p, Parse(layout, p).value, rows))| <= I32_MAX
  }

  lemma CellsSnoc(p: Page, ranges: seq<Range>, rows: seq<nat>, row: nat)
    requires RangesIn(ranges, |p.data|) && row < |ranges|
    requires forall i :: 0 <= i < |rows| ==> rows[i] < |ranges|
    ensures Cells(p, ranges, rows + [row]) == Cells(p, ranges, rows) + [CellAt(p, ranges, row)]
  {
  }

  /** `parse_ranges` */
  method ParseRanges(layout: Layout, p: Page) returns (r: Result<seq<Range>>)
    ensures r == Parse(layout, p)
  {
    var ranges: seq<Range> := [];
    var pos := 0;
    PrependNothing(Parse(layout, p));
    for row := 0 to p.rowCount
      invariant Parse(layout, p) == Prepend(ranges, ParseFrom(layout, p.data, pos, p.rowCount - row))
    {
      var range :- ReadRange(layout, p.data, pos);
      PrependStep(ranges, range, ParseFrom(layout, p.data, range.end, p.rowCount - row - 1));
      ranges := ranges + [range];
      pos := range.end;
    }
    if pos != |p.data| { return Err(PageCorrupt); }
    assert ranges + [] == ranges;
    return Ok(ranges);
  }
}
