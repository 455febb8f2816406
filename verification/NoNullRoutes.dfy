/** The no-null u32 fast path: one pass that writes offsets and values in place,
    with a fixed-length special case and, for strict strings, ASCII tracking. */
module NoNullRoutes {
  import opened Machine
  import opened LittleEndian
  import opened Validity
  import opened Utf8
  import opened VarBytes
  import opened ByteCopy
  import opened VarBytesRoutes

  const FIXED_MAX_ROWS: nat := 16
  const FIXED_MAX_DATA_BYTES: nat := 1024

  /** What the fast path promises: the all-rows export, plus UTF-8 when validating. */
  ghost predicate Accepts(p: Page, validate: bool) {
    && AllRowsExportable(U32Prefixed, p)
    && (validate ==> TextCells(AllCells(U32Prefixed, p)))
  }

  /** With no nulls, every scanned byte is either a prefix byte or a value byte:
      `pos == 4 * row + write`. */
  lemma {:induction false} PositionInvariant(p: Page, ranges: seq<Range>, pos: nat)
    requires HasNulls(p.validity) == Ok(false) && RangesIn(ranges, |p.data|)
    requires ParsesTo(p.data, ranges, pos)
    ensures pos == 4 * |ranges| + |Flat(FirstCells(p, ranges))|
    decreases |ranges|
  {
    if ranges == [] {
      assert FirstCells(p, ranges) == [];
    } else {
      var front, last := ranges[..|ranges| - 1], ranges[|ranges| - 1];
      assert ranges == front + [last];
      PositionInvariant(p, front, last.start - 4);
      assert Payload(CellAt(p, ranges, |front|)) == p.data[last.start..last.end];
      hide FirstCells, CellAt;
      FirstCellsSnoc(p, front, last);
      Snoc(FirstCells(p, front), CellAt(p, ranges, |front|));
    }
  }

  /** Each range is the u32-prefixed range right after the previous one. */
  ghost predicate ParsesTo(data: seq<byte>, ranges: seq<Range>, pos: nat)
    decreases |ranges|
  {
    if ranges == [] then pos == 0
    else
      var last := ranges[|ranges| - 1];
      && last.start >= 4 && ReadU32Range(data, last.start - 4) == Ok(last) && pos == last.end
      && ParsesTo(data, ranges[..|ranges| - 1], last.start - 4)
  }

  /** On a page that parses, the value bytes are all bytes but the prefixes. */
  lemma {:induction false} ParseParses(data: seq<byte>, before: seq<Range>, pos: nat, n: nat)
    requires ParsesTo(data, before, pos) && ParseFrom(U32Prefixed, data, pos, n).Ok?
    ensures ParsesTo(data, before + ParseFrom(U32Prefixed, data, pos, n).value, |data|)
    decreases n
  {
    if n == 0 {
      assert before + [] == before;
    } else {
      var range := ReadU32Range(data, pos).value;
      assert (before + [range])[..|before|] == before;
      ParseParses(data, before + [range], range.end, n - 1);
      var rest := ParseFrom(U32Prefixed, data, range.end, n - 1).value;
      assert before + ([range] + rest) == (before + [range]) + rest;
    }
  }

  lemma ValueBytesTotal(p: Page)
    requires HasNulls(p.validity) == Ok(false) && Parse(U32Prefixed, p).Ok?
    ensures 4 * p.rowCount + |Flat(AllCells(U32Prefixed, p))| == |p.data|
  {
    var ranges := Parse(U32Prefixed, p).value;
    ParseParses(p.data, [], 0, p.rowCount);
    assert [] + ranges == ranges;
    PositionInvariant(p, ranges, |p.data|);
  }

  /** A row that would overrun the value area leaves too few bytes for the
      prefixes of the rows after it, so the page cannot parse. */
  lemma OverrunMeansCorrupt(p: Page, ranges: seq<Range>, pos: nat)
    requires Scanned(U32Prefixed, p, ranges, pos)
    requires pos + 4 * (p.rowCount - |ranges|) > |p.data|
    ensures Parse(U32Prefixed, p).Err?
  {
    if Parse(U32Prefixed, p).Ok? {
      ParseNeeds(p.data, pos, p.rowCount - |ranges|);
    }
  }

  ghost predicate AsciiCells(cells: seq<Cell>) {
    forall i :: 0 <= i < |cells| ==> IsAscii(Payload(cells[i]))
  }

  lemma AsciiCellsStep(cells: seq<Cell>, bytes: seq<byte>)
    ensures AsciiCells(cells + [Some(bytes)]) <==> AsciiCells(cells) && IsAscii(bytes)
    ensures ValidFlags(cells + [Some(bytes)]) == ValidFlags(cells) + [true]
  {
    var more := cells + [Some(bytes)];
    assert Payload(more[|cells|]) == bytes;
    if AsciiCells(more) {
      forall i | 0 <= i < |cells| ensures IsAscii(Payload(cells[i])) { assert more[i] == cells[i]; }
    }
  }

  /** A text whose cells are all ASCII needs no validation. */
  lemma AsciiCellsAreText(cells: seq<Cell>)
    requires AsciiCells(cells)
    ensures TextCells(cells)
  {
    forall i | 0 <= i < |cells| ensures WellFormed(Payload(cells[i])) {
      AsciiIsWellFormed(Payload(cells[i]));
    }
  }

  /** The strict tail of both loops: validate only if some mask was non-zero. */
  method FinishStrict(ghost p: Page, offsets: seq<nat>, values: seq<byte>, validate: bool, sawNonAscii: bool)
    returns (r: Result<Parts>)
    requires AllRowsExportable(U32Prefixed, p) && HasNulls(p.validity) == Ok(false)
    requires Placed(AllCells(U32Prefixed, p), offsets, values, validate, sawNonAscii)
    ensures r.Ok? <==> Accepts(p, validate)
    ensures r.Ok? ==> r.value == Export(AllCells(U32Prefixed, p))
  {
    ghost var cells := AllCells(U32Prefixed, p);
    NoNullBuffer(p, cells);
    if validate && sawNonAscii {
      RowsAreCells(cells);
      var _ :- ValidateOffsets(offsets, values);
    } else if validate {
      AsciiCellsAreText(cells);
    }
    return Ok(Parts(offsets, values, None));
  }

  lemma NoNullBuffer(p: Page, cells: seq<Cell>)
    requires HasNulls(p.validity) == Ok(false) && Parse(U32Prefixed, p).Ok?
    requires cells == AllCells(U32Prefixed, p)
    ensures NullsOf(ValidFlags(cells)) == None
  {
    assert forall i :: 0 <= i < |cells| ==> ValidFlags(cells)[i];
  }

  /** `copy_varbytes_value[_ascii_mask]`, chosen by the const generic. */
  method CopyRow(row: seq<byte>, dst: array<byte>, to: nat, validate: bool) returns (nonAscii: bool)
    requires to + |row| <= dst.Length
    modifies dst
    ensures dst[..to + |row|] == old(dst[..to]) + row
    ensures validate ==> (!nonAscii <==> IsAscii(row))
  {
    if validate {
      var mask := CopyAsciiMask(row, dst, to);
      nonAscii := mask != 0;
    } else {
      CopyPlain(row, dst, to);
      nonAscii := false;
    }
    assert dst[..to + |row|] == Splice(old(dst[..]), to, row)[..to + |row|];
  }

  /** Buffers built so far, with the ASCII flag that strict mode relies on. */
  ghost predicate Placed(cells: seq<Cell>, offsets: seq<nat>, values: seq<byte>, validate: bool, sawNonAscii: bool) {
    && Built(cells, offsets, values, ValidFlags(cells))
    && (validate && !sawNonAscii ==> AsciiCells(cells))
  }

  lemma PlacedStart(validate: bool)
    ensures Placed([], [0], [], validate, false)
  {
    BuiltStart();
  }

  /** Publish one row: copy its bytes at `write` and store the next offset. */
  method PlaceRow(bytes: seq<byte>, row: nat, write: nat, offsets: array<nat>, values: array<byte>, validate: bool,
                  saw: bool, ghost cells: seq<Cell>) returns (sawNonAscii: bool)
    requires row + 1 < offsets.Length && write + |bytes| <= values.Length
    requires |cells| == row && Placed(cells, offsets[..row + 1], values[..write], validate, saw)
    modifies offsets, values
    ensures Placed(cells + [Some(bytes)], offsets[..row + 2], values[..write + |bytes|], validate, sawNonAscii)
  {
    BuiltStep(cells, Some(bytes), offsets[..row + 1], values[..write], ValidFlags(cells));
    AsciiCellsStep(cells, bytes);
    var nonAscii := CopyRow(bytes, values, write, validate);
    offsets[row + 1] := write + |bytes|;
    assert offsets[..row + 2] == old(offsets[..row + 1]) + [write + |bytes|];
    sawNonAscii := saw || nonAscii;
  }

  /** The row read at `pos`, when its prefix fits the page. */
  function RowRange(data: seq<byte>, pos: nat): Range
    requires pos + 4 <= |data|
  {
    Range(pos + 4, pos + 4 + LeNat(data[pos..pos + 4]))
  }

  function RowCell(data: seq<byte>, pos: nat): Cell
    requires pos + 4 <= |data| && RowRange(data, pos).end <= |data|
  {
    Some(data[pos + 4..RowRange(data, pos).end])
  }

  /** One turn of the copy loop: returns the row's length and the ASCII flag. */
  method OnePassRow(p: Page, validate: bool, offsets: array<nat>, values: array<byte>, row: nat, pos: nat, write: nat,
                    saw: bool, ghost ranges: seq<Range>, ghost cells: seq<Cell>) returns (r: Result<(nat, bool)>)
    requires OnePassState(p, ranges, pos, cells, write, values.Length)
    requires |ranges| == row < p.rowCount && offsets.Length == p.rowCount + 1
    requires Placed(cells, offsets[..row + 1], values[..write], validate, saw)
    modifies offsets, values
    ensures r.Err? ==> !AllRowsExportable(U32Prefixed, p)
    ensures r.Ok? ==>
              && pos + 4 <= |p.data| && RowRange(p.data, pos).end == pos + 4 + r.value.0 <= |p.data|
              && write + r.value.0 <= values.Length
              && OnePassState(p, ranges + [RowRange(p.data, pos)], pos + 4 + r.value.0,
                              cells + [RowCell(p.data, pos)], write + r.value.0, values.Length)
              && Placed(cells + [RowCell(p.data, pos)], offsets[..row + 2], values[..write + r.value.0],
                        validate, r.value.1)
  {
    hide OnePassState, Placed, AllRowsExportable, HasNulls;
    OnePassPrefix(p, ranges, pos, cells, write, values.Length);
    var len := LeNat(p.data[pos..pos + 4]);
    if len > |p.data| - (pos + 4) || len > values.Length - write {
      OnePassRefuse(p, ranges, pos, cells, write, values.Length);
      return Err(if len > |p.data| - (pos + 4) then OffsetRange else PageCorrupt);
    }
    OnePassStep(p, ranges, pos, cells, write, values.Length, len);
    var bytes := p.data[pos + 4..pos + 4 + len];
    var sawNonAscii := PlaceRow(bytes, row, write, offsets, values, validate, saw, cells);
    return Ok((len, sawNonAscii));
  }

  /** The copy loop of `materialize_all_u32_no_nulls_impl`. A test that
      a prefix is in bounds could never fire, by `OnePassPrefix`. */
  method OnePassLoop(p: Page, validate: bool, offsets: array<nat>, values: array<byte>)
    returns (r: Result<bool>)
    requires HasNulls(p.validity) == Ok(false)
    requires offsets.Length == p.rowCount + 1
    requires values.Length + 4 * p.rowCount == |p.data| && values.Length <= I32_MAX
    modifies offsets, values
    ensures r.Ok? <==> AllRowsExportable(U32Prefixed, p)
    ensures r.Ok? ==> Placed(AllCells(U32Prefixed, p), offsets[..], values[..], validate, r.value)
  {
    hide OnePassState, Placed, AllRowsExportable, HasNulls, Parse, AllCells;
    var pos: nat, write: nat, sawNonAscii := 0, 0, false;
    offsets[0] := 0;
    ghost var ranges: seq<Range>, cells: seq<Cell> := [], [];
    OnePassStart(p, values.Length, validate);
    assert offsets[..1] == [0] && values[..0] == [];
    for row := 0 to p.rowCount
      invariant OnePassState(p, ranges, pos, cells, write, values.Length) && |ranges| == row
      invariant write <= values.Length
      invariant Placed(cells, offsets[..row + 1], values[..write], validate, sawNonAscii)
    {
      var step :- OnePassRow(p, validate, offsets, values, row, pos, write, sawNonAscii, ranges, cells);
      ranges, cells := ranges + [RowRange(p.data, pos)], cells + [RowCell(p.data, pos)];
      sawNonAscii := step.1;
      pos, write := pos + 4 + step.0, write + step.0;
    }
    OnePassEnd(p, ranges, pos, cells, write, values.Length);
    if pos != |p.data| || write != values.Length { return Err(PageCorrupt); }
    assert offsets[..p.rowCount + 1] == offsets[..] && values[..write] == values[..];
    return Ok(sawNonAscii);
  }

  /** `materialize_all_u32_no_nulls_impl` after the fixed-length test: it succeeds
      exactly when the parse consumes the page and the total fits i32. */
  method MaterializeOnePass(p: Page, validate: bool) returns (r: Result<Parts>)
    requires HasNulls(p.validity) == Ok(false)
    ensures r.Ok? <==> Accepts(p, validate)
    ensures r.Ok? ==> r.value == Export(AllCells(U32Prefixed, p))
  {
    if Parse(U32Prefixed, p).Ok? { ValueBytesTotal(p); }
    if 4 * p.rowCount > |p.data| { return Err(OffsetRange); }
    var valueLen := |p.data| - 4 * p.rowCount;
    if valueLen > I32_MAX { return Err(ArithOverflow); }
    var offsets, values := new nat[p.rowCount + 1], new byte[valueLen];
    var sawNonAscii :- OnePassLoop(p, validate, offsets, values);
    r := FinishStrict(p, offsets[..], values[..], validate, sawNonAscii);
  }

  /** The one-pass loop state, with its position invariant. */
  ghost predicate OnePassState(p: Page, ranges: seq<Range>, pos: nat, cells: seq<Cell>, write: nat, valueLen: nat)
  {
    && ScanState(U32Prefixed, p, ranges, pos, cells) && HasNulls(p.validity) == Ok(false)
    && valueLen + 4 * p.rowCount == |p.data| && valueLen <= I32_MAX
    && write == |Flat(cells)| <= valueLen
    && pos == 4 * |ranges| + write
  }

  lemma OnePassStart(p: Page, valueLen: nat, validate: bool)
    requires HasNulls(p.validity) == Ok(false)
    requires valueLen + 4 * p.rowCount == |p.data| && valueLen <= I32_MAX
    ensures OnePassState(p, [], 0, [], 0, valueLen)
    ensures Placed([], [0], [], validate, false)
  {
    ScanStart(U32Prefixed, p);
    BuiltStart();
  }

  /** The next row's prefix is always inside the page. */
  lemma OnePassPrefix(p: Page, ranges: seq<Range>, pos: nat, cells: seq<Cell>, write: nat, valueLen: nat)
    requires OnePassState(p, ranges, pos, cells, write, valueLen) && |ranges| < p.rowCount
    ensures pos + 4 <= |p.data| && |cells| == |ranges| && write <= valueLen
    ensures HasNulls(p.validity) == Ok(false)
  {
  }

  lemma OnePassRefuse(p: Page, ranges: seq<Range>, pos: nat, cells: seq<Cell>, write: nat, valueLen: nat)
    requires OnePassState(p, ranges, pos, cells, write, valueLen) && |ranges| < p.rowCount
    requires pos + 4 <= |p.data|
    requires var len := LeNat(p.data[pos..pos + 4]); pos + 4 + len > |p.data| || write + len > valueLen
    ensures !AllRowsExportable(U32Prefixed, p)
  {
    var len := LeNat(p.data[pos..pos + 4]);
    ScanStep(U32Prefixed, p, ranges, pos);
    if pos + 4 + len <= |p.data| {
      OverrunMeansCorrupt(p, ranges + [Range(pos + 4, pos + 4 + len)], pos + 4 + len);
    }
  }

  lemma OnePassStep(p: Page, ranges: seq<Range>, pos: nat, cells: seq<Cell>, write: nat, valueLen: nat, len: nat)
    requires OnePassState(p, ranges, pos, cells, write, valueLen) && |ranges| < p.rowCount
    requires pos + 4 + len <= |p.data| && len == LeNat(p.data[pos..pos + 4]) && write + len <= valueLen
    ensures OnePassState(p, ranges + [Range(pos + 4, pos + 4 + len)], pos + 4 + len,
                         cells + [Some(p.data[pos + 4..pos + 4 + len])], write + len, valueLen)
  {
    assert ReadRange(U32Prefixed, p.data, pos) == Ok(Range(pos + 4, pos + 4 + len));
    assert NullAt(p, HasNulls(p.validity).value, |ranges|) == Ok(false);
    hide ScanState, AllRowsExportable, HasNulls, ReadRange, NullAt, Flat;
    ScanStateStep(U32Prefixed, p, ranges, pos, cells);
    Snoc(cells, Some(p.data[pos + 4..pos + 4 + len]));
  }

  lemma OnePassEnd(p: Page, ranges: seq<Range>, pos: nat, cells: seq<Cell>, write: nat, valueLen: nat)
    requires OnePassState(p, ranges, pos, cells, write, valueLen) && |ranges| == p.rowCount
    ensures pos == |p.data| && write == valueLen <==> AllRowsExportable(U32Prefixed, p)
    ensures pos == |p.data| ==> Parse(U32Prefixed, p).Ok? && cells == AllCells(U32Prefixed, p)
    ensures write <= valueLen
  {
    ScanStateEnd(U32Prefixed, p, ranges, pos, cells);
  }

  /** The prefix at row `j` of a page cut into strides of `len + 4` says `len`. */
  ghost predicate PrefixIs(data: seq<byte>, j: nat, len: nat) {
    var at := j * (len + 4);
    at + 4 <= |data| && LeNat(data[at..at + 4]) == len
  }

  /** Row `j` of such a page. */
  ghost predicate StrideRange(range: Range, j: nat, len: nat) {
    range == Range(j * (len + 4) + 4, (j + 1) * (len + 4))
  }

  /** A page of equal strides whose prefixes all say `len` parses into the
      arithmetic progression of ranges. */
  lemma {:induction false} FixedParse(data: seq<byte>, n: nat, len: nat, row: nat)
    requires row <= n && |data| == n * (len + 4)
    requires forall j: nat :: row <= j < n ==> PrefixIs(data, j, len)
    ensures var r := ParseFrom(U32Prefixed, data, row * (len + 4), n - row);
            r.Ok? && forall i: nat :: i < |r.value| ==> StrideRange(r.value[i], row + i, len)
    decreases n - row
  {
    if row < n {
      assert PrefixIs(data, row, len);
      NextStride(row, n, len + 4);
      var range := Range(row * (len + 4) + 4, (row + 1) * (len + 4));
      assert ReadRange(U32Prefixed, data, row * (len + 4)) == Ok(range);
      FixedParse(data, n, len, row + 1);
      var rest := ParseFrom(U32Prefixed, data, range.end, n - row - 1).value;
      forall i: nat | i < n - row ensures StrideRange(([range] + rest)[i], row + i, len) {
        if i > 0 { assert StrideRange(rest[i - 1], row + 1 + (i - 1), len); }
      }
    }
  }

  lemma NextStride(row: nat, n: nat, stride: nat)
    requires row < n
    ensures (row + 1) * stride == row * stride + stride <= n * stride
  {
  }

  /** `fixed_u32_no_nulls_len`: `Some(len)` is only reported for pages that parse
      into rows of exactly `len` bytes; an error means that the page cannot parse. */
  method FixedLen(data: seq<byte>, n: nat) returns (r: Result<Option<nat>>)
    ensures r.Err? ==> ParseFrom(U32Prefixed, data, 0, n).Err?
    ensures r.Ok? && r.value.Some? ==>
              && n > 0 && |data| == n * (r.value.value + 4)
              && forall j: nat :: j < n ==> PrefixIs(data, j, r.value.value)
  {
    if n == 0 { return Ok(None); }
    if |data| < 4 { return Err(OffsetRange); }
    var len := LeNat(data[..4]);
    var stride := len + 4;
    if n * stride != |data| { return Ok(None); }
    assert PrefixIs(data, 0, len) by { assert data[0 * stride..0 * stride + 4] == data[..4]; }
    for row := 1 to n
      invariant forall j: nat :: j < row ==> PrefixIs(data, j, len)
    {
      NextStride(row, n, stride);
      if LeNat(data[row * stride..row * stride + 4]) != len { return Ok(None); }
    }
    return Ok(Some(len));
  }

  /** `materialize_all_u32_no_nulls_fixed_impl` */
  method MaterializeFixed(p: Page, len: nat, validate: bool) returns (r: Result<Parts>)
    requires HasNulls(p.validity) == Ok(false)
    requires p.rowCount > 0 && |p.data| == p.rowCount * (len + 4)
    requires forall j: nat :: j < p.rowCount ==> PrefixIs(p.data, j, len)
    ensures r.Ok? <==> Accepts(p, validate)
    ensures r.Ok? ==> r.value == Export(AllCells(U32Prefixed, p))
  {
    FixedParse(p.data, p.rowCount, len, 0);
    ValueBytesTotal(p);
    assert p.rowCount * (len + 4) == p.rowCount * len + 4 * p.rowCount;
    var valueLen := p.rowCount * len;
    if valueLen > I32_MAX { return Err(ArithOverflow); }
    var offsets, values := new nat[p.rowCount + 1], new byte[valueLen];
    var sawNonAscii := FixedLoop(p, len, validate, offsets, values);
    r := FinishStrict(p, offsets[..], values[..], validate, sawNonAscii);
  }

  /** The fixed-stride copy loop: row i goes from i * (len + 4) + 4 to i * len. */
  method FixedLoop(p: Page, len: nat, validate: bool, offsets: array<nat>, values: array<byte>)
    returns (sawNonAscii: bool)
    requires HasNulls(p.validity) == Ok(false) && |p.data| == p.rowCount * (len + 4)
    requires offsets.Length == p.rowCount + 1 && values.Length == p.rowCount * len
    requires Parse(U32Prefixed, p).Ok?
    requires forall j: nat :: j < p.rowCount ==> StrideRange(Parse(U32Prefixed, p).value[j], j, len)
    modifies offsets, values
    ensures Placed(AllCells(U32Prefixed, p), offsets[..], values[..], validate, sawNonAscii)
  {
    hide Placed, HasNulls, ParseFrom, StrideRange;
    ghost var cells := AllCells(U32Prefixed, p);
    sawNonAscii := false;
    offsets[0] := 0;
    PlacedStart(validate);
    assert cells[..0] == [] && offsets[..1] == [0] && values[..0] == [];
    for row := 0 to p.rowCount
      invariant row * len <= values.Length
      invariant Placed(cells[..row], offsets[..row + 1], values[..row * len], validate, sawNonAscii)
    {
      NextStride(row, p.rowCount, len);
      var bytes := StrideRow(p, len, row);
      assert cells[..row + 1] == cells[..row] + [Some(bytes)];
      sawNonAscii := PlaceRow(bytes, row, row * len, offsets, values, validate, sawNonAscii, cells[..row]);
    }
    assert cells[..p.rowCount] == cells;
    assert offsets[..p.rowCount + 1] == offsets[..] && values[..p.rowCount * len] == values[..];
  }

  /** Row `row` of a fixed-stride page, from `row * (len + 4) + 4`. */
  function StrideRow(p: Page, len: nat, row: nat): (bytes: seq<byte>)
    requires HasNulls(p.validity) == Ok(false) && |p.data| == p.rowCount * (len + 4)
    requires row < p.rowCount && Parse(U32Prefixed, p).Ok?
    requires StrideRange(Parse(U32Prefixed, p).value[row], row, len)
    ensures |bytes| == len && AllCells(U32Prefixed, p)[row] == Some(bytes)
  {
    NextStride(row, p.rowCount, len + 4);
    var start := row * (len + 4) + 4;
    p.data[start..start + len]
  }

  /** `materialize_all_u32_no_nulls[_utf8_strict]`: the fixed-length detector runs
      on small pages only, and both branches meet the same contract. */
  method MaterializeNoNulls(p: Page, validate: bool) returns (r: Result<Parts>)
    requires HasNulls(p.validity) == Ok(false)
    ensures r.Ok? <==> Accepts(p, validate)
    ensures r.Ok? ==> r.value == Export(AllCells(U32Prefixed, p))
  {
    if p.rowCount <= FIXED_MAX_ROWS && |p.data| <= FIXED_MAX_DATA_BYTES {
      var fixed :- FixedLen(p.data, p.rowCount);
      if fixed.Some? {
        r := MaterializeFixed(p, fixed.value, validate);
        return;
      }
    }
    r := MaterializeOnePass(p, validate);
  }
}
