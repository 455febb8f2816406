/** The hand-optimised VarBytes export routes of `BytePayloadPlan`, each proved
    to compute the specification `Export` and to succeed exactly when it can. */
module VarBytesRoutes {
  import opened Machine
  import opened Bits
  import opened LittleEndian
  import opened Validity
  import opened Utf8
  import opened VarBytes
  import opened ByteCopy
  import opened RowSelection

  /** Parsing m prefixed rows needs at least 4 * m bytes. */
  lemma {:induction false} ParseNeeds(data: seq<byte>, pos: nat, m: nat)
    requires ParseFrom(U32Prefixed, data, pos, m).Ok?
    ensures pos + 4 * m <= |data|
    decreases m
  {
    if m > 0 {
      ParseNeeds(data, ReadU32Range(data, pos).value.end, m - 1);
    }
  }

  /** State of a front-to-back scan: `ranges` parsed so far, `pos` next. */
  ghost predicate Scanned(layout: Layout, p: Page, ranges: seq<Range>, pos: nat) {
    && |ranges| <= p.rowCount && RangesIn(ranges, |p.data|)
    && Parse(layout, p) == Prepend(ranges, ParseFrom(layout, p.data, pos, p.rowCount - |ranges|))
  }

  lemma ScanStart(layout: Layout, p: Page)
    ensures Scanned(layout, p, [], 0)
  {
    PrependNothing(Parse(layout, p));
  }

  lemma ScanStep(layout: Layout, p: Page, ranges: seq<Range>, pos: nat)
    requires Scanned(layout, p, ranges, pos) && |ranges| < p.rowCount
    ensures ReadRange(layout, p.data, pos).Err? ==> Parse(layout, p).Err?
    ensures ReadRange(layout, p.data, pos).Ok? ==>
              var range := ReadRange(layout, p.data, pos).value;
              Scanned(layout, p, ranges + [range], range.end)
  {
    var r := ReadRange(layout, p.data, pos);
    if r.Ok? {
      PrependStep(ranges, r.value, ParseFrom(layout, p.data, r.value.end, p.rowCount - |ranges| - 1));
    }
  }

  lemma ScanEnd(layout: Layout, p: Page, ranges: seq<Range>, pos: nat)
    requires Scanned(layout, p, ranges, pos) && |ranges| == p.rowCount
    ensures if pos == |p.data| then Parse(layout, p) == Ok(ranges) else Parse(layout, p).Err?
  {
    assert ranges + [] == ranges;
  }

  /** On a page that parses, what was scanned is the front of the parse. */
  lemma ScanIsPrefix(layout: Layout, p: Page, ranges: seq<Range>, pos: nat)
    requires Scanned(layout, p, ranges, pos) && Parse(layout, p).Ok?
    ensures ranges <= Parse(layout, p).value
  {
  }

  /** Cells of the first rows, computed from the ranges scanned so far. */
  function FirstCells(p: Page, ranges: seq<Range>): (cells: seq<Cell>)
    requires RangesIn(ranges, |p.data|)
    ensures |cells| == |ranges|
  {
    Cells(p, ranges, Identity(|ranges|))
  }

  lemma FirstCellsSnoc(p: Page, ranges: seq<Range>, range: Range)
    requires RangesIn(ranges + [range], |p.data|)
    ensures RangesIn(ranges, |p.data|)
    ensures FirstCells(p, ranges + [range])
            == FirstCells(p, ranges) + [CellAt(p, ranges + [range], |ranges|)]
  {
    assert (ranges + [range])[..|ranges|] == ranges;
    forall i | 0 <= i < |ranges|
      ensures ranges[i] == (ranges + [range])[i] {}
  }

  /** If the bytes of the first rows already exceed i32, so do those of the page. */
  lemma PrefixTooBig(layout: Layout, p: Page, ranges: seq<Range>, pos: nat)
    requires Scanned(layout, p, ranges, pos) && |Flat(FirstCells(p, ranges))| > I32_MAX
    ensures !AllRowsExportable(layout, p)
  {
    if Parse(layout, p).Ok? {
      ScanIsPrefix(layout, p, ranges, pos);
      var all := AllCells(layout, p);
      assert all[..|ranges|] == FirstCells(p, ranges);
      FlatPrefix(all, |ranges|);
    }
  }

  lemma UnreadableNull(p: Page, rows: seq<nat>, i: nat)
    requires i < |rows| && HasNulls(p.validity).Ok?
    requires NullAt(p, HasNulls(p.validity).value, rows[i]).Err?
    ensures !NullsReadable(p, rows)
  {
  }

  /** The buffers built so far are those of the cells seen so far. */
  ghost predicate Built(cells: seq<Cell>, offsets: seq<nat>, values: seq<byte>, flags: seq<bool>) {
    offsets == Offsets(cells) && values == Flat(cells) && flags == ValidFlags(cells)
  }

  lemma BuiltStart()
    ensures Built([], [0], [], [])
  {
    var cells: seq<Cell> := [];
    assert cells[..0] == [];
  }

  lemma BuiltStep(cells: seq<Cell>, c: Cell, offsets: seq<nat>, values: seq<byte>, flags: seq<bool>)
    requires Built(cells, offsets, values, flags)
    ensures var values' := values + Payload(c);
            Built(cells + [c], offsets + [|values'|], values', flags + [c.Some?])
    ensures |flags| == |cells|
  {
    Snoc(cells, c);
  }

  lemma BuiltDone(cells: seq<Cell>, offsets: seq<nat>, values: seq<byte>, flags: seq<bool>)
    requires Built(cells, offsets, values, flags)
    ensures |flags| == |cells| && values == Flat(cells)
    ensures Parts(offsets, values, NullsOf(flags)) == Export(cells)
  {
  }

  /** Front-to-back scan of the whole page: ranges, position and readable nulls. */
  ghost predicate ScanState(layout: Layout, p: Page, ranges: seq<Range>, pos: nat, cells: seq<Cell>)
  {
    && Scanned(layout, p, ranges, pos) && HasNulls(p.validity).Ok?
    && cells == FirstCells(p, ranges)
    && forall i :: 0 <= i < |ranges| ==> NullAt(p, HasNulls(p.validity).value, i).Ok?
  }

  lemma ScanStateStart(layout: Layout, p: Page)
    ensures HasNulls(p.validity).Ok? ==> ScanState(layout, p, [], 0, [])
    ensures HasNulls(p.validity).Err? ==> !AllRowsExportable(layout, p)
  {
    ScanStart(layout, p);
    assert FirstCells(p, []) == [];
  }

  lemma ScanStateStep(layout: Layout, p: Page, ranges: seq<Range>, pos: nat, cells: seq<Cell>)
    requires ScanState(layout, p, ranges, pos, cells) && |ranges| < p.rowCount
    ensures |cells| == |ranges|
    ensures ReadRange(layout, p.data, pos).Err? ==> !AllRowsExportable(layout, p)
    ensures NullAt(p, HasNulls(p.validity).value, |ranges|).Err? ==> !AllRowsExportable(layout, p)
    ensures ReadRange(layout, p.data, pos).Ok? && NullAt(p, HasNulls(p.validity).value, |ranges|).Ok? ==>
              var range := ReadRange(layout, p.data, pos).value;
              var isNull := NullAt(p, HasNulls(p.validity).value, |ranges|).value;
              var c := if isNull then None else Some(p.data[range.start..range.end]);
              ScanState(layout, p, ranges + [range], range.end, cells + [c])
  {
    ScanStep(layout, p, ranges, pos);
    if NullAt(p, HasNulls(p.validity).value, |ranges|).Err? {
      UnreadableNull(p, Identity(p.rowCount), |ranges|);
    } else if ReadRange(layout, p.data, pos).Ok? {
      FirstCellsSnoc(p, ranges, ReadRange(layout, p.data, pos).value);
    }
  }

  lemma ScanTooBig(layout: Layout, p: Page, ranges: seq<Range>, pos: nat, cells: seq<Cell>)
    requires ScanState(layout, p, ranges, pos, cells) && |Flat(cells)| > I32_MAX
    ensures !AllRowsExportable(layout, p)
  {
    PrefixTooBig(layout, p, ranges, pos);
  }

  lemma ScanStateEnd(layout: Layout, p: Page, ranges: seq<Range>, pos: nat, cells: seq<Cell>)
    requires ScanState(layout, p, ranges, pos, cells) && |ranges| == p.rowCount
    requires |Flat(cells)| <= I32_MAX
    ensures |cells| == p.rowCount
    ensures pos == |p.data| <==> AllRowsExportable(layout, p)
    ensures pos == |p.data| ==> Parse(layout, p).Ok? && cells == AllCells(layout, p)
  {
    ScanEnd(layout, p, ranges, pos);
  }

  /** `materialize_all_rows`, generic loop: any layout, any null bitmap. */
  method MaterializeGeneric(layout: Layout, p: Page) returns (r: Result<Parts>)
    ensures r.Ok? <==> AllRowsExportable(layout, p)
    ensures r.Ok? ==> r.value == Export(AllCells(layout, p))
  {
    hide ScanState, AllRowsExportable, AllCells, Built, Export;
    ScanStateStart(layout, p);
    var hasNulls :- HasNulls(p.validity);
    var offsets: seq<nat>, values: seq<byte>, pos := [0], [], 0;
    var builder := new ArrowValidityBuilder(p.rowCount);
    ghost var ranges: seq<Range>, cells: seq<Cell> := [], [];
    BuiltStart();
    for row := 0 to p.rowCount
      invariant |ranges| == row && ScanState(layout, p, ranges, pos, cells)
      invariant Built(cells, offsets, values, builder.appended)
      invariant |values| <= I32_MAX
      invariant builder.Valid() && builder.len == p.rowCount && fresh(builder)
    {
      ScanStateStep(layout, p, ranges, pos, cells);
      var range :- ReadRange(layout, p.data, pos);
      pos := range.end;
      var isNull :- NullAt(p, hasNulls, row);
      ghost var c := if isNull then None else Some(p.data[range.start..range.end]);
      BuiltStep(cells, c, offsets, values, builder.appended);
      ranges, cells := ranges + [range], cells + [c];
      builder.Append(!isNull);
      if !isNull { values := values + p.data[range.start..range.end]; }
      offsets := offsets + [|values|];
      BuiltDone(cells, offsets, values, builder.appended);
      if |values| > I32_MAX {
        ScanTooBig(layout, p, ranges, pos, cells);
        return Err(ArithOverflow);
      }
    }
    BuiltDone(cells, offsets, values, builder.appended);
    ScanStateEnd(layout, p, ranges, pos, cells);
    if pos != |p.data| { return Err(PageCorrupt); }
    var nulls := builder.Finish();
    return Ok(Parts(offsets, values, nulls));
  }
}
