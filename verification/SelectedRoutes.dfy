/** VarBytes export of selected rows: parse everything then copy in two passes,
    or scan forward and stop at the last selected row. */
module SelectedRoutes {
  import opened Machine
  import opened Bits
  import opened LittleEndian
  import opened Validity
  import opened Utf8
  import opened VarBytes
  import opened ByteCopy
  import opened RowSelection
  import opened VarBytesRoutes

  /** The first pass has measured the rows before `i`. */
  ghost predicate Measured(p: Page, ranges: seq<Range>, rows: seq<nat>, i: nat, valueLen: nat) {
    && RangesIn(ranges, |p.data|) && i <= |rows| && HasNulls(p.validity).Ok?
    && (forall j :: 0 <= j < |rows| ==> rows[j] < |ranges|)
    && (forall j :: 0 <= j < i ==> NullAt(p, HasNulls(p.validity).value, rows[j]).Ok?)
    && valueLen == |Flat(Cells(p, ranges, rows)[..i])|
  }

  lemma MeasureStep(p: Page, ranges: seq<Range>, rows: seq<nat>, i: nat, valueLen: nat)
    requires Measured(p, ranges, rows, i, valueLen) && i < |rows|
    ensures rows[i] < |ranges| && ranges[rows[i]].start <= ranges[rows[i]].end
    ensures var isNull := NullAt(p, HasNulls(p.validity).value, rows[i]);
            if isNull.Err? then !NullsReadable(p, rows)
            else Measured(p, ranges, rows, i + 1,
                   valueLen + if isNull.value then 0 else ranges[rows[i]].end - ranges[rows[i]].start)
  {
    var cells := Cells(p, ranges, rows);
    assert cells[..i + 1] == cells[..i] + [cells[i]];
    Snoc(cells[..i], cells[i]);
  }

  lemma MeasureEnds(p: Page, ranges: seq<Range>, rows: seq<nat>, valueLen: nat)
    requires RangesIn(ranges, |p.data|) && forall i :: 0 <= i < |rows| ==> rows[i] < |ranges|
    ensures HasNulls(p.validity).Ok? ==> Measured(p, ranges, rows, 0, 0)
    ensures HasNulls(p.validity).Err? ==> !NullsReadable(p, rows)
    ensures Measured(p, ranges, rows, |rows|, valueLen) ==>
              NullsReadable(p, rows) && valueLen == |Flat(Cells(p, ranges, rows))|
  {
    assert Cells(p, ranges, rows)[..|rows|] == Cells(p, ranges, rows);
  }

  /** `value_len`, the first pass of `materialize_selected`. */
  method MeasureRows(p: Page, ranges: seq<Range>, rows: seq<nat>) returns (r: Result<nat>)
    requires RangesIn(ranges, |p.data|) && forall i :: 0 <= i < |rows| ==> rows[i] < |ranges|
    ensures r.Ok? <==> NullsReadable(p, rows)
    ensures r.Ok? ==> r.value == |Flat(Cells(p, ranges, rows))|
  {
    hide Measured, NullsReadable, Flat, Cells, HasNulls, NullAt;
    MeasureEnds(p, ranges, rows, 0);
    var hasNulls :- HasNulls(p.validity);
    var valueLen: nat := 0;
    for i := 0 to |rows|
      invariant Measured(p, ranges, rows, i, valueLen)
    {
      MeasureStep(p, ranges, rows, i, valueLen);
      var isNull :- NullAt(p, hasNulls, rows[i]);
      valueLen := valueLen + if isNull then 0 else ranges[rows[i]].end - ranges[rows[i]].start;
    }
    MeasureEnds(p, ranges, rows, valueLen);
    return Ok(valueLen);
  }

  /** The second pass: copy each kept row to its place in a buffer of exact size. */
  method CopyRows(p: Page, ranges: seq<Range>, rows: seq<nat>, valueLen: nat) returns (parts: Parts)
    requires RangesIn(ranges, |p.data|) && forall i :: 0 <= i < |rows| ==> rows[i] < |ranges|
    requires NullsReadable(p, rows) && valueLen == |Flat(Cells(p, ranges, rows))|
    ensures parts == Export(Cells(p, ranges, rows))
  {
    hide Export, Built, Flat;
    ghost var cells := Cells(p, ranges, rows);
    var hasNulls := HasNulls(p.validity).value;
    var values := new byte[valueLen];
    var offsets: seq<nat>, write: nat := [0], 0;
    var builder := new ArrowValidityBuilder(|rows|);
    BuiltStart();
    assert values[..0] == [];
    for i := 0 to |rows|
      invariant write <= valueLen && Built(cells[..i], offsets, values[..write], builder.appended)
      invariant builder.Valid() && builder.len == |rows| && builder.pos == i && fresh(builder)
    {
      var isNull := NullAt(p, hasNulls, rows[i]).value;
      var range := ranges[rows[i]];
      var bytes := if isNull then [] else p.data[range.start..range.end];
      assert cells[i] == if isNull then None else Some(bytes);
      BuiltDone(cells[..i], offsets, values[..write], builder.appended);
      RoomForRow(cells, i);
      BuiltStep(cells[..i], cells[i], offsets, values[..write], builder.appended);
      assert cells[..i + 1] == cells[..i] + [cells[i]];
      builder.Append(!isNull);
      label CopyStart:
      CopyPlain(bytes, values, write);
      assert values[..write + |bytes|] == old@CopyStart(values[..write]) + bytes;
      write := write + |bytes|;
      offsets := offsets + [write];
    }
    assert cells[..|rows|] == cells;
    BuiltDone(cells, offsets, values[..write], builder.appended);
    var nulls := builder.Finish();
    parts := Parts(offsets, values[..write], nulls);
  }

  /** The bytes of the first rows and of row i fit the measured total. */
  lemma RoomForRow(cells: seq<Cell>, i: nat)
    requires i < |cells|
    ensures |Flat(cells[..i])| + |Payload(cells[i])| <= |Flat(cells)|
  {
    assert cells[..i + 1] == cells[..i] + [cells[i]];
    Snoc(cells[..i], cells[i]);
    FlatPrefix(cells, i + 1);
  }

  /** `materialize_selected` over ranges that `parse_ranges` returned. */
  method MaterializeSelected(layout: Layout, p: Page, sel: Selection, ranges: seq<Range>) returns (r: Result<Parts>)
    requires Parse(layout, p) == Ok(ranges)
    ensures r.Ok? <==> Visited(sel, p.rowCount).Ok? && RowsExportable(layout, p, Visited(sel, p.rowCount).value)
    ensures r.Ok? ==> r.value == Export(Cells(p, ranges, Visited(sel, p.rowCount).value))
  {
    hide Export, NullsReadable, Flat;
    var rows :- ForEachRow(sel, p.rowCount);
    VisitedInRange(sel, p.rowCount);
    var valueLen :- MeasureRows(p, ranges, rows);
    if valueLen > I32_MAX { return Err(ArithOverflow); }
    var parts := CopyRows(p, ranges, rows, valueLen);
    return Ok(parts);
  }

  lemma VisitedInRange(sel: Selection, n: nat)
    requires Visited(sel, n).Ok?
    ensures forall i :: 0 <= i < |Visited(sel, n).value| ==> Visited(sel, n).value[i] < n
  {
    if sel.Bitset? {
      forall i | 0 <= i < |BitsetRows(sel.words, sel.len)| ensures BitsetRows(sel.words, sel.len)[i] < n {
        BitsetRowInRange(sel.words, sel.len, i);
      }
    }
  }

  /** Read `n` prefixed rows from `pos` without asking where the page ends. */
  function ScanRows(data: seq<byte>, pos: nat, n: nat): (r: Result<seq<Range>>)
    ensures r.Ok? ==> |r.value| == n && RangesIn(r.value, |data|)
    decreases n
  {
    if n == 0 then Ok([])
    else
      match ReadU32Range(data, pos)
      case Err(e) => Err(e)
      case Ok(range) => Prepend([range], ScanRows(data, range.end, n - 1))
  }

  function EndOf(ranges: seq<Range>): nat {
    if ranges == [] then 0 else ranges[|ranges| - 1].end
  }

  /** A page that parses scans to the same ranges, and a full scan that stops at
      the last byte is a parse. */
  lemma {:induction false} ScanOfParse(data: seq<byte>, pos: nat, n: nat, m: nat)
    requires m <= n && ParseFrom(U32Prefixed, data, pos, n).Ok?
    ensures ScanRows(data, pos, m) == Ok(ParseFrom(U32Prefixed, data, pos, n).value[..m])
    ensures n > 0 ==> EndOf(ParseFrom(U32Prefixed, data, pos, n).value) == |data|
    decreases n
  {
    if n > 0 {
      var range := ReadU32Range(data, pos).value;
      ScanOfParse(data, range.end, n - 1, if m > 0 then m - 1 else 0);
      var rest := ParseFrom(U32Prefixed, data, range.end, n - 1).value;
      if m > 0 { assert ([range] + rest)[..m] == [range] + rest[..m - 1]; }
    }
  }

  /** What the forward scan needs of the page when its last selected row is `last`. */
  ghost predicate ForwardReadable(p: Page, rows: seq<nat>, last: nat) {
    && ScanRows(p.data, 0, last + 1).Ok?
    && (last + 1 == p.rowCount ==> EndOf(ScanRows(p.data, 0, last + 1).value) == |p.data|)
    && NullsReadable(p, rows)
    && (forall i :: 0 <= i < |rows| ==> rows[i] <= last)
    && |Flat(Cells(p, ScanRows(p.data, 0, last + 1).value, rows))| <= I32_MAX
  }

  lemma SameCells(p: Page, all: seq<Range>, m: nat, rows: seq<nat>)
    requires RangesIn(all, |p.data|) && m <= |all|
    requires forall i :: 0 <= i < |rows| ==> rows[i] < m
    ensures Cells(p, all[..m], rows) == Cells(p, all, rows)
  {
  }

  /** On a page that parses fully the forward scan needs what the two-pass route
      needs, and both see the same cells. */
  lemma ForwardOnParsedPage(p: Page, rows: seq<nat>, last: nat)
    requires Parse(U32Prefixed, p).Ok? && last < p.rowCount
    requires forall i :: 0 <= i < |rows| ==> rows[i] <= last
    ensures ForwardReadable(p, rows, last) <==> RowsExportable(U32Prefixed, p, rows)
    ensures ScanRows(p.data, 0, last + 1).Ok?
    ensures Cells(p, ScanRows(p.data, 0, last + 1).value, rows) == Cells(p, Parse(U32Prefixed, p).value, rows)
  {
    ScanOfParse(p.data, 0, p.rowCount, last + 1);
    hide Flat, NullsReadable, CellAt;
    var all, front := Parse(U32Prefixed, p).value, ScanRows(p.data, 0, last + 1).value;
    assert front == all[..last + 1];
    if last + 1 == p.rowCount { assert front == all; }
    SameCells(p, all, last + 1, rows);
  }

  /** State of the forward scan before page row `row`: `k` selected rows are behind
      it, the rest are at or after it. */
  ghost predicate ForwardState(p: Page, rows: seq<nat>, last: nat, row: nat, k: nat,
                               ranges: seq<Range>, pos: nat, cells: seq<Cell>)
  {
    && |ranges| == row <= last + 1 && RangesIn(ranges, |p.data|) && pos == EndOf(ranges)
    && ScanRows(p.data, 0, last + 1) == Prepend(ranges, ScanRows(p.data, pos, last + 1 - row))
    && k <= |rows| && Ascending(rows) && HasNulls(p.validity).Ok?
    && (forall j :: 0 <= j < k ==> rows[j] < row)
    && (forall j :: 0 <= j < |rows| ==> rows[j] <= last)
    && (forall j :: k <= j < |rows| ==> row <= rows[j])
    && (forall j :: 0 <= j < k ==> NullAt(p, HasNulls(p.validity).value, rows[j]).Ok?)
    && cells == Cells(p, ranges, rows[..k])
  }

  lemma ForwardStart(p: Page, rows: seq<nat>, last: nat)
    requires Ascending(rows) && forall j :: 0 <= j < |rows| ==> rows[j] <= last
    ensures HasNulls(p.validity).Ok? ==> ForwardState(p, rows, last, 0, 0, [], 0, [])
    ensures HasNulls(p.validity).Err? ==> !ForwardReadable(p, rows, last)
  {
    PrependNothing(ScanRows(p.data, 0, last + 1));
  }

  lemma ForwardSkip(p: Page, rows: seq<nat>, last: nat, row: nat, k: nat,
                    ranges: seq<Range>, pos: nat, cells: seq<Cell>)
    requires ForwardState(p, rows, last, row, k, ranges, pos, cells) && row <= last
    ensures ReadU32Range(p.data, pos).Err? ==> !ForwardReadable(p, rows, last)
    ensures ReadU32Range(p.data, pos).Ok? && !(k < |rows| && rows[k] == row) ==>
              var range := ReadU32Range(p.data, pos).value;
              ForwardState(p, rows, last, row + 1, k, ranges + [range], range.end, cells)
  {
    if ReadU32Range(p.data, pos).Ok? {
      var range := ReadU32Range(p.data, pos).value;
      PrependStep(ranges, range, ScanRows(p.data, range.end, last - row));
      if !(k < |rows| && rows[k] == row) {
        forall j | k <= j < |rows| ensures row + 1 <= rows[j] {
          if k < j { assert rows[k] < rows[j]; }
        }
        MoreRanges(p, ranges, range, rows[..k]);
      }
    }
  }

  lemma MoreRanges(p: Page, ranges: seq<Range>, range: Range, rows: seq<nat>)
    requires RangesIn(ranges + [range], |p.data|) && forall j :: 0 <= j < |rows| ==> rows[j] < |ranges|
    ensures RangesIn(ranges, |p.data|)
    ensures Cells(p, ranges + [range], rows) == Cells(p, ranges, rows)
  {
    forall i | 0 <= i < |ranges| ensures ranges[i] == (ranges + [range])[i] {}
  }

  lemma ForwardTake(p: Page, rows: seq<nat>, last: nat, row: nat, k: nat,
                    ranges: seq<Range>, pos: nat, cells: seq<Cell>)
    requires ForwardState(p, rows, last, row, k, ranges, pos, cells) && row <= last
    requires ReadU32Range(p.data, pos).Ok? && k < |rows| && rows[k] == row
    ensures NullAt(p, HasNulls(p.validity).value, row).Err? ==> !ForwardReadable(p, rows, last)
    ensures NullAt(p, HasNulls(p.validity).value, row).Ok? ==>
              var range := ReadU32Range(p.data, pos).value;
              var isNull := NullAt(p, HasNulls(p.validity).value, row).value;
              var c := if isNull then None else Some(p.data[range.start..range.end]);
              ForwardState(p, rows, last, row + 1, k + 1, ranges + [range], range.end, cells + [c])
  {
    var range := ReadU32Range(p.data, pos).value;
    PrependStep(ranges, range, ScanRows(p.data, range.end, last - row));
    if NullAt(p, HasNulls(p.validity).value, row).Ok? {
      MoreRanges(p, ranges, range, rows[..k]);
      assert rows[..k + 1] == rows[..k] + [row];
      CellsSnoc(p, ranges + [range], rows[..k], row);
    } else {
      UnreadableNull(p, rows, k);
    }
  }

  lemma FlatNothing()
    ensures |Flat([])| == 0
  {
  }

  lemma ForwardChoice(p: Page, sel: Selection, rows: seq<nat>, last: nat, row: nat, k: nat,
                      ranges: seq<Range>, pos: nat, cells: seq<Cell>)
    requires ForwardState(p, rows, last, row, k, ranges, pos, cells) && row <= last < p.rowCount
    requires !sel.All? && Visited(sel, p.rowCount) == Ok(rows)
    ensures Chosen(sel, k, row) <==> k < |rows| && rows[k] == row
  {
    ChosenIsNext(sel, p.rowCount, rows, k, row);
  }

  lemma ForwardTooBig(p: Page, rows: seq<nat>, last: nat, row: nat, k: nat,
                      ranges: seq<Range>, pos: nat, cells: seq<Cell>)
    requires ForwardState(p, rows, last, row, k, ranges, pos, cells) && |Flat(cells)| > I32_MAX
    ensures !ForwardReadable(p, rows, last)
  {
    if ForwardReadable(p, rows, last) {
      var all := ScanRows(p.data, 0, last + 1).value;
      assert ranges == all[..row];
      SameCells(p, all, row, rows[..k]);
      assert Cells(p, all, rows)[..k] == cells;
      FlatPrefix(Cells(p, all, rows), k);
    }
  }

  lemma ForwardEnd(p: Page, rows: seq<nat>, last: nat, k: nat,
                   ranges: seq<Range>, pos: nat, cells: seq<Cell>)
    requires ForwardState(p, rows, last, last + 1, k, ranges, pos, cells) && |Flat(cells)| <= I32_MAX
    ensures k == |rows|
    ensures ScanRows(p.data, 0, last + 1) == Ok(ranges) && cells == Cells(p, ranges, rows)
    ensures ForwardReadable(p, rows, last) <==> (last + 1 == p.rowCount ==> pos == |p.data|)
  {
    assert ScanRows(p.data, pos, 0) == Ok([]) && ranges + [] == ranges;
    assert |rows| > 0 ==> rows[|rows| - 1] <= last;
    assert rows[..k] == rows;
  }

  /** The membership test of the scan: the next listed row, or a word of the bitset. */
  function Chosen(sel: Selection, k: nat, row: nat): bool {
    match sel
    case All => false
    case Rows(rows) => k < |rows| && rows[k] == row
    case Bitset(words, _) => row / 64 < |words| && Bit(words[row / 64], row % 64)
  }

  /** On ascending rows, the bitset test picks exactly the next visited row. */
  lemma ChosenIsNext(sel: Selection, n: nat, rows: seq<nat>, k: nat, row: nat)
    requires !sel.All? && Visited(sel, n) == Ok(rows) && row < n && k <= |rows|
    requires forall j :: 0 <= j < k ==> rows[j] < row
    requires forall j :: k <= j < |rows| ==> row <= rows[j]
    ensures Ascending(rows) ==> (Chosen(sel, k, row) <==> k < |rows| && rows[k] == row)
  {
    if sel.Bitset? && Ascending(rows) {
      BitsetRowsExact(sel.words, sel.len, 0);
      assert RowSelected(sel.words, sel.len, row) <==> row in rows;
      if row in rows {
        var j :| 0 <= j < |rows| && rows[j] == row;
        assert rows[k] >= row;
      }
    }
  }

  /** The scan of `materialize_selected_forward_u32` up to row `last`. */
  method ForwardScan(p: Page, sel: Selection, last: nat, selectedLen: nat, ghost rows: seq<nat>)
    returns (r: Result<Parts>)
    requires !sel.All? && Visited(sel, p.rowCount) == Ok(rows) && last < p.rowCount
    requires Ascending(rows) && selectedLen == |rows|
    requires forall j :: 0 <= j < |rows| ==> rows[j] <= last
    ensures r.Ok? <==> ForwardReadable(p, rows, last)
    ensures r.Ok? ==> r.value == Export(Cells(p, ScanRows(p.data, 0, last + 1).value, rows))
  {
    hide ForwardState, ForwardReadable, Built, Export, Flat, Visited, HasNulls, NullAt;
    ForwardStart(p, rows, last);
    var hasNulls :- HasNulls(p.validity);
    var offsets: seq<nat>, values: seq<byte>, pos: nat, next: nat := [0], [], 0, 0;
    var builder := new ArrowValidityBuilder(selectedLen);
    ghost var ranges: seq<Range>, cells: seq<Cell> := [], [];
    BuiltStart();
    FlatNothing();
    for row := 0 to last + 1
      invariant ForwardState(p, rows, last, row, next, ranges, pos, cells)
      invariant Built(cells, offsets, values, builder.appended) && |Flat(cells)| <= I32_MAX
      invariant |offsets| == next + 1 && next <= |rows|
      invariant builder.Valid() && builder.len == |rows| && builder.pos == next && fresh(builder)
    {
      ForwardSkip(p, rows, last, row, next, ranges, pos, cells);
      var range :- ReadU32Range(p.data, pos);
      ForwardChoice(p, sel, rows, last, row, next, ranges, pos, cells);
      if Chosen(sel, next, row) {
        ForwardTake(p, rows, last, row, next, ranges, pos, cells);
        var isNull :- NullAt(p, hasNulls, row);
        ghost var c := if isNull then None else Some(p.data[range.start..range.end]);
        BuiltStep(cells, c, offsets, values, builder.appended);
        builder.Append(!isNull);
        if !isNull { values := values + p.data[range.start..range.end]; }
        offsets := offsets + [|values|];
        ranges, cells, pos, next := ranges + [range], cells + [c], range.end, next + 1;
        BuiltDone(cells, offsets, values, builder.appended);
        if |values| > I32_MAX {
          ForwardTooBig(p, rows, last, row + 1, next, ranges, pos, cells);
          return Err(ArithOverflow);
        }
      } else {
        ranges, pos := ranges + [range], range.end;
      }
    }
    ForwardEnd(p, rows, last, next, ranges, pos, cells);
    BuiltDone(cells, offsets, values, builder.appended);
    if last + 1 == p.rowCount && pos != |p.data| { return Err(PageCorrupt); }
    // A test on the number of offsets here could never fire.
    assert |offsets| == |rows| + 1;
    var nulls := builder.Finish();
    return Ok(Parts(offsets, values, nulls));
  }

  /** The row list is strictly ascending, pair by pair. */
  predicate PairsAscend(rows: seq<nat>) {
    forall i :: 0 <= i && i + 1 < |rows| ==> rows[i] < rows[i + 1]
  }

  lemma {:induction false} PairsAscendIsAscending(rows: seq<nat>)
    ensures PairsAscend(rows) <==> Ascending(rows)
    decreases |rows|
  {
    if PairsAscend(rows) && rows != [] {
      var front := rows[..|rows| - 1];
      PairsAscendIsAscending(front);
      if front != [] { assert rows[|front| - 1] < rows[|front|]; }
      forall i, j | 0 <= i < j < |rows| ensures rows[i] < rows[j] {
        assert j < |front| ==> front[i] < front[j];
        assert i < |front| - 1 ==> front[i] < front[|front| - 1];
      }
    }
  }

  /** The selections that the forward scan takes on. */
  ghost predicate TakesForward(layout: Layout, sel: Selection) {
    layout.U32Prefixed? && !sel.All? && (sel.Rows? ==> PairsAscend(sel.rows))
  }

  /** What the forward scan accepts, in full: an empty selection always, others when
      the page is readable up to the last selected row. */
  ghost predicate ForwardAccepts(p: Page, sel: Selection) {
    && Visited(sel, p.rowCount).Ok?
    && var rows := Visited(sel, p.rowCount).value;
       rows == [] || ForwardReadable(p, rows, rows[|rows| - 1])
  }

  /** `materialize_selected_forward_u32`: declined, refused, or exported. */
  method MaterializeForward(layout: Layout, p: Page, sel: Selection) returns (r: Result<Option<Parts>>)
    ensures r == Ok(None) ==> !TakesForward(layout, sel)
    ensures !TakesForward(layout, sel) && !sel.All? ==> r == Ok(None)
    ensures TakesForward(layout, sel) ==> (r.Ok? <==> ForwardAccepts(p, sel))
    ensures r.Ok? && r.value.Some? ==> ForwardAccepts(p, sel) && ForwardResult(p, sel, r.value.value)
  {
    hide ForwardReadable, Export, ScanRows;
    if layout != U32Prefixed { return Ok(None); }
    var selectedLen :- SelectedLen(sel, p.rowCount);
    if selectedLen == 0 {
      EmptyExport();
      return Ok(Some(Parts([0], [], None)));
    }
    var last: nat;
    ghost var rows: seq<nat>;
    match sel {
      case All => return Ok(None);
      case Rows(list) =>
        PairsAscendIsAscending(list);
        if !PairsAscend(list) { return Ok(None); }
        last := list[|list| - 1];
        if last >= p.rowCount { return Err(OffsetRange); }
        rows := list;
      case Bitset(words, len) =>
        rows := BitsetRows(words, len);
        BitsetRowsExact(words, len, 0);
        var found := LastSelectedRow(words, len);
        last := found.value;
        LastOfAscending(rows, last);
        VisitedInRange(sel, p.rowCount);
    }
    var parts :- ForwardScan(p, sel, last, selectedLen, rows);
    return Ok(Some(parts));
  }

  ghost predicate ForwardResult(p: Page, sel: Selection, parts: Parts)
    requires ForwardAccepts(p, sel)
  {
    var rows := Visited(sel, p.rowCount).value;
    if rows == [] then parts == Export([])
    else
      var ranges := ScanRows(p.data, 0, rows[|rows| - 1] + 1).value;
      parts == Export(Cells(p, ranges, rows))
  }

  lemma EmptyExport()
    ensures Export([]) == Parts([0], [], None)
  {
    BuiltStart();
  }

  lemma LastOfAscending(rows: seq<nat>, last: nat)
    requires Ascending(rows) && last in rows && forall x: nat :: x in rows ==> x <= last
    ensures rows[|rows| - 1] == last && forall j :: 0 <= j < |rows| ==> rows[j] <= last
  {
    assert rows[|rows| - 1] in rows;
  }
}
