/** Arrow byte views: 16-byte handles that hold short values inline and point
    into a shared buffer for longer ones. */
module ByteViews {
  import opened Machine
  import opened Bits
  import opened LittleEndian
  import opened Validity
  import opened VarBytes
  import opened RowSelection
  import opened VarBytesRoutes
  import opened SelectedRoutes

  /** `MAX_INLINE_VIEW_LEN` */
  const MAX_INLINE: nat := 12

  /** A view, as the little-endian bytes of its u128. */
  type View = s: seq<byte> | |s| == 16 witness Zeros(16)

  const NULL_VIEW: View := Zeros(16)

  /** `inline_byte_view`: length, then the value padded with zeros. */
  function InlineView(bytes: seq<byte>): View
    requires |bytes| <= MAX_INLINE
  {
    LeBytes(|bytes|, 4) + bytes + Zeros(MAX_INLINE - |bytes|)
  }

  /** `buffered_byte_view`: length, four-byte prefix, buffer index 0, offset. */
  function BufferedView(data: seq<byte>, start: nat, end: nat): View
    requires start + 4 <= end <= |data|
  {
    LeBytes(end - start, 4) + data[start..start + 4] + LeBytes(0, 4) + LeBytes(start, 4)
  }

  /** `byte_view_for_range`. The four-byte prefix of a value of more than 12 bytes
      never passes its end, so there is no error for that. */
  function ViewForRange(data: seq<byte>, start: nat, end: nat): Result<View>
    requires start <= end <= |data|
  {
    if end - start > U32_MAX then Err(ArithOverflow)
    else if end - start <= MAX_INLINE then Ok(InlineView(data[start..end]))
    else if start > U32_MAX then Err(ArithOverflow)
    else Ok(BufferedView(data, start, end))
  }

  /** How an Arrow reader follows a view. */
  function Deref(view: View, buffer: seq<byte>): Option<seq<byte>> {
    var len := LeNat(view[..4]);
    if len <= MAX_INLINE then Some(view[4..4 + len])
    else
      var at := LeNat(view[12..16]);
      if at + len <= |buffer| then Some(buffer[at..at + len]) else None
  }

  /** Whether a value of this length, placed at `start`, has a view. */
  predicate HasView(start: nat, len: nat) {
    len <= U32_MAX && (len > MAX_INLINE ==> start <= U32_MAX)
  }

  /** Following the view built for a range gives the range's bytes, and still does
      after more bytes are appended to the buffer. */
  lemma ViewRoundTrip(data: seq<byte>, start: nat, end: nat, more: seq<byte>)
    requires start <= end <= |data|
    ensures ViewForRange(data, start, end).Ok? <==> HasView(start, end - start)
    ensures ViewForRange(data, start, end).Ok? ==>
              Deref(ViewForRange(data, start, end).value, data + more) == Some(data[start..end])
  {
    if HasView(start, end - start) {
      var view := ViewForRange(data, start, end).value;
      U32RoundTrip(end - start);
      assert view[..4] == LeBytes(end - start, 4);
      if end - start <= MAX_INLINE {
        assert view[4..4 + (end - start)] == data[start..end];
      } else {
        U32RoundTrip(start);
        assert view[12..16] == LeBytes(start, 4);
        assert (data + more)[start..end] == data[start..end];
      }
    }
  }

  /** Arrow's view-array buffers; every view points into the one backing buffer. */
  datatype ViewParts = ViewParts(views: seq<View>, buffer: seq<byte>, nulls: Option<NullBuffer>)

  /** View i denotes cell i: null rows carry the zero view. */
  ghost predicate Denotes(views: seq<View>, buffer: seq<byte>, cells: seq<Cell>) {
    && |views| == |cells|
    && forall i :: 0 <= i < |cells| ==>
         if cells[i].None? then views[i] == NULL_VIEW else Deref(views[i], buffer) == cells[i]
  }

  /** A view array that denotes the cells, with the matching null buffer. */
  ghost predicate IsViewOf(parts: ViewParts, cells: seq<Cell>) {
    Denotes(parts.views, parts.buffer, cells) && parts.nulls == NullsOf(ValidFlags(cells))
  }

  /** Every kept row of a page has a view into the page itself. */
  ghost predicate ViewsFit(p: Page, ranges: seq<Range>, rows: seq<nat>)
    requires RangesIn(ranges, |p.data|) && forall i :: 0 <= i < |rows| ==> rows[i] < |ranges|
  {
    forall i :: 0 <= i < |rows| && CellAt(p, ranges, rows[i]).Some? ==>
      HasView(ranges[rows[i]].start, ranges[rows[i]].end - ranges[rows[i]].start)
  }

  /** Every kept row has a view into a buffer of just the kept rows. */
  ghost predicate OwnedViewsFit(cells: seq<Cell>) {
    forall i :: 0 <= i < |cells| && cells[i].Some? ==> HasView(|Flat(cells[..i])|, |cells[i].value|)
  }

  /** Borrowed views: the rows before `i` are denoted over the page bytes. */
  ghost predicate BorrowState(p: Page, ranges: seq<Range>, rows: seq<nat>, i: nat, views: seq<View>, flags: seq<bool>) {
    && RangesIn(ranges, |p.data|) && i <= |rows| && HasNulls(p.validity).Ok?
    && (forall j :: 0 <= j < |rows| ==> rows[j] < |ranges|)
    && (forall j :: 0 <= j < i ==> NullAt(p, HasNulls(p.validity).value, rows[j]).Ok?)
    && Denotes(views, p.data, Cells(p, ranges, rows[..i]))
    && flags == ValidFlags(Cells(p, ranges, rows[..i]))
    && ViewsFit(p, ranges, rows[..i])
  }

  function RowView(data: seq<byte>, isNull: bool, range: Range): Result<View>
    requires range.start <= range.end <= |data|
  {
    if isNull then Ok(NULL_VIEW) else ViewForRange(data, range.start, range.end)
  }

  lemma BorrowStep(p: Page, ranges: seq<Range>, rows: seq<nat>, i: nat, views: seq<View>, flags: seq<bool>)
    requires BorrowState(p, ranges, rows, i, views, flags) && i < |rows|
    ensures |flags| == i
    ensures rows[i] < |ranges| && ranges[rows[i]].start <= ranges[rows[i]].end <= |p.data|
    ensures var isNull := NullAt(p, HasNulls(p.validity).value, rows[i]);
            if isNull.Err? then !NullsReadable(p, rows)
            else
              var view := RowView(p.data, isNull.value, ranges[rows[i]]);
              if view.Err? then !ViewsFit(p, ranges, rows)
              else BorrowState(p, ranges, rows, i + 1, views + [view.value], flags + [!isNull.value])
  {
    hide Deref, Flat, ViewForRange, HasView;
    var isNull, range := NullAt(p, HasNulls(p.validity).value, rows[i]), ranges[rows[i]];
    if isNull.Ok? {
      ViewRoundTrip(p.data, range.start, range.end, []);
      assert p.data + [] == p.data;
      assert rows[..i + 1] == rows[..i] + [rows[i]];
      CellsSnoc(p, ranges, rows[..i], rows[i]);
      Snoc(Cells(p, ranges, rows[..i]), CellAt(p, ranges, rows[i]));
    } else {
      UnreadableNull(p, rows, i);
    }
  }

  lemma BorrowEnds(p: Page, ranges: seq<Range>, rows: seq<nat>, views: seq<View>, flags: seq<bool>)
    requires RangesIn(ranges, |p.data|) && forall i :: 0 <= i < |rows| ==> rows[i] < |ranges|
    ensures HasNulls(p.validity).Ok? ==> BorrowState(p, ranges, rows, 0, [], [])
    ensures HasNulls(p.validity).Err? ==> !NullsReadable(p, rows)
    ensures BorrowState(p, ranges, rows, |rows|, views, flags) ==>
              && NullsReadable(p, rows) && ViewsFit(p, ranges, rows) && |flags| == |rows|
              && IsViewOf(ViewParts(views, p.data, NullsOf(flags)), Cells(p, ranges, rows))
  {
    assert rows[..|rows|] == rows;
  }

  /** `materialize_view` and `materialize_view_all_rows` over the page's own bytes. */
  method ViewRows(p: Page, ranges: seq<Range>, rows: seq<nat>) returns (r: Result<ViewParts>)
    requires RangesIn(ranges, |p.data|) && forall i :: 0 <= i < |rows| ==> rows[i] < |ranges|
    ensures r.Ok? <==> NullsReadable(p, rows) && ViewsFit(p, ranges, rows)
    ensures r.Ok? ==> r.value.buffer == p.data && IsViewOf(r.value, Cells(p, ranges, rows))
  {
    hide BorrowState, NullsReadable, ViewsFit, IsViewOf, HasNulls, NullAt, ViewForRange;
    BorrowEnds(p, ranges, rows, [], []);
    var hasNulls :- HasNulls(p.validity);
    var views: seq<View> := [];
    var builder := new ArrowValidityBuilder(|rows|);
    for i := 0 to |rows|
      invariant BorrowState(p, ranges, rows, i, views, builder.appended)
      invariant builder.Valid() && builder.len == |rows| && builder.pos == i && fresh(builder)
    {
      BorrowStep(p, ranges, rows, i, views, builder.appended);
      var isNull :- NullAt(p, hasNulls, rows[i]);
      builder.Append(!isNull);
      var view :- RowView(p.data, isNull, ranges[rows[i]]);
      views := views + [view];
    }
    BorrowEnds(p, ranges, rows, views, builder.appended);
    var nulls := builder.Finish();
    return Ok(ViewParts(views, p.data, nulls));
  }

  /** Owned views: as before, over a buffer that grows by each kept row. */
  ghost predicate OwnState(p: Page, ranges: seq<Range>, rows: seq<nat>, i: nat,
                           views: seq<View>, values: seq<byte>, flags: seq<bool>)
  {
    && RangesIn(ranges, |p.data|) && i <= |rows| && HasNulls(p.validity).Ok?
    && (forall j :: 0 <= j < |rows| ==> rows[j] < |ranges|)
    && (forall j :: 0 <= j < i ==> NullAt(p, HasNulls(p.validity).value, rows[j]).Ok?)
    && OwnedViews(Cells(p, ranges, rows[..i]), views, values, flags)
  }

  /** The views, the buffer they point into and the validity flags of some cells. */
  ghost predicate OwnedViews(cells: seq<Cell>, views: seq<View>, values: seq<byte>, flags: seq<bool>) {
    && values == Flat(cells) && flags == ValidFlags(cells)
    && Denotes(views, values, cells) && OwnedViewsFit(cells)
  }

  lemma PushNull(cells: seq<Cell>, views: seq<View>, values: seq<byte>, flags: seq<bool>)
    requires OwnedViews(cells, views, values, flags)
    ensures OwnedViews(cells + [None], views + [NULL_VIEW], values, flags + [false])
  {
    Snoc(cells, None);
    OwnedFitSnoc(cells, None);
    assert values + Payload(None) == values;
  }

  lemma PushValue(cells: seq<Cell>, bytes: seq<byte>, views: seq<View>, values: seq<byte>, flags: seq<bool>)
    requires OwnedViews(cells, views, values, flags)
    ensures var view := ViewForRange(values + bytes, |values|, |values + bytes|);
            if view.Err? then !OwnedViewsFit(cells + [Some(bytes)])
            else OwnedViews(cells + [Some(bytes)], views + [view.value], values + bytes, flags + [true])
  {
    Snoc(cells, Some(bytes));
    OwnedFitSnoc(cells, Some(bytes));
    DenotesGrow(views, values, cells, bytes);
    ViewRoundTrip(values + bytes, |values|, |values + bytes|, []);
    assert values + bytes + [] == values + bytes;
    assert (values + bytes)[|values|..|values + bytes|] == bytes;
  }

  lemma DenotesGrow(views: seq<View>, buffer: seq<byte>, cells: seq<Cell>, more: seq<byte>)
    requires Denotes(views, buffer, cells)
    ensures Denotes(views, buffer + more, cells)
  {
    forall i | 0 <= i < |cells| && cells[i].Some? ensures Deref(views[i], buffer + more) == cells[i] {
      assert Deref(views[i], buffer) == cells[i];
      var len, at := LeNat(views[i][..4]), LeNat(views[i][12..16]);
      if len > MAX_INLINE { assert (buffer + more)[at..at + len] == buffer[at..at + len]; }
    }
  }

  lemma OwnedFitSnoc(cells: seq<Cell>, c: Cell)
    ensures OwnedViewsFit(cells + [c]) <==>
              OwnedViewsFit(cells) && (c.Some? ==> HasView(|Flat(cells)|, |c.value|))
  {
    var more := cells + [c];
    forall i | 0 <= i <= |cells| ensures more[..i] == cells[..i] {}
    assert cells[..|cells|] == cells;
    if OwnedViewsFit(more) {
      forall i | 0 <= i < |cells| && cells[i].Some? ensures HasView(|Flat(cells[..i])|, |cells[i].value|) {
        assert more[i] == cells[i];
      }
      assert more[|cells|] == c;
    }
  }

  lemma {:induction false} OwnedFitPrefix(cells: seq<Cell>, i: nat)
    requires i <= |cells| && OwnedViewsFit(cells)
    ensures OwnedViewsFit(cells[..i])
    decreases |cells| - i
  {
    if i == |cells| {
      assert cells[..i] == cells;
    } else {
      OwnedFitPrefix(cells, i + 1);
      assert cells[..i + 1] == cells[..i] + [cells[i]];
      OwnedFitSnoc(cells[..i], cells[i]);
    }
  }

  lemma OwnStep(p: Page, ranges: seq<Range>, rows: seq<nat>, i: nat,
                views: seq<View>, values: seq<byte>, flags: seq<bool>)
    requires OwnState(p, ranges, rows, i, views, values, flags) && i < |rows|
    ensures rows[i] < |ranges| && ranges[rows[i]].start <= ranges[rows[i]].end <= |p.data|
    ensures NullAt(p, HasNulls(p.validity).value, rows[i]).Err? ==> !NullsReadable(p, rows)
    ensures NullAt(p, HasNulls(p.validity).value, rows[i]) == Ok(true) ==>
              OwnState(p, ranges, rows, i + 1, views + [NULL_VIEW], values, flags + [false])
    ensures NullAt(p, HasNulls(p.validity).value, rows[i]) == Ok(false) ==>
              var values' := values + p.data[ranges[rows[i]].start..ranges[rows[i]].end];
              var view := ViewForRange(values', |values|, |values'|);
              if view.Err? then !OwnedViewsFit(Cells(p, ranges, rows))
              else OwnState(p, ranges, rows, i + 1, views + [view.value], values', flags + [true])
  {
    hide OwnedViews, OwnedViewsFit, Flat, ViewForRange;
    var isNull := NullAt(p, HasNulls(p.validity).value, rows[i]);
    if isNull.Err? {
      UnreadableNull(p, rows, i);
    } else {
      var cells, c := Cells(p, ranges, rows[..i]), CellAt(p, ranges, rows[i]);
      assert rows[..i + 1] == rows[..i] + [rows[i]];
      CellsSnoc(p, ranges, rows[..i], rows[i]);
      if isNull.value {
        PushNull(cells, views, values, flags);
      } else {
        PushValue(cells, c.value, views, values, flags);
        if OwnedViewsFit(Cells(p, ranges, rows)) {
          OwnedFitPrefix(Cells(p, ranges, rows), i + 1);
          assert Cells(p, ranges, rows)[..i + 1] == cells + [c];
        }
      }
    }
  }

  lemma OwnEnds(p: Page, ranges: seq<Range>, rows: seq<nat>, views: seq<View>, values: seq<byte>, flags: seq<bool>)
    requires RangesIn(ranges, |p.data|) && forall i :: 0 <= i < |rows| ==> rows[i] < |ranges|
    ensures HasNulls(p.validity).Ok? ==> OwnState(p, ranges, rows, 0, [], [], [])
    ensures HasNulls(p.validity).Err? ==> !NullsReadable(p, rows)
    ensures OwnState(p, ranges, rows, |rows|, views, values, flags) ==>
              && NullsReadable(p, rows) && OwnedViewsFit(Cells(p, ranges, rows)) && |flags| == |rows|
              && IsViewOf(ViewParts(views, values, NullsOf(flags)), Cells(p, ranges, rows))
  {
    assert rows[..|rows|] == rows;
  }

  /** `materialize_view_selected_owned` */
  method ViewRowsOwned(p: Page, ranges: seq<Range>, rows: seq<nat>) returns (r: Result<ViewParts>)
    requires RangesIn(ranges, |p.data|) && forall i :: 0 <= i < |rows| ==> rows[i] < |ranges|
    ensures r.Ok? <==> NullsReadable(p, rows) && OwnedViewsFit(Cells(p, ranges, rows))
    ensures r.Ok? ==> IsViewOf(r.value, Cells(p, ranges, rows))
  {
    hide OwnState, NullsReadable, OwnedViewsFit, IsViewOf, HasNulls, NullAt, ViewForRange;
    OwnEnds(p, ranges, rows, [], [], []);
    var hasNulls :- HasNulls(p.validity);
    var views: seq<View>, values: seq<byte> := [], [];
    var builder := new ArrowValidityBuilder(|rows|);
    for i := 0 to |rows|
      invariant OwnState(p, ranges, rows, i, views, values, builder.appended)
      invariant builder.Valid() && builder.len == |rows| && builder.pos == i && fresh(builder)
    {
      OwnStep(p, ranges, rows, i, views, values, builder.appended);
      var isNull :- NullAt(p, hasNulls, rows[i]);
      builder.Append(!isNull);
      if isNull {
        views := views + [NULL_VIEW];
      } else {
        var start := |values|;
        values := values + p.data[ranges[rows[i]].start..ranges[rows[i]].end];
        var view :- ViewForRange(values, start, |values|);
        views := views + [view];
      }
    }
    OwnEnds(p, ranges, rows, views, values, builder.appended);
    var nulls := builder.Finish();
    return Ok(ViewParts(views, values, nulls));
  }

  /** What the view export accepts: a page that parses, readable nulls, and a
      view for every kept row in the buffer that will back it. */
  ghost predicate ViewAccepts(layout: Layout, p: Page, sel: Selection, hasOwner: bool) {
    && Parse(layout, p).Ok? && Visited(sel, p.rowCount).Ok?
    && var ranges, rows := Parse(layout, p).value, Visited(sel, p.rowCount).value;
       && (forall i :: 0 <= i < |rows| ==> rows[i] < |ranges|)
       && NullsReadable(p, rows)
       && (if sel.All? || hasOwner then ViewsFit(p, ranges, rows) else OwnedViewsFit(Cells(p, ranges, rows)))
  }

  /** `materialize_view`: all rows, or an owner for the page, keep the page's bytes;
      a selection without an owner copies the kept rows. Either way the views
      denote the cells of the simple specification. */
  method MaterializeView(layout: Layout, p: Page, sel: Selection, hasOwner: bool) returns (r: Result<ViewParts>)
    ensures r.Ok? <==> ViewAccepts(layout, p, sel, hasOwner)
    ensures r.Ok? ==> IsViewOf(r.value, Cells(p, Parse(layout, p).value, Visited(sel, p.rowCount).value))
  {
    hide IsViewOf, NullsReadable, ViewsFit, OwnedViewsFit;
    var ranges :- ParseRanges(layout, p);
    var rows :- ForEachRow(sel, p.rowCount);
    VisitedInRange(sel, p.rowCount);
    if sel.All? || hasOwner {
      r := ViewRows(p, ranges, rows);
    } else {
      r := ViewRowsOwned(p, ranges, rows);
    }
  }
}
