/** The VarBytes export as callers see it: one dispatcher over all routes, the
    string variant on top, and the theorem that every route agrees. */
module VarBytesExport {
  import opened Machine
  import opened Validity
  import opened Utf8
  import opened VarBytes
  import opened RowSelection
  import opened VarBytesRoutes
  import opened NoNullRoutes
  import opened SelectedRoutes

  datatype StringPolicy = Strict | StrictOrCachedProof | TrustedPageProof

  /** The reference export: parse the page, keep the visited rows. */
  ghost predicate SimpleAccepts(layout: Layout, p: Page, sel: Selection) {
    Visited(sel, p.rowCount).Ok? && RowsExportable(layout, p, Visited(sel, p.rowCount).value)
  }

  function SimpleCells(layout: Layout, p: Page, sel: Selection): seq<Cell>
    requires Visited(sel, p.rowCount).Ok? && Parse(layout, p).Ok?
    requires forall i :: 0 <= i < |Visited(sel, p.rowCount).value| ==> Visited(sel, p.rowCount).value[i] < p.rowCount
  {
    Cells(p, Parse(layout, p).value, Visited(sel, p.rowCount).value)
  }

  /** What the dispatcher accepts; only the forward scan differs from the reference. */
  ghost predicate Accepted(layout: Layout, p: Page, sel: Selection) {
    if TakesForward(layout, sel) then ForwardAccepts(p, sel) else SimpleAccepts(layout, p, sel)
  }

  ghost function ExportedCells(layout: Layout, p: Page, sel: Selection): seq<Cell>
    requires Accepted(layout, p, sel)
  {
    if TakesForward(layout, sel) then
      var rows := Visited(sel, p.rowCount).value;
      if rows == [] then [] else Cells(p, ScanRows(p.data, 0, rows[|rows| - 1] + 1).value, rows)
    else SimpleCells(layout, p, sel)
  }

  lemma AllRowsIsSelection(layout: Layout, p: Page)
    ensures SimpleAccepts(layout, p, All) <==> AllRowsExportable(layout, p)
    ensures AllRowsExportable(layout, p) ==> SimpleCells(layout, p, All) == AllCells(layout, p)
  {
  }

  /** Every route refines the same specification: on a page that parses, whatever
      the selection, the dispatcher accepts what the reference accepts and yields
      its cells. The one difference is an empty selection on the forward route,
      which is exported even if the page's null bitmap is unreadable. */
  lemma RoutesAgree(layout: Layout, p: Page, sel: Selection)
    requires Parse(layout, p).Ok?
    ensures Accepted(layout, p, sel) <==>
              SimpleAccepts(layout, p, sel) || (TakesForward(layout, sel) && Visited(sel, p.rowCount) == Ok([]))
    ensures Accepted(layout, p, sel) && SimpleAccepts(layout, p, sel) ==>
              ExportedCells(layout, p, sel) == SimpleCells(layout, p, sel)
  {
    hide Parse, ScanRows, Flat, Cells, NullsReadable, PairsAscend;
    if TakesForward(layout, sel) && Visited(sel, p.rowCount).Ok? {
      var rows := Visited(sel, p.rowCount).value;
      VisitedInRange(sel, p.rowCount);
      VisitedAscend(sel, p.rowCount);
      if rows != [] {
        hide ForwardReadable, RowsExportable;
        ForwardOnParsedPage(p, rows, rows[|rows| - 1]);
      }
    }
  }

  lemma VisitedAscend(sel: Selection, n: nat)
    requires Visited(sel, n).Ok? && (sel.Rows? ==> PairsAscend(sel.rows))
    ensures Ascending(Visited(sel, n).value)
  {
    match sel
    case All =>
    case Rows(rows) => PairsAscendIsAscending(rows);
    case Bitset(words, len) => BitsetRowsExact(words, len, 0);
  }

  /** A selection that leaves at least the last row of the page out, and needs nothing
      the page cannot give up to its own last row. */
  ghost predicate TailIgnored(p: Page, sel: Selection) {
    && TakesForward(U32Prefixed, sel) && Visited(sel, p.rowCount).Ok?
    && var rows := Visited(sel, p.rowCount).value;
       rows == [] || (rows[|rows| - 1] + 1 < p.rowCount && ForwardReadable(p, rows, rows[|rows| - 1]))
  }

  lemma {:induction false} ScanMakesParse(data: seq<byte>, pos: nat, n: nat)
    requires n > 0 && ScanRows(data, pos, n).Ok? && EndOf(ScanRows(data, pos, n).value) == |data|
    ensures ParseFrom(U32Prefixed, data, pos, n).Ok?
    decreases n
  {
    var range := ReadU32Range(data, pos).value;
    var rest := ScanRows(data, range.end, n - 1).value;
    if n > 1 {
      assert EndOf([range] + rest) == EndOf(rest);
      ScanMakesParse(data, range.end, n - 1);
    } else {
      assert ParseFrom(U32Prefixed, data, range.end, 0).Ok?;
    }
  }

  /** A page that does not parse is exported exactly when its tail is ignored. */
  lemma CorruptPageAcceptedIff(p: Page, sel: Selection)
    requires Parse(U32Prefixed, p).Err?
    ensures Accepted(U32Prefixed, p, sel) <==> TailIgnored(p, sel)
  {
    hide ScanRows, ParseFrom, Cells, NullsReadable, Visited, Flat;
    if TakesForward(U32Prefixed, sel) && ForwardAccepts(p, sel) && Visited(sel, p.rowCount).value != [] {
      VisitedInRange(sel, p.rowCount);
      var rows := Visited(sel, p.rowCount).value;
      if rows[|rows| - 1] + 1 == p.rowCount { ScanMakesParse(p.data, 0, p.rowCount); }
    }
  }

  /** The forward scan stops before a corrupt tail that the parse would reject. */
  lemma ForwardAcceptsCorruptTail()
    ensures var p := Page([1, 0, 0, 0, 65, 255], 2, None);
            Parse(U32Prefixed, p).Err? && Accepted(U32Prefixed, p, Rows([0]))
  {
    var p := Page([1, 0, 0, 0, 65, 255], 2, None);
    assert p.data[0..4] == [1, 0, 0, 0];
    OneReads();
    assert ReadU32Range(p.data, 0) == Ok(Range(4, 5));
    assert ReadU32Range(p.data, 5).Err?;
    assert ParseFrom(U32Prefixed, p.data, 5, 1).Err?;
    assert ScanRows(p.data, 5, 0) == Ok([]);
    assert [Range(4, 5)] + [] == [Range(4, 5)];
    assert ScanRows(p.data, 0, 1) == Prepend([Range(4, 5)], Ok([]));
    var cells := Cells(p, [Range(4, 5)], [0]);
    Snoc([], cells[0]);
    assert cells == [] + [cells[0]] && Flat([]) == [];
  }

  /** One empty row under a bitmap too short to hold its flag: selecting nothing is
      exported, though the reference refuses the page for every selection. */
  lemma EmptySelectionSkipsBitmap()
    ensures var p := Page([0, 0, 0, 0], 1, Some(Bitmap([], 1)));
            && Parse(U32Prefixed, p).Ok? && Accepted(U32Prefixed, p, Rows([]))
            && forall sel :: !SimpleAccepts(U32Prefixed, p, sel)
  {
    var p := Page([0, 0, 0, 0], 1, Some(Bitmap([], 1)));
    ZeroReads();
    assert p.data[0..4] == [0, 0, 0, 0];
    assert ReadU32Range(p.data, 0) == Ok(Range(4, 4));
    assert ParseFrom(U32Prefixed, p.data, 4, 0) == Ok([]);
    assert HasNulls(p.validity).Err?;
  }

  lemma ZeroReads()
    ensures LittleEndian.LeNat([0, 0, 0, 0]) == 0
  {
    var s: seq<byte> := [0, 0, 0, 0];
    assert s[1..] == [0, 0, 0] && s[1..][1..] == [0, 0] && s[1..][1..][1..] == [0];
    assert s[1..][1..][1..][1..] == [];
  }

  lemma OneReads()
    ensures LittleEndian.LeNat([1, 0, 0, 0]) == 1
  {
    var s: seq<byte> := [1, 0, 0, 0];
    assert s[1..] == [0, 0, 0] && s[1..][1..] == [0, 0] && s[1..][1..][1..] == [0];
    assert s[1..][1..][1..][1..] == [];
  }

  /** `materialize_all_rows` */
  method MaterializeAllRows(layout: Layout, p: Page) returns (r: Result<Parts>)
    ensures r.Ok? <==> AllRowsExportable(layout, p)
    ensures r.Ok? ==> r.value == Export(AllCells(layout, p))
  {
    var hasNulls :- HasNulls(p.validity);
    if !hasNulls && layout == U32Prefixed {
      r := MaterializeNoNulls(p, false);
    } else {
      r := MaterializeGeneric(layout, p);
    }
  }

  /** `materialize` */
  method Materialize(layout: Layout, p: Page, sel: Selection) returns (r: Result<Parts>)
    ensures r.Ok? <==> Accepted(layout, p, sel)
    ensures r.Ok? ==> r.value == Export(ExportedCells(layout, p, sel))
  {
    hide Export, ForwardAccepts, AllRowsExportable, RowsExportable;
    if sel.All? {
      AllRowsIsSelection(layout, p);
      r := MaterializeAllRows(layout, p);
      return;
    }
    var forward :- MaterializeForward(layout, p, sel);
    if forward.Some? { return Ok(forward.value); }
    ParseNeeded(layout, p, sel);
    var ranges :- ParseRanges(layout, p);
    r := MaterializeSelected(layout, p, sel, ranges);
  }

  lemma ParseNeeded(layout: Layout, p: Page, sel: Selection)
    ensures Parse(layout, p).Err? ==> !SimpleAccepts(layout, p, sel)
  {
  }

  /** `materialize_utf8`: strict policies return only well-formed text, and refuse
      a readable page exactly when some present row is not well-formed. */
  method MaterializeUtf8(layout: Layout, p: Page, sel: Selection, policy: StringPolicy) returns (r: Result<Parts>)
    ensures r.Ok? <==> HasNulls(p.validity).Ok? && Accepted(layout, p, sel)
                       && (policy != TrustedPageProof ==> TextCells(ExportedCells(layout, p, sel)))
    ensures r.Ok? ==> r.value == Export(ExportedCells(layout, p, sel))
  {
    hide TextCells, ForwardAccepts, AllRowsExportable, RowsExportable;
    var strict := policy != TrustedPageProof;
    var hasNulls :- HasNulls(p.validity);
    if sel.All? && !hasNulls && layout == U32Prefixed {
      AllRowsIsSelection(layout, p);
      r := MaterializeNoNulls(p, strict);
      return;
    }
    var parts :- Materialize(layout, p, sel);
    if strict {
      RowsAreCells(ExportedCells(layout, p, sel));
      var _ :- ValidateOffsets(parts.offsets, parts.values);
    }
    return Ok(parts);
  }
}
