/** Writing then reading nested pages: exactly when a written page can be read, and
    that what is read is what the column denotes. */
module PageRoundTrip {
  import opened Machine
  import opened Bits
  import opened LittleEndian
  import opened Validity
  import opened Scalars
  import opened Nested
  import opened NestedReorder
  import opened Layouts
  import opened PageTree
  import opened PageEmit
  import opened PageDecode
  import LeafExport
  import NumberCodes = NumCodes
  import LeafRoundTrip

  function RowWidth(offsets: seq<nat>, row: nat): int
    requires row + 1 < |offsets|
  {
    offsets[row + 1] as int - offsets[row]
  }

  /** Every row has the same number of items. */
  ghost predicate Uniform(offsets: seq<nat>, width: nat) {
    forall i :: 0 <= i < |offsets| - 1 ==> RowWidth(offsets, i) == width
  }

  /** Every row of a fixed-size list, null or not, has the list's width. */
  ghost predicate FixedWidths(c: Column) {
    match c
    case ScalarCol(_, _) => true
    case ListCol(_, kind, offsets, child) =>
      FixedWidths(child) && (Width(kind) > 0 ==> Uniform(offsets, Width(kind)))
    case StructCol(_, fields) => forall i :: 0 <= i < |fields| ==> FixedWidths(fields[i])
    case MapCol(_, _, keys, values, _) => FixedWidths(keys) && FixedWidths(values)
  }

  /** Canonical key texts fit their u32 length fields. */
  ghost predicate ShortKeys(c: Column) {
    match c
    case ScalarCol(_, _) => true
    case ListCol(_, _, _, child) => ShortKeys(child)
    case StructCol(_, fields) => forall i :: 0 <= i < |fields| ==> ShortKeys(fields[i])
    case MapCol(_, _, keys, values, canonical) => KeysShort(canonical) && ShortKeys(keys) && ShortKeys(values)
  }

  /** Rows of the child column that the listed rows of a list or map column hold. */
  function Selected(c: Column, start: nat, len: nat, rows: seq<nat>): (r: seq<nat>)
    requires WellFormed(c) && (c.ListCol? || c.MapCol?) && start + len <= Rows(c) && Within(rows, len)
    ensures Within(r, KidLen(c, start, len))
  {
    SlicedOk(c, start, len);
    var sliced := Sliced(c, start, len);
    NestedReorder.ChildRowsOk(sliced, rows, len, KidLen(c, start, len));
    ChildRows(sliced, rows)
  }

  function Sliced(c: Column, start: nat, len: nat): (r: seq<u32>)
    requires WellFormed(c) && (c.ListCol? || c.MapCol?) && start + len <= Rows(c)
    ensures |r| == len + 1 && forall i :: 0 <= i <= len ==> r[i] == c.offsets[start + i] - c.offsets[start]
  {
    SlicedOffsets(c.offsets, Rows(c), Rows(if c.ListCol? then c.child else c.keys), start, len)
  }

  lemma SlicedOk(c: Column, start: nat, len: nat)
    requires WellFormed(c) && (c.ListCol? || c.MapCol?) && start + len <= Rows(c)
    ensures OffsetsOk(Sliced(c, start, len), len, KidLen(c, start, len))
    ensures ValidOffsets(Sliced(c, start, len), KidLen(c, start, len))
  {
  }

  ghost predicate DistinctKeys(c: Column, start: nat, len: nat)
    requires WellFormed(c) && c.MapCol? && start + len <= Rows(c)
  {
    forall i :: start <= i < start + len ==> KeysOfRowDistinct(c, i)
  }

  ghost predicate KeysOfRowDistinct(c: Column, row: nat)
    requires WellFormed(c) && c.MapCol? && row < Rows(c)
  {
    MapRow(c, row);
    NoDuplicates(c.canonical[c.offsets[row]..c.offsets[row + 1]])
  }

  /** What a caller can check: row counts fit their fields, selected child rows fit
      Arrow's offsets, structs have fields, no map row repeats a key, and every leaf's
      selected rows can be exported as the schema's type. */
  ghost predicate Readable(c: Column, s: Schema, start: nat, len: nat, rows: seq<nat>)
    requires WellFormed(c) && Describes(s, c) && start + len <= Rows(c) && Within(rows, len)
    decreases c
  {
    match c
    case ScalarCol(_, _) => LeafRoundTrip.LeafReadable(s.leaf, c, start, len, rows)
    case ListCol(_, kind, _, child) =>
      var selected := Selected(c, start, len, rows);
      && len < U32_MAX && |selected| <= (if Width(kind) == 0 then I32_MAX else U32_MAX) && Width(kind) <= I32_MAX
      && Readable(child, s.item, KidStart(c, start), KidLen(c, start, len), selected)
    case StructCol(_, fields) =>
      |fields| > 0 && forall i :: 0 <= i < |fields| ==> Readable(fields[i], s.fields[i], start, len, rows)
    case MapCol(_, _, keys, values, _) =>
      var selected := Selected(c, start, len, rows);
      && len < U32_MAX && |selected| <= I32_MAX && DistinctKeys(c, start, len)
      && Readable(keys, s.key, KidStart(c, start), KidLen(c, start, len), selected)
      && Readable(values, s.value, KidStart(c, start), KidLen(c, start, len), selected)
  }

  /** What reading must give: the listed rows when readable, an error otherwise. */
  ghost predicate ReadsBack(r: Result<seq<Value>>, c: Column, s: Schema, start: nat, len: nat, rows: seq<nat>)
    requires WellFormed(c) && Describes(s, c) && start + len <= Rows(c) && Within(rows, len)
  {
    if Readable(c, s, start, len, rows) then r == Ok(Pick(RowValues(c, start, len), rows)) else r.Err?
  }

  // ---- what a written node holds ----

  ghost predicate KidTree(c: Column, k: nat, start: nat, len: nat, t: Tree)
    requires WellFormed(c) && start + len <= Rows(c) && k < |Kids(c)|
  {
    exists encoding, id: nat ::
      && MaterializedEncoding(PhysicalOf(Kids(c)[k])) == Ok(encoding)
      && TreeOf(Kids(c)[k], KidStart(c, start), KidLen(c, start, len), encoding, id) == Ok(t)
  }

  ghost predicate KidTreesFrom(c: Column, k: nat, start: nat, len: nat, ts: seq<Tree>)
    requires WellFormed(c) && start + len <= Rows(c) && k <= |Kids(c)|
  {
    |ts| == |Kids(c)| - k && forall j :: 0 <= j < |ts| ==> KidTree(c, k + j, start, len, ts[j])
  }

  lemma {:induction false} KidTrees(c: Column, k: nat, start: nat, len: nat, id: nat)
    requires WellFormed(c) && start + len <= Rows(c) && k <= |Kids(c)| && TreesOf(c, k, start, len, id).Ok?
    ensures KidTreesFrom(c, k, start, len, TreesOf(c, k, start, len, id).value)
    decreases |Kids(c)| - k
  {
    if k < |Kids(c)| {
      TreesOfStep(c, k, start, len, id);
      hide *;
      var encoding := MaterializedEncoding(PhysicalOf(Kids(c)[k])).value;
      var first := TreeOf(Kids(c)[k], KidStart(c, start), KidLen(c, start, len), encoding, id).value;
      var rest := TreesOf(c, k + 1, start, len, id + |Preorder(first)|);
      TreesSplit(first, rest, TreesOf(c, k, start, len, id).value);
      KidTrees(c, k + 1, start, len, id + |Preorder(first)|);
      IsKidTree(c, k, start, len, encoding, id, first);
      MoreKidTrees(c, k, start, len, first, rest.value);
    }
  }

  lemma MoreKidTrees(c: Column, k: nat, start: nat, len: nat, first: Tree, more: seq<Tree>)
    requires WellFormed(c) && start + len <= Rows(c) && k < |Kids(c)|
    requires KidTree(c, k, start, len, first) && KidTreesFrom(c, k + 1, start, len, more)
    ensures KidTreesFrom(c, k, start, len, [first] + more)
  {
    hide WellFormed, KidTree, Kids;
    var ts := [first] + more;
    forall j | 0 <= j < |ts| ensures KidTree(c, k + j, start, len, ts[j]) {
      if j > 0 { assert KidTree(c, k + 1 + (j - 1), start, len, more[j - 1]); }
    }
  }

  lemma TreesSplit(first: Tree, rest: Result<seq<Tree>>, ts: seq<Tree>)
    requires Trees([first], rest) == Ok(ts)
    ensures rest.Ok? && ts == [first] + rest.value
  {
  }

  lemma IsKidTree(c: Column, k: nat, start: nat, len: nat, encoding: Encoding, id: nat, t: Tree)
    requires WellFormed(c) && start + len <= Rows(c) && k < |Kids(c)|
    requires MaterializedEncoding(PhysicalOf(Kids(c)[k])) == Ok(encoding)
    requires TreeOf(Kids(c)[k], KidStart(c, start), KidLen(c, start, len), encoding, id) == Ok(t)
    ensures KidTree(c, k, start, len, t)
  {
  }

  /** A written node: its counts, its buffers and its kids' trees. */
  ghost predicate WrittenNode(c: Column, start: nat, len: nat, t: Tree)
    requires WellFormed(c) && start + len <= Rows(c)
  {
    && t.node.physical == PhysicalOf(c) && t.node.logicalLen == len && |Kids(c)| <= U16_MAX
    && len <= U32_MAX && MainBuffer(c, start, len).Ok?
    && t.buffers == NullBuffers(c.nulls[start..start + len]) + [MainBuffer(c, start, len).value]
    && KidTreesFrom(c, 0, start, len, t.children)
  }

  lemma TreeParts(c: Column, start: nat, len: nat, encoding: Encoding, id: nat)
    requires WellFormed(c) && start + len <= Rows(c) && TreeOf(c, start, len, encoding, id).Ok?
    ensures var own, kids := OwnBuffers(c, start, len), TreesOf(c, 0, start, len, id + 1);
            && own.Ok? && kids.Ok? && len <= U32_MAX && |Kids(c)| <= U16_MAX && |kids.value| == |Kids(c)|
            && TreeOf(c, start, len, encoding, id).value
               == Tree(Node(id, encoding, PhysicalOf(c), len, |Kids(c)|, |own.value|), own.value, kids.value)
  {
    hide WellFormed, OwnBuffers, TreesOf, PhysicalOf, Kids;
  }

  lemma TreeWritten(c: Column, start: nat, len: nat, encoding: Encoding, id: nat)
    requires WellFormed(c) && start + len <= Rows(c) && TreeOf(c, start, len, encoding, id).Ok?
    ensures WrittenNode(c, start, len, TreeOf(c, start, len, encoding, id).value)
    ensures TreeOf(c, start, len, encoding, id).value.node.encoding == encoding
  {
    TreeParts(c, start, len, encoding, id);
    KidTrees(c, 0, start, len, id + 1);
    hide TreeOf, TreesOf, KidTree, KidTreesFrom, NullBuffers, WellFormed, KidStart, KidLen, MainBuffer, PhysicalOf,
      Kids;
  }

  /** The null bitmap reads back as the null flags, whether or not it was written. */
  lemma NullFlagsBack(t: Tree, nulls: seq<bool>, main: Buffer, rows: seq<nat>)
    requires t.buffers == NullBuffers(nulls) + [main] && !main.kind.NullBitmapBuffer?
    requires t.node.logicalLen == |nulls| && Within(rows, |nulls|)
    ensures NullFlags(t, rows) == Ok(Pick(nulls, rows))
    ensures RequiredBuffer(t, main.kind) == Ok(main.bytes)
  {
    OfKindWritten(nulls, main);
    if AnyNull(nulls) {
      var bytes := PackBits(nulls);
      forall i | 0 <= i < |rows|
        ensures rows[i] / 8 < |bytes| && Bit(bytes[rows[i] / 8], rows[i] % 8) == nulls[rows[i]]
      {
        PackedBit(nulls, rows[i]);
      }
      hide PackBits, Bit, OfKind;
      assert NullFlags(t, rows).Ok?;
      assert NullFlags(t, rows).value == Pick(nulls, rows);
    } else {
      assert forall i :: 0 <= i < |rows| ==> !nulls[rows[i]];
      assert Falses(|rows|) == Pick(nulls, rows);
    }
  }

  lemma OfKindOne(b: Buffer, kind: BufferKind)
    ensures OfKind([b], kind) == if b.kind == kind then [b] else []
  {
    assert [b][1..] == [];
  }

  lemma OfKindTwo(a: Buffer, b: Buffer, kind: BufferKind)
    ensures OfKind([a, b], kind) == (if a.kind == kind then [a] else []) + (if b.kind == kind then [b] else [])
  {
    OfKindOne(b, kind);
    assert [a, b][1..] == [b];
  }

  lemma OfKindWritten(nulls: seq<bool>, main: Buffer)
    requires !main.kind.NullBitmapBuffer?
    ensures var buffers := NullBuffers(nulls) + [main];
            && OfKind(buffers, main.kind) == [main]
            && OfKind(buffers, NullBitmapBuffer)
               == if AnyNull(nulls) then [Buffer(NullBitmapBuffer, PackBits(nulls))] else []
  {
    OfKindOne(main, main.kind);
    OfKindOne(main, NullBitmapBuffer);
    if AnyNull(nulls) {
      var bitmap := Buffer(NullBitmapBuffer, PackBits(nulls));
      OfKindTwo(bitmap, main, main.kind);
      OfKindTwo(bitmap, main, NullBitmapBuffer);
      assert NullBuffers(nulls) + [main] == [bitmap, main];
    } else {
      assert NullBuffers(nulls) + [main] == [main];
    }
  }

  // ---- reading each kind of node ----

  lemma ScalarBack(c: Column, s: Schema, start: nat, len: nat, t: Tree, rows: seq<nat>)
    requires WellFormed(c) && c.ScalarCol? && start + len <= Rows(c) && WrittenNode(c, start, len, t)
    requires Ok(t.node.encoding) == MaterializedEncoding(PhysicalOf(c)) && Within(rows, len) && Describes(s, c)
    ensures ReadsBack(DecodeTree(t, s, rows), c, s, start, len, rows)
  {
    hide *;
    LeafShape(c, s, start, len, t, rows);
    LeafNodePage(c, start, len, t, rows);
    LeafRoundTrip.LeafReadsBack(s.leaf, c, start, len, rows);
    LeafBackIs(c, s, start, len, rows);
    DecodesLeaf(t, s, rows);
  }

  lemma LeafShape(c: Column, s: Schema, start: nat, len: nat, t: Tree, rows: seq<nat>)
    requires WellFormed(c) && c.ScalarCol? && start + len <= Rows(c) && WrittenNode(c, start, len, t)
    requires Ok(t.node.encoding) == MaterializedEncoding(PhysicalOf(c)) && Within(rows, len) && Describes(s, c)
    ensures s.ScalarSchema? && LeafExport.LeafKind(s.leaf) == KindOf(c.vals) && Encoded(c.vals, start, len).Ok?
    ensures LeafRoundTrip.LeafRange(c, start, len, rows) && t.node.logicalLen == len
    ensures Ok(t.node.encoding) == MaterializedEncoding(ScalarPhysical(LeafExport.LeafKind(s.leaf)))
    ensures t.node.physical == PhysicalOfSchema(s)
  {
  }

  /** The export is given the written values and the written bitmap. */
  lemma LeafNodePage(c: Column, start: nat, len: nat, t: Tree, rows: seq<nat>)
    requires WellFormed(c) && c.ScalarCol? && start + len <= Rows(c) && WrittenNode(c, start, len, t)
    ensures Encoded(c.vals, start, len).Ok?
    ensures var bitmap := OnlyBuffer(t, NullBitmapBuffer);
            && bitmap.Ok? && RequiredBuffer(t, ValuesBuffer) == Ok(Encoded(c.vals, start, len).value)
            && NodePage(t, Encoded(c.vals, start, len).value, bitmap.value) == LeafRoundTrip.LeafPage(c, start, len)
  {
    var nulls := c.nulls[start..start + len];
    OfKindWritten(nulls, MainBuffer(c, start, len).value);
    hide Encoded, OfKind, NullBuffers, KidTreesFrom, WellFormed, PackBits, Kids;
  }

  /** The scalar case of the reader. */
  lemma DecodesLeaf(t: Tree, s: Schema, rows: seq<nat>)
    requires s.ScalarSchema? && t.node.physical == PhysicalOfSchema(s) && Within(rows, t.node.logicalLen)
    requires Ok(t.node.encoding) == MaterializedEncoding(ScalarPhysical(LeafExport.LeafKind(s.leaf)))
    requires RequiredBuffer(t, ValuesBuffer).Ok? && OnlyBuffer(t, NullBitmapBuffer).Ok?
    ensures var p := NodePage(t, RequiredBuffer(t, ValuesBuffer).value, OnlyBuffer(t, NullBitmapBuffer).value);
            var sel := LeafExport.ListedRows(rows, t.node.logicalLen);
            DecodeTree(t, s, rows)
            == if LeafExport.LeafAccepted(s.leaf, p, sel) then Ok(LeafExport.LeafCells(s.leaf, p, sel))
               else Err(PageCorrupt)
  {
    hide OnlyBuffer, RequiredBuffer, LeafExport.LeafAccepted, LeafExport.LeafCells;
  }

  lemma LeafBackIs(c: Column, s: Schema, start: nat, len: nat, rows: seq<nat>)
    requires LeafRoundTrip.LeafRange(c, start, len, rows) && Describes(s, c) && s.ScalarSchema?
    requires LeafExport.LeafKind(s.leaf) == KindOf(c.vals) && Encoded(c.vals, start, len).Ok?
    requires LeafRoundTrip.LeafBack(s.leaf, c, start, len, rows)
    ensures var p, sel := LeafRoundTrip.LeafPage(c, start, len), LeafExport.ListedRows(rows, len);
            ReadsBack(if LeafExport.LeafAccepted(s.leaf, p, sel) then Ok(LeafExport.LeafCells(s.leaf, p, sel))
                      else Err(PageCorrupt), c, s, start, len, rows)
  {
    hide LeafExport.LeafAccepted, LeafExport.LeafCells, LeafRoundTrip.LeafReadable, LeafRoundTrip.LeafPage, RowValues,
         WellFormed, Encoded;
  }

  /** A layout's child selection, as the reader computes it. */
  lemma SelectionBack(c: Column, start: nat, len: nat, rows: seq<nat>)
    requires WellFormed(c) && (c.ListCol? || c.MapCol?) && start + len <= Rows(c) && Within(rows, len)
    ensures ValidOffsets(Sliced(c, start, len), KidLen(c, start, len)) && Monotone(Sliced(c, start, len))
    ensures var selected := Selected(c, start, len, rows);
            ChildSelection(Sliced(c, start, len), KidLen(c, start, len), rows)
            == if |selected| > U32_MAX then Err(ArithOverflow)
               else Ok((selected, NewOffsets(Sliced(c, start, len), rows)))
  {
    SlicedOk(c, start, len);
  }

  lemma ListLayoutBack(c: Column, start: nat, len: nat, t: Tree, rows: seq<nat>)
    requires WellFormed(c) && c.ListCol? && start + len <= Rows(c) && WrittenNode(c, start, len, t) && Within(rows, len)
    ensures var selected := Selected(c, start, len, rows);
            && (len < U32_MAX && |selected| <= U32_MAX ==>
                  && Monotone(Sliced(c, start, len))
                  && ListRows(t, rows) == Ok((selected, NewOffsets(Sliced(c, start, len), rows))))
            && (len == U32_MAX || |selected| > U32_MAX ==> ListRows(t, rows).Err?)
    ensures NullFlags(t, rows) == Ok(Pick(c.nulls[start..start + len], rows))
  {
    NullFlagsBack(t, c.nulls[start..start + len], MainBuffer(c, start, len).value, rows);
    ListRoundTrip(ListLayout(Sliced(c, start, len), KidLen(c, start, len)));
    SelectionBack(c, start, len, rows);
    hide NullFlags, RequiredBuffer, NullBuffers, KidTreesFrom, WellFormed, ParseList, EncodeList, ChildSelection,
         ValidOffsets, Selected;
  }

  /** Item spans of the selected child rows are the rows of the original spans. */
  lemma SpanBack(c: Column, start: nat, len: nat, rows: seq<nat>, i: nat)
    requires WellFormed(c) && (c.ListCol? || c.MapCol?) && start + len <= Rows(c) && Within(rows, len) && i < |rows|
    ensures Monotone(Sliced(c, start, len))
    ensures var offsets, selected := NewOffsets(Sliced(c, start, len), rows), Selected(c, start, len, rows);
            var row := start + rows[i];
            && offsets[i] <= offsets[i + 1] <= |selected| && c.offsets[row] <= c.offsets[row + 1]
            && offsets[i + 1] - offsets[i] == c.offsets[row + 1] - c.offsets[row]
            && forall j :: offsets[i] <= j < offsets[i + 1] ==>
                 selected[j] == c.offsets[row] - c.offsets[start] + (j - offsets[i])
  {
    SlicedOk(c, start, len);
    var sliced := Sliced(c, start, len);
    ChildRowsAt(sliced, rows, i);
    var offsets, selected := NewOffsets(sliced, rows), Selected(c, start, len, rows);
    var span := Span(sliced, rows[i]);
    assert selected[offsets[i]..offsets[i + 1]] == span;
    assert c.offsets[start + rows[i]] <= c.offsets[start + rows[i] + 1];
    forall j | offsets[i] <= j < offsets[i + 1]
      ensures selected[j] == c.offsets[start + rows[i]] - c.offsets[start] + (j - offsets[i])
    {
      assert selected[j] == span[j - offsets[i]];
    }
  }

  lemma ItemsBack(c: Column, kid: Column, start: nat, len: nat, rows: seq<nat>, i: nat)
    requires WellFormed(c) && (c.ListCol? || c.MapCol?) && start + len <= Rows(c) && Within(rows, len) && i < |rows|
    requires WellFormed(kid) && KidStart(c, start) + KidLen(c, start, len) <= Rows(kid)
    requires start + rows[i] + 1 < |c.offsets|
    requires c.offsets[start + rows[i]] <= c.offsets[start + rows[i] + 1] <= Rows(kid)
    ensures Monotone(Sliced(c, start, len))
    ensures var offsets := NewOffsets(Sliced(c, start, len), rows);
            var items := Pick(RowValues(kid, KidStart(c, start), KidLen(c, start, len)), Selected(c, start, len, rows));
            var row := start + rows[i];
            && offsets[i] <= offsets[i + 1] <= |items|
            && items[offsets[i]..offsets[i + 1]] == RowValues(kid, c.offsets[row], c.offsets[row + 1] - c.offsets[row])
  {
    SpanBack(c, start, len, rows, i);
    var offsets, selected := NewOffsets(Sliced(c, start, len), rows), Selected(c, start, len, rows);
    var row := start + rows[i];
    assert KidStart(c, start) == c.offsets[start];
    assert c.offsets[start] <= c.offsets[row];
    hide *;
    StretchPicked(kid, KidStart(c, start), KidLen(c, start, len), selected, offsets[i], offsets[i + 1], c.offsets[row]);
  }

  lemma StretchPicked(kid: Column, base: nat, n: nat, selected: seq<nat>, a: nat, b: nat, from: nat)
    requires WellFormed(kid) && base + n <= Rows(kid) && Within(selected, n) && a <= b <= |selected|
    requires base <= from && from + (b - a) <= Rows(kid)
    requires forall j :: a <= j < b ==> selected[j] == from - base + (j - a)
    ensures Pick(RowValues(kid, base, n), selected)[a..b] == RowValues(kid, from, b - a)
  {
    hide RowValue, WellFormed;
    var left, right := Pick(RowValues(kid, base, n), selected)[a..b], RowValues(kid, from, b - a);
    forall j | 0 <= j < b - a ensures left[j] == right[j] {
      assert selected[a + j] == from - base + j;
    }
  }

  lemma ListRowBack(c: Column, start: nat, len: nat, rows: seq<nat>, i: nat)
    requires WellFormed(c) && c.ListCol? && start + len <= Rows(c) && Within(rows, len) && i < |rows|
    ensures Monotone(Sliced(c, start, len)) && WellFormed(c.child)
    ensures var offsets := NewOffsets(Sliced(c, start, len), rows);
            var items := Pick(RowValues(c.child, KidStart(c, start), KidLen(c, start, len)),
                              Selected(c, start, len, rows));
            && offsets[i] <= offsets[i + 1] <= |items|
            && (if c.nulls[start..start + len][rows[i]] then Null else ListOf(items[offsets[i]..offsets[i + 1]]))
               == RowValue(c, start + rows[i])
  {
    ListRow(c, start + rows[i]);
    KidRange(c, start, len);
    hide *;
    ItemsBack(c, c.child, start, len, rows, i);
  }

  lemma KidRange(c: Column, start: nat, len: nat)
    requires WellFormed(c) && (c.ListCol? || c.MapCol?) && start + len <= Rows(c)
    ensures c.ListCol? ==> WellFormed(c.child) && KidStart(c, start) + KidLen(c, start, len) <= Rows(c.child)
    ensures c.MapCol? ==>
              && WellFormed(c.keys) && KidStart(c, start) + KidLen(c, start, len) <= Rows(c.keys)
              && WellFormed(c.values) && KidStart(c, start) + KidLen(c, start, len) <= Rows(c.values)
              && KidStart(c, start) + KidLen(c, start, len) <= |c.canonical|
    ensures OffsetsOk(Sliced(c, start, len), len, KidLen(c, start, len)) && Monotone(Sliced(c, start, len))
  {
  }

  /** Rows of a fixed-size list lie at multiples of its width. */
  lemma {:induction false} UniformOffsets(offsets: seq<nat>, rows: seq<nat>, width: nat)
    requires |offsets| > 0 && Monotone(offsets) && Within(rows, |offsets| - 1)
    requires forall i :: 0 <= i < |rows| ==> |Span(offsets, rows[i])| == width
    ensures NewOffsets(offsets, rows) == Multiples(|rows|, width)
    ensures |ChildRows(offsets, rows)| == |rows| * width
    decreases |rows|
  {
    if rows != [] {
      var front, last := rows[..|rows| - 1], rows[|rows| - 1];
      Front(rows, |offsets| - 1);
      UniformOffsets(offsets, front, width);
      assert |Span(offsets, last)| == width;
      hide NewOffsets, ChildRows, Span;
      ChildRowsSnoc(offsets, front, last);
      MultiplesGrow(|front|, width);
    }
  }

  lemma MultiplesGrow(n: nat, width: nat)
    ensures (n + 1) * width == n * width + width
    ensures Multiples(n + 1, width) == Multiples(n, width) + [n * width + width]
  {
  }

  lemma FixedListOffsets(c: Column, start: nat, len: nat, rows: seq<nat>)
    requires WellFormed(c) && c.ListCol? && FixedWidths(c) && Width(c.kind) > 0
    requires start + len <= Rows(c) && Within(rows, len)
    ensures Monotone(Sliced(c, start, len))
    ensures NewOffsets(Sliced(c, start, len), rows) == Multiples(|rows|, Width(c.kind))
    ensures |Selected(c, start, len, rows)| == |rows| * Width(c.kind)
  {
    KidRange(c, start, len);
    var sliced := Sliced(c, start, len);
    ListOffsets(c);
    forall i | 0 <= i < |rows| ensures |Span(sliced, rows[i])| == Width(c.kind) {
      assert RowWidth(c.offsets, start + rows[i]) == Width(c.kind);
      assert c.offsets[start] <= c.offsets[start + rows[i]];
    }
    UniformOffsets(sliced, rows, Width(c.kind));
  }

  lemma ListsBack(c: Column, start: nat, len: nat, rows: seq<nat>)
    requires WellFormed(c) && c.ListCol? && start + len <= Rows(c) && Within(rows, len)
    ensures Monotone(Sliced(c, start, len)) && WellFormed(c.child)
    ensures var offsets, selected := NewOffsets(Sliced(c, start, len), rows), Selected(c, start, len, rows);
            var items := Pick(RowValues(c.child, KidStart(c, start), KidLen(c, start, len)), selected);
            && Spans(offsets, |rows|, |items|) && offsets[|rows|] == |selected|
            && Flagged(Pick(c.nulls[start..start + len], rows), Lists(|rows|, offsets, items))
               == Pick(RowValues(c, start, len), rows)
  {
    KidRange(c, start, len);
    var offsets, selected := NewOffsets(Sliced(c, start, len), rows), Selected(c, start, len, rows);
    var items := Pick(RowValues(c.child, KidStart(c, start), KidLen(c, start, len)), selected);
    NewOffsetsSpan(Sliced(c, start, len), rows);
    assert Spans(offsets, |rows|, |items|);
    var left := Flagged(Pick(c.nulls[start..start + len], rows), Lists(|rows|, offsets, items));
    hide RowValue, RowValues, Selected, Sliced, NewOffsets, WellFormed, KidStart, KidLen;
    forall i | 0 <= i < |rows| ensures left[i] == RowValue(c, start + rows[i]) {
      ListRowBack(c, start, len, rows, i);
    }
    PickedRows(c, start, len, rows);
    assert left == Pick(RowValues(c, start, len), rows);
  }

  /** The array built from the selected items denotes the listed rows. */
  lemma ListArrayBack(c: Column, start: nat, len: nat, rows: seq<nat>)
    requires WellFormed(c) && c.ListCol? && FixedWidths(c) && start + len <= Rows(c) && Within(rows, len)
    ensures Monotone(Sliced(c, start, len)) && WellFormed(c.child)
    ensures var offsets, selected := NewOffsets(Sliced(c, start, len), rows), Selected(c, start, len, rows);
            var items := Pick(RowValues(c.child, KidStart(c, start), KidLen(c, start, len)), selected);
            && Spans(offsets, |rows|, |items|)
            && var built := WithFlags(Ok(Pick(c.nulls[start..start + len], rows)),
                                      ListArray(c.kind, |rows|, offsets, items));
               if Width(c.kind) <= I32_MAX && (Width(c.kind) == 0 ==> |selected| <= I32_MAX)
               then built == Ok(Pick(RowValues(c, start, len), rows)) else built.Err?
  {
    ListsBack(c, start, len, rows);
    if Width(c.kind) > 0 { FixedListOffsets(c, start, len, rows); }
    hide RowValue, RowValues, Selected, Sliced, NewOffsets, WellFormed, KidStart, KidLen, FixedWidths, Flagged, Lists,
         Multiples, Spans;
  }

  lemma PickedRows(c: Column, start: nat, len: nat, rows: seq<nat>)
    requires WellFormed(c) && start + len <= Rows(c) && Within(rows, len)
    ensures var r := Pick(RowValues(c, start, len), rows);
            |r| == |rows| && forall i :: 0 <= i < |rows| ==> r[i] == RowValue(c, start + rows[i])
  {
  }

  // ---- maps ----

  function CanonicalSlice(c: Column, start: nat, len: nat): (r: seq<seq<byte>>)
    requires WellFormed(c) && c.MapCol? && start + len <= Rows(c)
    ensures |r| == KidLen(c, start, len)
  {
    KidRange(c, start, len);
    c.canonical[KidStart(c, start)..KidStart(c, start) + KidLen(c, start, len)]
  }

  function LayoutOfMap(c: Column, start: nat, len: nat): (l: MapLayout)
    requires WellFormed(c) && c.MapCol? && start + len <= Rows(c)
    ensures |l.canonical| == l.keyRows == KidLen(c, start, len) && |l.offsets| == len + 1
  {
    var n := KidLen(c, start, len);
    MapLayout(Sliced(c, start, len), n, n, true, false, CanonicalSlice(c, start, len))
  }

  /** Stretches of the canonical slice are stretches of the whole. */
  lemma CanonicalStretch(c: Column, start: nat, len: nat, i: nat)
    requires WellFormed(c) && c.MapCol? && start + len <= Rows(c) && i < len
    ensures var s := Sliced(c, start, len);
            && s[i] <= s[i + 1] <= |CanonicalSlice(c, start, len)|
            && c.offsets[start + i] <= c.offsets[start + i + 1] <= |c.canonical|
            && CanonicalSlice(c, start, len)[s[i]..s[i + 1]]
               == c.canonical[c.offsets[start + i]..c.offsets[start + i + 1]]
  {
    MapOffsets(c);
    KidRange(c, start, len);
    var s, from := Sliced(c, start, len), KidStart(c, start);
    assert from + s[i] == c.offsets[start + i] && from + s[i + 1] == c.offsets[start + i + 1];
    assert s[i + 1] <= s[len] == KidLen(c, start, len);
    assert CanonicalSlice(c, start, len) == c.canonical[from..from + KidLen(c, start, len)];
    hide WellFormed, Sliced, CanonicalSlice, KidStart, KidLen;
    SliceOfSlice(c.canonical, from, from + KidLen(c, start, len), s[i], s[i + 1]);
  }

  lemma SliceOfSlice<T>(s: seq<T>, from: nat, to: nat, a: nat, b: nat)
    requires from <= to <= |s| && a <= b <= to - from
    ensures s[from..to][a..b] == s[from + a..from + b]
  {
    var left, right := s[from..to][a..b], s[from + a..from + b];
    forall i | 0 <= i < b - a ensures left[i] == right[i] {
      assert left[i] == s[from..to][a + i];
    }
  }

  lemma MapValidIff(c: Column, start: nat, len: nat)
    requires WellFormed(c) && c.MapCol? && start + len <= Rows(c)
    ensures ValidMap(LayoutOfMap(c, start, len)) <==> DistinctKeys(c, start, len)
  {
    var l := LayoutOfMap(c, start, len);
    SlicedOk(c, start, len);
    hide WellFormed, Sliced, CanonicalSlice, KidLen, RowKeysDistinct, KeysOfRowDistinct;
    if DistinctKeys(c, start, len) {
      forall i | 0 <= i < |l.offsets| - 1 ensures RowKeysDistinct(l.offsets, l.canonical, i) {
        assert KeysOfRowDistinct(c, start + i);
        MapRowValidIff(c, start, len, i);
      }
    }
    if ValidMap(l) {
      forall row | start <= row < start + len ensures KeysOfRowDistinct(c, row) {
        assert RowKeysDistinct(l.offsets, l.canonical, row - start);
        MapRowValidIff(c, start, len, row - start);
      }
    }
  }

  lemma MapRowValidIff(c: Column, start: nat, len: nat, i: nat)
    requires WellFormed(c) && c.MapCol? && start + len <= Rows(c) && i < len
    ensures RowKeysDistinct(LayoutOfMap(c, start, len).offsets, LayoutOfMap(c, start, len).canonical, i)
            <==> KeysOfRowDistinct(c, start + i)
  {
    CanonicalStretch(c, start, len, i);
    hide NoDuplicates, WellFormed, Sliced, CanonicalSlice;
  }

  lemma MapParseBack(c: Column, start: nat, len: nat)
    requires WellFormed(c) && c.MapCol? && start + len <= Rows(c) && len <= U32_MAX && KeysShort(c.canonical)
    ensures var parsed := ParseMap(EncodeMap(LayoutOfMap(c, start, len)));
            if len < U32_MAX then parsed == Ok(LayoutOfMap(c, start, len))
            else parsed.Ok? ==> !ValidMap(parsed.value)
  {
    var l := LayoutOfMap(c, start, len);
    assert |l.offsets| == len + 1;
    if len < U32_MAX {
      forall i | 0 <= i < |l.canonical| ensures |l.canonical[i]| <= U32_MAX {
        KidRange(c, start, len);
        assert l.canonical[i] == c.canonical[KidStart(c, start) + i];
      }
      MapRoundTrip(l);
    } else {
      hide LayoutOfMap, WellFormed;
      MapCountWraps(l);
    }
  }

  lemma MapCountWraps(l: MapLayout)
    requires |l.offsets| == U32_MAX + 1
    ensures ParseMap(EncodeMap(l)).Ok? ==> ParseMap(EncodeMap(l)).value.offsets == []
  {
    hide LeBytes, LeNat, U32s, KeyBytes, ReadKeys, ReadU32;
    assert AsU32(|l.offsets|) == 0;
    U32FieldRoundTrip(0, LeBytes(l.keyRows, 4) + (LeBytes(l.valueRows, 4)
      + ([Flag(l.scalarKeys), Flag(l.allowDuplicates), 0, 0] + (U32s(l.offsets) + KeyBytes(l.canonical)))));
  }

  lemma MapLayoutBack(c: Column, start: nat, len: nat, t: Tree, rows: seq<nat>)
    requires WellFormed(c) && c.MapCol? && start + len <= Rows(c) && WrittenNode(c, start, len, t) && Within(rows, len)
    requires KeysShort(c.canonical)
    ensures var selected := Selected(c, start, len, rows);
            && (len < U32_MAX && |selected| <= U32_MAX && DistinctKeys(c, start, len) ==>
                  && Monotone(Sliced(c, start, len))
                  && MapRows(t, rows) == Ok((selected, NewOffsets(Sliced(c, start, len), rows),
                                             Pick(CanonicalSlice(c, start, len), selected))))
            && (len == U32_MAX || |selected| > U32_MAX || !DistinctKeys(c, start, len) ==> MapRows(t, rows).Err?)
    ensures NullFlags(t, rows) == Ok(Pick(c.nulls[start..start + len], rows))
  {
    NullFlagsBack(t, c.nulls[start..start + len], MainBuffer(c, start, len).value, rows);
    MapParseBack(c, start, len);
    MapValidIff(c, start, len);
    SelectionBack(c, start, len, rows);
    assert MainBuffer(c, start, len) == Ok(Buffer(ChildLayoutBuffer, EncodeMap(LayoutOfMap(c, start, len))));
    hide NullFlags, RequiredBuffer, NullBuffers, KidTreesFrom, WellFormed, ParseMap, EncodeMap, ChildSelection,
         ValidOffsets, Selected, ValidMap, DistinctKeys, MainBuffer, Sliced, CanonicalSlice, NewOffsets;
  }

  lemma MapRowBack(c: Column, start: nat, len: nat, rows: seq<nat>, i: nat)
    requires WellFormed(c) && c.MapCol? && start + len <= Rows(c) && Within(rows, len) && i < |rows|
    ensures Monotone(Sliced(c, start, len)) && WellFormed(c.keys) && WellFormed(c.values)
    ensures var offsets, selected := NewOffsets(Sliced(c, start, len), rows), Selected(c, start, len, rows);
            var from, n := KidStart(c, start), KidLen(c, start, len);
            && from + n <= Rows(c.keys) && from + n <= Rows(c.values)
            && var entries := Entries(Pick(RowValues(c.keys, from, n), selected),
                                      Pick(RowValues(c.values, from, n), selected),
                                      Pick(CanonicalSlice(c, start, len), selected));
               && offsets[i] <= offsets[i + 1] <= |entries|
               && (if c.nulls[start..start + len][rows[i]] then Null else MapOf(entries[offsets[i]..offsets[i + 1]]))
                  == RowValue(c, start + rows[i])
  {
    var row := start + rows[i];
    MapRow(c, row);
    KidRange(c, start, len);
    ItemsBack(c, c.keys, start, len, rows, i);
    ItemsBack(c, c.values, start, len, rows, i);
    CanonicalBack(c, start, len, rows, i);
    var offsets, selected := NewOffsets(Sliced(c, start, len), rows), Selected(c, start, len, rows);
    hide *;
    EntriesStretch(Pick(RowValues(c.keys, KidStart(c, start), KidLen(c, start, len)), selected),
                   Pick(RowValues(c.values, KidStart(c, start), KidLen(c, start, len)), selected),
                   Pick(CanonicalSlice(c, start, len), selected), offsets[i], offsets[i + 1]);
  }

  lemma EntriesStretch(keys: seq<Value>, values: seq<Value>, canonical: seq<seq<byte>>, a: nat, b: nat)
    requires |keys| == |values| == |canonical| && a <= b <= |keys|
    ensures Entries(keys, values, canonical)[a..b] == Entries(keys[a..b], values[a..b], canonical[a..b])
  {
  }

  lemma CanonicalBack(c: Column, start: nat, len: nat, rows: seq<nat>, i: nat)
    requires WellFormed(c) && c.MapCol? && start + len <= Rows(c) && Within(rows, len) && i < |rows|
    ensures Monotone(Sliced(c, start, len))
    ensures var offsets, selected := NewOffsets(Sliced(c, start, len), rows), Selected(c, start, len, rows);
            var row := start + rows[i];
            && offsets[i] <= offsets[i + 1] <= |selected| && c.offsets[row] <= c.offsets[row + 1] <= |c.canonical|
            && Pick(CanonicalSlice(c, start, len), selected)[offsets[i]..offsets[i + 1]]
               == c.canonical[c.offsets[row]..c.offsets[row + 1]]
  {
    SpanBack(c, start, len, rows, i);
    MapRow(c, start + rows[i]);
    KidRange(c, start, len);
    var offsets, selected := NewOffsets(Sliced(c, start, len), rows), Selected(c, start, len, rows);
    var row := start + rows[i];
    assert KidStart(c, start) == c.offsets[start] <= c.offsets[row];
    assert forall j :: 0 <= j < KidLen(c, start, len) ==>
        CanonicalSlice(c, start, len)[j] == c.canonical[c.offsets[start] + j];
    hide Selected, NewOffsets, Sliced, CanonicalSlice, WellFormed;
    CanonicalPicked(CanonicalSlice(c, start, len), c.canonical, c.offsets[start], selected, offsets[i], offsets[i + 1],
                    c.offsets[row]);
  }

  lemma CanonicalPicked(slice: seq<seq<byte>>, all: seq<seq<byte>>, base: nat, selected: seq<nat>, a: nat, b: nat,
                        from: nat)
    requires Within(selected, |slice|) && a <= b <= |selected| && base <= from && from + (b - a) <= |all|
    requires base + |slice| <= |all| && forall j :: 0 <= j < |slice| ==> slice[j] == all[base + j]
    requires forall j :: a <= j < b ==> selected[j] == from - base + (j - a)
    ensures Pick(slice, selected)[a..b] == all[from..from + (b - a)]
  {
    var left, right := Pick(slice, selected)[a..b], all[from..from + (b - a)];
    forall j | 0 <= j < b - a ensures left[j] == right[j] {
      assert selected[a + j] == from - base + j;
    }
  }

  lemma MapsBack(c: Column, start: nat, len: nat, rows: seq<nat>)
    requires WellFormed(c) && c.MapCol? && start + len <= Rows(c) && Within(rows, len)
    ensures Monotone(Sliced(c, start, len)) && WellFormed(c.keys) && WellFormed(c.values)
    ensures var offsets, selected := NewOffsets(Sliced(c, start, len), rows), Selected(c, start, len, rows);
            var from, n := KidStart(c, start), KidLen(c, start, len);
            && from + n <= Rows(c.keys) && from + n <= Rows(c.values)
            && var entries := Entries(Pick(RowValues(c.keys, from, n), selected),
                                      Pick(RowValues(c.values, from, n), selected),
                                      Pick(CanonicalSlice(c, start, len), selected));
               && Spans(offsets, |rows|, |entries|) && offsets[|rows|] == |selected|
               && Flagged(Pick(c.nulls[start..start + len], rows), Maps(|rows|, offsets, entries))
                  == Pick(RowValues(c, start, len), rows)
  {
    KidRange(c, start, len);
    var offsets, selected := NewOffsets(Sliced(c, start, len), rows), Selected(c, start, len, rows);
    var from, n := KidStart(c, start), KidLen(c, start, len);
    var entries := Entries(Pick(RowValues(c.keys, from, n), selected),
                                      Pick(RowValues(c.values, from, n), selected),
                           Pick(CanonicalSlice(c, start, len), selected));
    NewOffsetsSpan(Sliced(c, start, len), rows);
    assert Spans(offsets, |rows|, |entries|);
    var left := Flagged(Pick(c.nulls[start..start + len], rows), Maps(|rows|, offsets, entries));
    hide RowValue, RowValues, Selected, Sliced, NewOffsets, WellFormed, KidStart, KidLen, CanonicalSlice;
    forall i | 0 <= i < |rows| ensures left[i] == RowValue(c, start + rows[i]) {
      MapRowBack(c, start, len, rows, i);
    }
    PickedRows(c, start, len, rows);
    assert left == Pick(RowValues(c, start, len), rows);
  }

  /** A map's keys are never null, so the reader's key check passes. */
  lemma KeysNotNull(c: Column, start: nat, len: nat, rows: seq<nat>)
    requires WellFormed(c) && c.MapCol? && start + len <= Rows(c) && Within(rows, len)
    ensures WellFormed(c.keys) && KidStart(c, start) + KidLen(c, start, len) <= Rows(c.keys)
    ensures Null !in Pick(RowValues(c.keys, KidStart(c, start), KidLen(c, start, len)), Selected(c, start, len, rows))
  {
    KidRange(c, start, len);
    forall row: nat | row < Rows(c.keys) ensures RowValue(c.keys, row) != Null {}
    var selected := Selected(c, start, len, rows);
    PickedRows(c.keys, KidStart(c, start), KidLen(c, start, len), selected);
    hide Selected, KidStart, KidLen, WellFormed, RowValue, RowValues;
    var keys := Pick(RowValues(c.keys, KidStart(c, start), KidLen(c, start, len)), selected);
    forall i | 0 <= i < |keys| ensures keys[i] != Null {
      assert keys[i] == RowValue(c.keys, KidStart(c, start) + selected[i]);
    }
  }

  // ---- structs ----

  lemma StructCheckBack(c: Column, start: nat, len: nat, t: Tree, rows: seq<nat>)
    requires WellFormed(c) && c.StructCol? && start + len <= Rows(c) && WrittenNode(c, start, len, t)
    requires Within(rows, len)
    ensures StructCheck(t).Ok? <==> |c.fields| > 0
    ensures NullFlags(t, rows) == Ok(Pick(c.nulls[start..start + len], rows))
  {
    NullFlagsBack(t, c.nulls[start..start + len], MainBuffer(c, start, len).value, rows);
    var l := StructLayout(seq(|c.fields|, _ => len), true);
    StructRoundTrip(l);
    assert MainBuffer(c, start, len) == Ok(Buffer(ChildLayoutBuffer, EncodeStruct(l)));
    hide NullFlags, RequiredBuffer, NullBuffers, KidTreesFrom, WellFormed, ParseStruct, EncodeStruct, MainBuffer;
  }

  ghost predicate InRange(cols: seq<Column>, start: nat, len: nat) {
    forall k :: 0 <= k < |cols| ==> WellFormed(cols[k]) && start + len <= Rows(cols[k])
  }

  ghost predicate DescribeAll(ss: seq<Schema>, cols: seq<Column>) {
    |ss| == |cols| && forall k :: 0 <= k < |cols| ==> Describes(ss[k], cols[k])
  }

  /** Field by field: all the columns when all are readable, an error otherwise. */
  ghost predicate ColumnsBack(r: Result<seq<seq<Value>>>, cols: seq<Column>, ss: seq<Schema>,
                              start: nat, len: nat, rows: seq<nat>)
    requires InRange(cols, start, len) && Within(rows, len) && DescribeAll(ss, cols)
  {
    if forall k :: 0 <= k < |cols| ==> Readable(cols[k], ss[k], start, len, rows)
    then
      && r.Ok? && |r.value| == |cols|
      && forall k :: 0 <= k < |cols| ==> r.value[k] == Pick(RowValues(cols[k], start, len), rows)
    else r.Err?
  }

  lemma ColumnsBackStep(first: Result<seq<Value>>, more: Result<seq<seq<Value>>>, cols: seq<Column>, ss: seq<Schema>,
                        start: nat, len: nat, rows: seq<nat>)
    requires InRange(cols, start, len) && Within(rows, len) && cols != [] && DescribeAll(ss, cols)
    requires ReadsBack(first, cols[0], ss[0], start, len, rows)
    requires InRange(cols[1..], start, len) && DescribeAll(ss[1..], cols[1..])
    requires ColumnsBack(more, cols[1..], ss[1..], start, len, rows)
    ensures ColumnsBack(if first.Err? then Err(first.error)
                        else if more.Err? then Err(more.error) else Ok([first.value] + more.value),
                        cols, ss, start, len, rows)
  {
    hide Readable, RowValues, WellFormed, Describes;
    forall k | 0 < k < |cols| ensures cols[k] == cols[1..][k - 1] && ss[k] == ss[1..][k - 1] {}
    if forall k :: 0 <= k < |cols| ==> Readable(cols[k], ss[k], start, len, rows) {
      assert forall k :: 0 <= k < |cols[1..]| ==> Readable(cols[1..][k], ss[1..][k], start, len, rows);
    }
  }

  lemma {:induction false} FieldsBack(ts: seq<Tree>, cols: seq<Column>, ss: seq<Schema>, start: nat, len: nat,
                                      rows: seq<nat>)
    requires |ts| == |cols| && Within(rows, len) && InRange(cols, start, len) && DescribeAll(ss, cols)
    requires forall k :: 0 <= k < |cols| ==> ReadsBack(DecodeTree(ts[k], ss[k], rows), cols[k], ss[k], start, len, rows)
    ensures ColumnsBack(DecodeFields(ts, ss, rows), cols, ss, start, len, rows)
    decreases |ts|
  {
    if ts != [] {
      var first, more := DecodeTree(ts[0], ss[0], rows), DecodeFields(ts[1..], ss[1..], rows);
      assert DecodeFields(ts, ss, rows)
             == if first.Err? then Err(first.error)
                else if more.Err? then Err(more.error) else Ok([first.value] + more.value);
      hide DecodeTree, DecodeFields, ReadsBack, ColumnsBack, WellFormed, Describes;
      FieldsBack(ts[1..], cols[1..], ss[1..], start, len, rows);
      ColumnsBackStep(first, more, cols, ss, start, len, rows);
    }
  }

  lemma StructsBack(c: Column, start: nat, len: nat, rows: seq<nat>, columns: seq<seq<Value>>)
    requires WellFormed(c) && c.StructCol? && start + len <= Rows(c) && Within(rows, len) && |columns| == |c.fields|
    requires forall k :: 0 <= k < |columns| ==>
      && WellFormed(c.fields[k]) && start + len <= Rows(c.fields[k])
      && columns[k] == Pick(RowValues(c.fields[k], start, len), rows)
    ensures forall k :: 0 <= k < |columns| ==> |columns[k]| == |rows|
    ensures Flagged(Pick(c.nulls[start..start + len], rows), Structs(|rows|, columns))
            == Pick(RowValues(c, start, len), rows)
  {
    var left := Flagged(Pick(c.nulls[start..start + len], rows), Structs(|rows|, columns));
    forall i | 0 <= i < |rows| ensures left[i] == RowValue(c, start + rows[i]) {
      forall k | 0 <= k < |columns| ensures columns[k][i] == RowValue(c.fields[k], start + rows[i]) {
        PickedRows(c.fields[k], start, len, rows);
      }
    }
    PickedRows(c, start, len, rows);
  }

  // ---- the round trip ----

  /** The schemas one level down, in the order of the kids. */
  function SubSchemas(s: Schema): seq<Schema> {
    match s
    case ScalarSchema(_) => []
    case ListSchema(_, item) => [item]
    case StructSchema(fields) => fields
    case MapSchema(key, value) => [key, value]
  }

  /** Reading a list of rows from the tree written for a row range gives exactly
      those rows of the column, and fails exactly when they are not readable. */
  lemma {:induction false} WrittenTreeReadsBack(c: Column, s: Schema, start: nat, len: nat, t: Tree, rows: seq<nat>)
    requires WellFormed(c) && FixedWidths(c) && ShortKeys(c) && start + len <= Rows(c) && Within(rows, len)
    requires WrittenNode(c, start, len, t) && Describes(s, c)
    requires c.ScalarCol? ==> Ok(t.node.encoding) == MaterializedEncoding(PhysicalOf(c))
    ensures ReadsBack(DecodeTree(t, s, rows), c, s, start, len, rows)
    decreases c
  {
    hide Readable, ReadsBack, KidTree, MainBuffer, NullBuffers, DecodeTree, RowValues, Pick;
    match c
    case ScalarCol(_, _) => ScalarBack(c, s, start, len, t, rows);
    case ListCol(_, _, _, child) =>
      KidReadsBack(c, s, start, len, t, 0, Selected(c, start, len, rows));
      WrittenTreeReadsBackList(c, s, start, len, t, rows);
    case StructCol(_, fields) =>
      forall k | 0 <= k < |fields|
        ensures ReadsBack(DecodeTree(t.children[k], s.fields[k], rows), fields[k], s.fields[k], start, len, rows)
      {
        KidReadsBack(c, s, start, len, t, k, rows);
      }
      WrittenTreeReadsBackStruct(c, s, start, len, t, rows);
    case MapCol(_, _, _, _, _) =>
      KidReadsBack(c, s, start, len, t, 0, Selected(c, start, len, rows));
      KidReadsBack(c, s, start, len, t, 1, Selected(c, start, len, rows));
      WrittenTreeReadsBackMap(c, s, start, len, t, rows);
  }

  lemma {:induction false} KidReadsBack(c: Column, s: Schema, start: nat, len: nat, t: Tree, k: nat, rows: seq<nat>)
    requires WellFormed(c) && FixedWidths(c) && ShortKeys(c) && start + len <= Rows(c) && WrittenNode(c, start, len, t)
    requires Describes(s, c) && k < |Kids(c)| && Within(rows, KidLen(c, start, len))
    ensures k < |t.children| && k < |SubSchemas(s)| && Describes(SubSchemas(s)[k], Kids(c)[k])
    ensures ReadsBack(DecodeTree(t.children[k], SubSchemas(s)[k], rows), Kids(c)[k], SubSchemas(s)[k],
                      KidStart(c, start), KidLen(c, start, len), rows)
    decreases c, 0
  {
    var kid, from, n := Kids(c)[k], KidStart(c, start), KidLen(c, start, len);
    assert KidTree(c, 0 + k, start, len, t.children[k]);
    var encoding, id: nat :| MaterializedEncoding(PhysicalOf(kid)) == Ok(encoding)
                             && TreeOf(kid, from, n, encoding, id) == Ok(t.children[k]);
    assert FixedWidths(kid) && ShortKeys(kid);
    TreeWritten(kid, from, n, encoding, id);
    WrittenTreeReadsBack(kid, SubSchemas(s)[k], from, n, t.children[k], rows);
  }

  lemma WrittenTreeReadsBackList(c: Column, s: Schema, start: nat, len: nat, t: Tree, rows: seq<nat>)
    requires WellFormed(c) && c.ListCol? && Describes(s, c) && FixedWidths(c) && start + len <= Rows(c)
    requires Within(rows, len)
    requires WrittenNode(c, start, len, t) && |t.children| == 1
    requires WellFormed(c.child) && KidStart(c, start) + KidLen(c, start, len) <= Rows(c.child)
    requires ReadsBack(DecodeTree(t.children[0], s.item, Selected(c, start, len, rows)), c.child, s.item,
                       KidStart(c, start), KidLen(c, start, len), Selected(c, start, len, rows))
    ensures ReadsBack(DecodeTree(t, s, rows), c, s, start, len, rows)
  {
    ListLayoutBack(c, start, len, t, rows);
    ListArrayBack(c, start, len, rows);
    DecodeListNode(t, c.kind, s.item, rows);
    assert s == ListSchema(c.kind, s.item);
    ListReadable(c, s, start, len, rows);
    hide WithFlags, ListArray, NullFlags, ListRows, Selected, NewOffsets, Sliced, KidStart, KidLen, WellFormed,
         Describes, RowValues, FixedWidths, KidTreesFrom, NullBuffers, MainBuffer, DecodeTree, Readable, Monotone,
         Width, Spans;
  }

  /** The list case of the reader. */
  lemma DecodeListNode(t: Tree, kind: ListKind, item: Schema, rows: seq<nat>)
    requires t.node.physical == ListPhysical && |t.children| == 1 && Within(rows, t.node.logicalLen)
    ensures var m, r := ListRows(t, rows), DecodeTree(t, ListSchema(kind, item), rows);
            if m.Err? then r.Err?
            else
              var items := DecodeTree(t.children[0], item, m.value.0);
              if items.Err? then r.Err?
              else r == WithFlags(NullFlags(t, rows), ListArray(kind, |rows|, m.value.1, items.value))
  {
    hide ListRows, NullFlags, ListArray, WithFlags;
  }

  lemma ListReadable(c: Column, s: Schema, start: nat, len: nat, rows: seq<nat>)
    requires WellFormed(c) && c.ListCol? && Describes(s, c) && start + len <= Rows(c) && Within(rows, len)
    requires WellFormed(c.child) && KidStart(c, start) + KidLen(c, start, len) <= Rows(c.child)
    ensures var selected := Selected(c, start, len, rows);
            Readable(c, s, start, len, rows) <==>
              && len < U32_MAX && |selected| <= (if Width(c.kind) == 0 then I32_MAX else U32_MAX)
              && Width(c.kind) <= I32_MAX
              && Readable(c.child, s.item, KidStart(c, start), KidLen(c, start, len), selected)
  {
    hide WellFormed, Selected, KidStart, KidLen;
  }

  lemma WrittenTreeReadsBackStruct(c: Column, s: Schema, start: nat, len: nat, t: Tree, rows: seq<nat>)
    requires WellFormed(c) && c.StructCol? && Describes(s, c) && start + len <= Rows(c) && Within(rows, len)
    requires WrittenNode(c, start, len, t) && |t.children| == |c.fields|
    requires forall k :: 0 <= k < |c.fields| ==>
      && WellFormed(c.fields[k]) && start + len <= Rows(c.fields[k])
      && ReadsBack(DecodeTree(t.children[k], s.fields[k], rows), c.fields[k], s.fields[k], start, len, rows)
    ensures ReadsBack(DecodeTree(t, s, rows), c, s, start, len, rows)
  {
    StructCheckBack(c, start, len, t, rows);
    FieldsBack(t.children, c.fields, s.fields, start, len, rows);
    var columns := DecodeFields(t.children, s.fields, rows);
    assert s == StructSchema(s.fields);
    if columns.Ok? && |c.fields| > 0 { StructsBack(c, start, len, rows, columns.value); }
    hide NullFlags, StructCheck, KidStart, KidLen, WellFormed, DecodeFields, Describes, Structs, Flagged,
         RowValues, KidTreesFrom, NullBuffers, MainBuffer;
  }

  lemma WrittenTreeReadsBackMap(c: Column, s: Schema, start: nat, len: nat, t: Tree, rows: seq<nat>)
    requires WellFormed(c) && c.MapCol? && Describes(s, c) && ShortKeys(c) && start + len <= Rows(c)
    requires Within(rows, len)
    requires WrittenNode(c, start, len, t) && |t.children| == 2
    requires WellFormed(c.keys) && KidStart(c, start) + KidLen(c, start, len) <= Rows(c.keys)
    requires WellFormed(c.values) && KidStart(c, start) + KidLen(c, start, len) <= Rows(c.values)
    requires ReadsBack(DecodeTree(t.children[0], s.key, Selected(c, start, len, rows)), c.keys, s.key,
                       KidStart(c, start), KidLen(c, start, len), Selected(c, start, len, rows))
    requires ReadsBack(DecodeTree(t.children[1], s.value, Selected(c, start, len, rows)), c.values, s.value,
                       KidStart(c, start), KidLen(c, start, len), Selected(c, start, len, rows))
    ensures ReadsBack(DecodeTree(t, s, rows), c, s, start, len, rows)
  {
    MapLayoutBack(c, start, len, t, rows);
    MapsBack(c, start, len, rows);
    KeysNotNull(c, start, len, rows);
    DecodeMapNode(t, s.key, s.value, rows);
    assert s == MapSchema(s.key, s.value);
    assert t.node.physical == MapPhysical && t.node.logicalLen == len;
    MapReadable(c, s, start, len, rows);
    hide *;
    var selected := Selected(c, start, len, rows);
    if len < U32_MAX && |selected| <= U32_MAX && DistinctKeys(c, start, len) {
      MapNodeBack(c, s, start, len, t, rows);
    } else {
      ReadsBackFails(c, s, start, len, rows, DecodeTree(t, s, rows));
    }
  }

  lemma ReadsBackFails(c: Column, s: Schema, start: nat, len: nat, rows: seq<nat>, r: Result<seq<Value>>)
    requires WellFormed(c) && Describes(s, c) && start + len <= Rows(c) && Within(rows, len)
    requires !Readable(c, s, start, len, rows) && r.Err?
    ensures ReadsBack(r, c, s, start, len, rows)
  {
  }

  /** The map case of the reader. */
  lemma DecodeMapNode(t: Tree, key: Schema, value: Schema, rows: seq<nat>)
    requires t.node.physical == MapPhysical && |t.children| == 2 && Within(rows, t.node.logicalLen)
    ensures var m, r := MapRows(t, rows), DecodeTree(t, MapSchema(key, value), rows);
            if m.Err? then r.Err?
            else
              var keys, values := DecodeTree(t.children[0], key, m.value.0),
                DecodeTree(t.children[1], value, m.value.0);
              if keys.Err? || Null in keys.value || values.Err? then r.Err?
              else r == WithFlags(NullFlags(t, rows),
                                  MapArray(|rows|, m.value.1, Entries(keys.value, values.value, m.value.2)))
  {
    hide MapRows, NullFlags, MapArray, Entries, WithFlags;
  }

  lemma MapReadable(c: Column, s: Schema, start: nat, len: nat, rows: seq<nat>)
    requires WellFormed(c) && c.MapCol? && Describes(s, c) && start + len <= Rows(c) && Within(rows, len)
    requires WellFormed(c.keys) && KidStart(c, start) + KidLen(c, start, len) <= Rows(c.keys)
    requires WellFormed(c.values) && KidStart(c, start) + KidLen(c, start, len) <= Rows(c.values)
    ensures var selected := Selected(c, start, len, rows);
            Readable(c, s, start, len, rows) <==>
              && len < U32_MAX && |selected| <= I32_MAX && DistinctKeys(c, start, len)
              && Readable(c.keys, s.key, KidStart(c, start), KidLen(c, start, len), selected)
              && Readable(c.values, s.value, KidStart(c, start), KidLen(c, start, len), selected)
  {
    hide WellFormed, Selected, DistinctKeys, KidStart, KidLen;
  }

  lemma MapNodeBack(c: Column, s: Schema, start: nat, len: nat, t: Tree, rows: seq<nat>)
    requires WellFormed(c) && c.MapCol? && Describes(s, c) && start + len <= Rows(c) && Within(rows, len)
    requires |t.children| == 2 && t.node.physical == MapPhysical && t.node.logicalLen == len
    requires WellFormed(c.keys) && KidStart(c, start) + KidLen(c, start, len) <= Rows(c.keys)
    requires WellFormed(c.values) && KidStart(c, start) + KidLen(c, start, len) <= Rows(c.values)
    requires ReadsBack(DecodeTree(t.children[0], s.key, Selected(c, start, len, rows)), c.keys, s.key,
                       KidStart(c, start), KidLen(c, start, len), Selected(c, start, len, rows))
    requires ReadsBack(DecodeTree(t.children[1], s.value, Selected(c, start, len, rows)), c.values, s.value,
                       KidStart(c, start), KidLen(c, start, len), Selected(c, start, len, rows))
    requires Monotone(Sliced(c, start, len)) && len < U32_MAX && DistinctKeys(c, start, len)
    requires MapRows(t, rows) == Ok((Selected(c, start, len, rows), NewOffsets(Sliced(c, start, len), rows),
                                     Pick(CanonicalSlice(c, start, len), Selected(c, start, len, rows))))
    requires NullFlags(t, rows) == Ok(Pick(c.nulls[start..start + len], rows))
    ensures ReadsBack(DecodeTree(t, s, rows), c, s, start, len, rows)
  {
    var selected := Selected(c, start, len, rows);
    MapsBack(c, start, len, rows);
    KeysNotNull(c, start, len, rows);
    MapReadable(c, s, start, len, rows);
    DecodeMapNode(t, s.key, s.value, rows);
    assert s == MapSchema(s.key, s.value);
    hide DecodeTree, Describes, NullFlags, MapRows, Selected, NewOffsets, Sliced, KidStart, KidLen, WellFormed, Maps,
         Flagged, Entries, RowValues, CanonicalSlice, DistinctKeys, Readable, Spans, Monotone;
  }

  /** The whole page: written, split off the flat lists again by counts alone, and
      read in full, it gives back every row of the range in order. */
  lemma PageReadsBack(c: Column, s: Schema, start: nat, len: nat, encoding: Encoding, nodes: seq<Node>,
                      buffers: seq<Buffer>)
    requires WellFormed(c) && Describes(s, c) && FixedWidths(c) && ShortKeys(c) && start + len <= Rows(c)
    requires c.ScalarCol? ==> Ok(encoding) == MaterializedEncoding(PhysicalOf(c))
    requires PageOf(c, start, len, encoding).Ok?
    requires nodes == Preorder(PageOf(c, start, len, encoding).value)
    requires buffers == BufferOrder(PageOf(c, start, len, encoding).value)
    ensures PayloadTree(nodes, buffers, 0).Ok?
    ensures var read := DecodeTree(PayloadTree(nodes, buffers, 0).value, s, Identity(len));
            if Readable(c, s, start, len, Identity(len)) then read == Ok(RowValues(c, start, len)) else read.Err?
  {
    var t := PageOf(c, start, len, encoding).value;
    PayloadTreeExact(nodes, buffers, 0, t);
    TreeWritten(c, start, len, encoding, 0);
    WrittenTreeReadsBack(c, s, start, len, t, Identity(len));
    assert Pick(RowValues(c, start, len), Identity(len)) == RowValues(c, start, len);
  }

  // ---- pages that are written but cannot be read ----

  /** A one-row map holding the same key twice is written, and refused by the reader,
      whatever its leaves are exported as. */
  lemma RepeatedKeyIsUnreadable(s: Schema)
    requires var items := ScalarCol([false, false], NumCodes([7, 7]));
             Describes(s, MapCol([false], [0, 2], items, items, [[55], [55]]))
    ensures var items := ScalarCol([false, false], NumCodes([7, 7]));
            var c := MapCol([false], [0, 2], items, items, [[55], [55]]);
            && WellFormed(c) && Rows(c) == 1 && PageOf(c, 0, 1, OtherEncoding(0)).Ok?
            && DecodeTree(PageOf(c, 0, 1, OtherEncoding(0)).value, s, Identity(1)).Err?
  {
    var items := ScalarCol([false, false], NumCodes([7, 7]));
    var c := MapCol([false], [0, 2], items, items, [[55], [55]]);
    assert WellFormed(items) && WellFormed(c) && FixedWidths(c) && ShortKeys(c);
    assert Kids(c)[0] == items && Kids(c)[1] == items && Emittable(c, 0, 1, 0);
    var keys := c.canonical[c.offsets[0]..c.offsets[1]];
    assert keys[0] == keys[1] && !KeysOfRowDistinct(c, 0) && !DistinctKeys(c, 0, 1);
    hide WellFormed, DistinctKeys, Describes;
    PageRefused(c, s);
  }

  /** A row of a struct without fields is written, and refused by the reader. */
  lemma EmptyStructIsUnreadable()
    ensures var c := StructCol([false], []);
            && WellFormed(c) && Rows(c) == 1 && PageOf(c, 0, 1, OtherEncoding(0)).Ok?
            && DecodeTree(PageOf(c, 0, 1, OtherEncoding(0)).value, StructSchema([]), Identity(1)).Err?
  {
    var c := StructCol([false], []);
    assert WellFormed(c) && FixedWidths(c) && ShortKeys(c);
    PageRefused(c, StructSchema([]));
  }

  /** A one-row list of Int64 holding -1 is written, and refused by the reader. */
  lemma NegativeItemIsUnreadable()
    ensures var c := ListCol([false], SmallList, [0, 1], ScalarCol([false], NumCodes([NumberCodes.FromI64(-1)])));
            && WellFormed(c) && Rows(c) == 1 && PageOf(c, 0, 1, OtherEncoding(0)).Ok?
            && DecodeTree(PageOf(c, 0, 1, OtherEncoding(0)).value,
                          ListSchema(SmallList, ScalarSchema(LeafExport.Int64Leaf)), Identity(1)).Err?
  {
    hide *;
    var c, s := NegativeItem(), ListSchema(SmallList, ScalarSchema(LeafExport.Int64Leaf));
    NegativeItemOk(c, s);
    OneItemSelected(c);
    OneItemRefused(c, s);
    PageRefused(c, s);
    NegativeItemIs();
  }

  function NegativeItem(): Column {
    ListCol([false], SmallList, [0, 1], ScalarCol([false], NumCodes([NumberCodes.FromI64(-1)])))
  }

  lemma NegativeItemIs()
    ensures NegativeItem()
            == ListCol([false], SmallList, [0, 1], ScalarCol([false], NumCodes([NumberCodes.FromI64(-1)])))
  {
  }

  lemma NegativeItemOk(c: Column, s: Schema)
    requires c == NegativeItem() && s == ListSchema(SmallList, ScalarSchema(LeafExport.Int64Leaf))
    ensures WellFormed(c) && Rows(c) == 1 && c.ListCol? && c.offsets == [0, 1] && |Kids(c)| <= 2
    ensures FixedWidths(c) && ShortKeys(c) && Describes(s, c) && Emittable(c, 0, 1, 0)
    ensures c.child == ScalarCol([false], NumCodes([NumberCodes.FromI64(-1)]))
  {
    assert WellFormed(c.child) && Kids(c)[0] == c.child;
  }

  lemma OneItemRefused(c: Column, s: Schema)
    requires WellFormed(c) && c.ListCol? && Rows(c) == 1 && Describes(s, c)
    requires s.item == ScalarSchema(LeafExport.Int64Leaf) && Within(Identity(1), 1)
    requires c.child == ScalarCol([false], NumCodes([NumberCodes.FromI64(-1)]))
    requires KidStart(c, 0) == 0 && KidLen(c, 0, 1) == 1 && Selected(c, 0, 1, Identity(1)) == [0]
    ensures !Readable(c, s, 0, 1, Identity(1))
  {
    ListReadable(c, s, 0, 1, Identity(1));
    hide WellFormed, KidStart, KidLen, Selected, Width;
    assert c.child.vals.nums[0 + [0][0]] > I64_MAX;
  }

  lemma OneItemSelected(c: Column)
    requires WellFormed(c) && c.ListCol? && c.offsets == [0, 1] && Rows(c) == 1
    ensures Within(Identity(1), 1) && Selected(c, 0, 1, Identity(1)) == [0]
    ensures KidStart(c, 0) == 0 && KidLen(c, 0, 1) == 1
  {
    WithinOne();
    SlicedOk(c, 0, 1);
    var sliced := Sliced(c, 0, 1);
    assert sliced == [0, 1];
    ChildRowsOfOne(sliced, 0);
    assert Identity(1) == [0];
  }

  lemma PageRefused(c: Column, s: Schema)
    requires WellFormed(c) && FixedWidths(c) && ShortKeys(c) && !c.ScalarCol? && Rows(c) == 1 && Describes(s, c)
    requires |Kids(c)| <= 2 && Emittable(c, 0, 1, 0) && !Readable(c, s, 0, 1, Identity(1))
    ensures PageOf(c, 0, 1, OtherEncoding(0)).Ok?
    ensures DecodeTree(PageOf(c, 0, 1, OtherEncoding(0)).value, s, Identity(1)).Err?
  {
    hide *;
    var e := OtherEncoding(0);
    EmitsIff(c, 0, 1, e, 0);
    var t := TreeOf(c, 0, 1, e, 0).value;
    SmallPage(c, t);
    TreeWritten(c, 0, 1, e, 0);
    PageIs(c, e, t);
    WithinOne();
    WrittenTreeReadsBack(c, s, 0, 1, t, Identity(1));
    RefusedIs(c, s, DecodeTree(t, s, Identity(1)));
  }

  lemma WithinOne()
    ensures Within(Identity(1), 1)
  {
  }

  lemma RefusedIs(c: Column, s: Schema, r: Result<seq<Value>>)
    requires WellFormed(c) && Describes(s, c) && Rows(c) == 1 && Within(Identity(1), 1)
    requires ReadsBack(r, c, s, 0, 1, Identity(1)) && !Readable(c, s, 0, 1, Identity(1))
    ensures r.Err?
  {
  }

  lemma PageIs(c: Column, e: Encoding, t: Tree)
    requires WellFormed(c) && Rows(c) == 1 && TreeOf(c, 0, 1, e, 0) == Ok(t)
    requires |Preorder(t)| <= 3 && |BufferOrder(t)| <= 6
    ensures PageOf(c, 0, 1, e) == Ok(t)
  {
  }

  /** Few kids, all scalars: the flat lists stay short. */
  lemma SmallPage(c: Column, t: Tree)
    requires WellFormed(c) && Rows(c) == 1 && |Kids(c)| <= 2 && Emittable(c, 0, 1, 0)
    requires TreeOf(c, 0, 1, OtherEncoding(0), 0) == Ok(t)
    ensures |Preorder(t)| <= 3 && |BufferOrder(t)| <= 6
  {
    TreeWritten(c, 0, 1, OtherEncoding(0), 0);
    forall k | 0 <= k < |t.children| ensures t.children[k].children == [] && |t.children[k].buffers| <= 2 {
      assert KidTree(c, k, 0, 1, t.children[k]) && KidEmittable(c, k, 0, 1);
      LeafKid(c, k, t.children[k]);
    }
    assert |t.buffers| <= 2;
    hide TreeOf, WellFormed, WrittenNode, Kids, KidTree, PreorderAll, BufferOrderAll;
    Leaves(t.children);
  }

  lemma {:induction false} Leaves(ts: seq<Tree>)
    requires forall k :: 0 <= k < |ts| ==> ts[k].children == [] && |ts[k].buffers| <= 2
    ensures |PreorderAll(ts)| == |ts| && |BufferOrderAll(ts)| <= 2 * |ts|
    decreases |ts|
  {
    if ts != [] {
      Leaves(ts[1..]);
      Leaf(ts[0]);
      assert PreorderAll(ts) == Preorder(ts[0]) + PreorderAll(ts[1..]);
      assert BufferOrderAll(ts) == BufferOrder(ts[0]) + BufferOrderAll(ts[1..]);
    }
  }

  lemma Leaf(t: Tree)
    requires t.children == []
    ensures Preorder(t) == [t.node] && BufferOrder(t) == t.buffers
  {
    assert PreorderAll(t.children) == [] && BufferOrderAll(t.children) == [];
  }

  lemma LeafKid(c: Column, k: nat, t: Tree)
    requires WellFormed(c) && Rows(c) == 1 && k < |Kids(c)| && KidTree(c, k, 0, 1, t) && Kids(c)[k].ScalarCol?
    ensures t.children == [] && |t.buffers| <= 2
  {
    var e, id: nat :| MaterializedEncoding(PhysicalOf(Kids(c)[k])) == Ok(e)
      && TreeOf(Kids(c)[k], KidStart(c, 0), KidLen(c, 0, 1), e, id) == Ok(t);
    var kid := Kids(c)[k];
    hide TreeOf;
    TreeWritten(kid, KidStart(c, 0), KidLen(c, 0, 1), e, id);
  }
}
