/** Morsel pages of a column: how a segment's rows become page specs, and how a
    reader splits a page into null bitmap and values again. */
module Pages {
  import opened Machine
  import opened Bits
  import opened LittleEndian
  import opened Validity
  import opened Scalars
  import opened Nested
  import opened RowOrder
  import opened PageTree
  import opened PageEmit
  import opened Segments
  import opened Aggregates

  datatype PagePayload = FlatPayload(bytes: seq<byte>) | NestedPayload(nodes: seq<Node>, buffers: seq<Buffer>)

  datatype PageFlag = AllNonNull | AllNull | Mixed

  datatype PageSpec = PageSpec(rowCount: nat, payload: PagePayload, nonNullCount: nat, nullCount: nat, flag: PageFlag)

  function NullSlice(c: ConvertedColumn, t: Tile): (r: seq<bool>)
    requires t.start + t.len <= RowsOf(c)
    ensures |r| == t.len
  {
    c.data.nulls[t.start..t.start + t.len]
  }

  /** `null_count_range` */
  function NullCount(nulls: seq<bool>): (n: nat)
    ensures n <= |nulls|
    ensures n == 0 <==> !AnyNull(nulls)
  {
    if nulls == [] then 0
    else
      var front := nulls[..|nulls| - 1];
      assert forall i :: 0 <= i < |front| ==> front[i] == nulls[i];
      NullCount(front) + if nulls[|nulls| - 1] then 1 else 0
  }

  function FlagOf(nullCount: nat, rows: nat): PageFlag {
    if nullCount == 0 then AllNonNull else if nullCount == rows then AllNull else Mixed
  }

  /** Nested columns write a tree; flat ones their values, behind a null bitmap when
      some row is null. */
  function PayloadOf(c: ConvertedColumn, t: Tile, encoding: Encoding): Result<PagePayload>
    requires ColumnOk(c) && t.start + t.len <= RowsOf(c)
  {
    if c.nested then
      match PageOf(c.data, t.start, t.len, encoding)
      case Err(e) => Err(e)
      case Ok(tree) => Ok(NestedPayload(Preorder(tree), BufferOrder(tree)))
    else
      match Encoded(c.data.vals, t.start, t.len)
      case Err(e) => Err(e)
      case Ok(bytes) =>
        Ok(FlatPayload(if AnyNull(NullSlice(c, t)) then PackBits(NullSlice(c, t)) + bytes else bytes))
  }

  function SpecOf(c: ConvertedColumn, t: Tile, encoding: Encoding): Result<PageSpec>
    requires ColumnOk(c) && t.start + t.len <= RowsOf(c)
  {
    var nullCount := NullCount(NullSlice(c, t));
    match PayloadOf(c, t, encoding)
    case Err(e) => Err(e)
    case Ok(payload) => Ok(PageSpec(t.len, payload, t.len - nullCount, nullCount, FlagOf(nullCount, t.len)))
  }

  ghost predicate TilesIn(tiles: seq<Tile>, n: nat) {
    forall i :: 0 <= i < |tiles| ==> tiles[i].start + tiles[i].len <= n
  }

  /** One page per tile, or the first tile's error. */
  function SpecsOf(c: ConvertedColumn, tiles: seq<Tile>, encoding: Encoding): (r: Result<seq<PageSpec>>)
    requires ColumnOk(c) && TilesIn(tiles, RowsOf(c))
    ensures r.Ok? ==> |r.value| == |tiles|
    decreases |tiles|
  {
    if tiles == [] then Ok([])
    else
      var front, last := tiles[..|tiles| - 1], tiles[|tiles| - 1];
      match SpecsOf(c, front, encoding)
      case Err(e) => Err(e)
      case Ok(specs) =>
        match SpecOf(c, last, encoding)
        case Err(e) => Err(e)
        case Ok(spec) => Ok(specs + [spec])
  }

  /** The i-th page is the i-th tile's. */
  lemma {:induction false} SpecsAt(c: ConvertedColumn, tiles: seq<Tile>, encoding: Encoding, i: nat)
    requires ColumnOk(c) && TilesIn(tiles, RowsOf(c)) && SpecsOf(c, tiles, encoding).Ok? && i < |tiles|
    ensures SpecOf(c, tiles[i], encoding) == Ok(SpecsOf(c, tiles, encoding).value[i])
    decreases |tiles|
  {
    hide SpecOf, ColumnOk;
    if i < |tiles| - 1 { SpecsAt(c, tiles[..|tiles| - 1], encoding, i); }
  }

  /** The pages of rows `start` to `end`: what `page_specs_range` must return. */
  function PagesOf(c: ConvertedColumn, encoding: Encoding, start: nat, count: nat, morsel: nat): Result<seq<PageSpec>>
    requires ColumnOk(c)
  {
    if morsel == 0 || start + count > RowsOf(c) then Err(BadSchema)
    else
      MorselsInRange(start, start + count, morsel, RowsOf(c));
      SpecsOf(c, Tiles(start, start + count, morsel), encoding)
  }

  lemma MorselsInRange(start: nat, end: nat, morsel: nat, n: nat)
    requires start <= end <= n && morsel > 0
    ensures TilesIn(Tiles(start, end, morsel), n)
  {
    forall i | 0 <= i < |Tiles(start, end, morsel)|
      ensures Tiles(start, end, morsel)[i].start + Tiles(start, end, morsel)[i].len <= n
    {
      TileAt(start, end, morsel, i);
    }
  }

  method PayloadFor(c: ConvertedColumn, t: Tile, encoding: Encoding) returns (r: Result<PagePayload>)
    requires ColumnOk(c) && t.start + t.len <= RowsOf(c)
    ensures r == PayloadOf(c, t, encoding)
  {
    if c.nested {
      var page := EncodePage(c.data, t.start, t.len, encoding);
      if page.Err? { return Err(page.error); }
      PayloadTreeExact(page.value.0, page.value.1, 0, PageOf(c.data, t.start, t.len, encoding).value);
      return Ok(NestedPayload(page.value.0, page.value.1));
    }
    var bytes :- EncodeRows(c.data.vals, t.start, t.len);
    if NullCount(NullSlice(c, t)) == 0 { return Ok(FlatPayload(bytes)); }
    return Ok(FlatPayload(PackBits(NullSlice(c, t)) + bytes));
  }

  /** `page_specs_range` */
  method PageSpecsRange(c: ConvertedColumn, encoding: Encoding, start: nat, count: nat, morsel: nat)
    returns (r: Result<seq<PageSpec>>)
    requires ColumnOk(c)
    ensures r == PagesOf(c, encoding, start, count, morsel)
  {
    if morsel == 0 { return Err(BadSchema); }
    var end := start + count;
    if end > RowsOf(c) { return Err(BadSchema); }
    MorselsInRange(start, end, morsel, RowsOf(c));
    r := SpecsLoop(c, encoding, start, end, morsel);
  }

  method SpecsLoop(c: ConvertedColumn, encoding: Encoding, from: nat, end: nat, morsel: nat)
    returns (r: Result<seq<PageSpec>>)
    requires ColumnOk(c) && morsel > 0 && from <= end <= RowsOf(c)
    requires TilesIn(Tiles(from, end, morsel), RowsOf(c))
    ensures r == SpecsOf(c, Tiles(from, end, morsel), encoding)
  {
    hide *;
    var pages: seq<PageSpec> := [];
    var start := from;
    ghost var done: seq<Tile> := [];
    PagingStarts(c, encoding, from, end, morsel);
    while start < end
      invariant Paging(c, encoding, from, end, morsel, start, done, pages)
    {
      PagingStep(c, encoding, from, end, morsel, start, done, pages);
      var len := Min(end - start, morsel);
      var payload := PayloadFor(c, Tile(start, len), encoding);
      if payload.Err? { return Err(payload.error); }
      var nullCount := NullCount(NullSlice(c, Tile(start, len)));
      pages := pages + [PageSpec(len, payload.value, len - nullCount, nullCount, FlagOf(nullCount, len))];
      done := done + [Tile(start, len)];
      start := start + len;
    }
    PagingEnds(c, encoding, from, end, morsel, start, done, pages);
    return Ok(pages);
  }

  /** Tiles before `start` have their pages. */
  ghost predicate Paging(c: ConvertedColumn, encoding: Encoding, from: nat, end: nat, morsel: nat,
                         start: nat, done: seq<Tile>, pages: seq<PageSpec>)
    requires ColumnOk(c) && morsel > 0
  {
    && from <= start <= end <= RowsOf(c) && TilesDone(from, end, morsel, start, done)
    && TilesIn(done, RowsOf(c)) && SpecsOf(c, done, encoding) == Ok(pages)
  }

  lemma PagingStarts(c: ConvertedColumn, encoding: Encoding, from: nat, end: nat, morsel: nat)
    requires ColumnOk(c) && morsel > 0 && from <= end <= RowsOf(c)
    ensures Paging(c, encoding, from, end, morsel, from, [], [])
  {
    TilesBegin(from, end, morsel);
  }

  lemma {:induction false} SpecsFail(c: ConvertedColumn, tiles: seq<Tile>, encoding: Encoding, k: nat)
    requires ColumnOk(c) && TilesIn(tiles, RowsOf(c)) && k < |tiles|
    requires TilesIn(tiles[..k], RowsOf(c)) && SpecsOf(c, tiles[..k], encoding).Ok?
    requires SpecOf(c, tiles[k], encoding).Err?
    ensures SpecsOf(c, tiles, encoding) == Err(SpecOf(c, tiles[k], encoding).error)
    decreases |tiles|
  {
    hide SpecOf, ColumnOk;
    var front := tiles[..|tiles| - 1];
    if k < |front| {
      assert front[..k] == tiles[..k];
      SpecsFail(c, front, encoding, k);
    }
  }

  lemma PagingStep(c: ConvertedColumn, encoding: Encoding, from: nat, end: nat, morsel: nat,
                   start: nat, done: seq<Tile>, pages: seq<PageSpec>)
    requires ColumnOk(c) && morsel > 0 && Paging(c, encoding, from, end, morsel, start, done, pages) && start < end
    requires TilesIn(Tiles(from, end, morsel), RowsOf(c))
    ensures var len := Min(end - start, morsel);
            var t := Tile(start, len);
            && 0 < len && t.start + t.len <= RowsOf(c) && |NullSlice(c, t)| == len
            && var payload := PayloadOf(c, t, encoding);
               if payload.Err? then SpecsOf(c, Tiles(from, end, morsel), encoding) == Err(payload.error)
               else
                 var nulls := NullCount(NullSlice(c, t));
                 Paging(c, encoding, from, end, morsel, start + len, done + [t],
                        pages + [PageSpec(len, payload.value, len - nulls, nulls, FlagOf(nulls, len))])
  {
    hide *;
    NextInRange(c, encoding, from, end, morsel, start, done, pages);
    var t := Tile(start, Min(end - start, morsel));
    SpecFromPayload(c, t, encoding);
    if PayloadOf(c, t, encoding).Err? {
      PageRefused(c, encoding, from, end, morsel, start, done, pages);
    } else {
      PageAdded(c, encoding, from, end, morsel, start, done, pages);
    }
  }

  lemma NextInRange(c: ConvertedColumn, encoding: Encoding, from: nat, end: nat, morsel: nat,
                    start: nat, done: seq<Tile>, pages: seq<PageSpec>)
    requires ColumnOk(c) && morsel > 0 && Paging(c, encoding, from, end, morsel, start, done, pages) && start < end
    ensures 0 < Min(end - start, morsel) && start + Min(end - start, morsel) <= RowsOf(c)
  {
  }

  lemma SpecFromPayload(c: ConvertedColumn, t: Tile, encoding: Encoding)
    requires ColumnOk(c) && t.start + t.len <= RowsOf(c)
    ensures var payload, nulls := PayloadOf(c, t, encoding), NullCount(NullSlice(c, t));
            SpecOf(c, t, encoding)
            == if payload.Err? then Err(payload.error)
               else Ok(PageSpec(t.len, payload.value, t.len - nulls, nulls, FlagOf(nulls, t.len)))
  {
    hide PayloadOf, NullCount, NullSlice, FlagOf, ColumnOk;
  }

  lemma PageRefused(c: ConvertedColumn, encoding: Encoding, from: nat, end: nat, morsel: nat,
                    start: nat, done: seq<Tile>, pages: seq<PageSpec>)
    requires ColumnOk(c) && morsel > 0 && Paging(c, encoding, from, end, morsel, start, done, pages) && start < end
    requires TilesIn(Tiles(from, end, morsel), RowsOf(c))
    requires start + Min(end - start, morsel) <= RowsOf(c)
    requires PayloadOf(c, Tile(start, Min(end - start, morsel)), encoding).Err?
    ensures SpecsOf(c, Tiles(from, end, morsel), encoding)
            == Err(PayloadOf(c, Tile(start, Min(end - start, morsel)), encoding).error)
  {
    TileIsNext(from, end, morsel, start, done);
    hide PayloadOf, ColumnOk, Tiles, TilesDone, NullCount, SpecsOf;
    SpecsFail(c, Tiles(from, end, morsel), encoding, |done|);
  }

  lemma PageAdded(c: ConvertedColumn, encoding: Encoding, from: nat, end: nat, morsel: nat,
                  start: nat, done: seq<Tile>, pages: seq<PageSpec>)
    requires ColumnOk(c) && morsel > 0 && Paging(c, encoding, from, end, morsel, start, done, pages) && start < end
    requires start + Min(end - start, morsel) <= RowsOf(c)
    requires SpecOf(c, Tile(start, Min(end - start, morsel)), encoding).Ok?
    ensures var len := Min(end - start, morsel);
            Paging(c, encoding, from, end, morsel, start + len, done + [Tile(start, len)],
                   pages + [SpecOf(c, Tile(start, len), encoding).value])
  {
    var t := Tile(start, Min(end - start, morsel));
    NextTile(from, end, morsel, start, done);
    hide SpecOf, ColumnOk, Tiles, TilesDone;
    var more := done + [t];
    assert more[..|done|] == done && more[|done|] == t;
    assert TilesIn(more, RowsOf(c));
  }

  lemma TileIsNext(from: nat, end: nat, step: nat, start: nat, done: seq<Tile>)
    requires from <= start < end && step > 0 && TilesDone(from, end, step, start, done)
    ensures |done| < |Tiles(from, end, step)|
    ensures Tiles(from, end, step)[..|done|] == done
    ensures Tiles(from, end, step)[|done|] == Tile(start, Min(end - start, step))
  {
  }

  lemma PagingEnds(c: ConvertedColumn, encoding: Encoding, from: nat, end: nat, morsel: nat,
                   start: nat, done: seq<Tile>, pages: seq<PageSpec>)
    requires ColumnOk(c) && morsel > 0 && Paging(c, encoding, from, end, morsel, start, done, pages)
    requires TilesIn(Tiles(from, end, morsel), RowsOf(c))
    ensures start == end ==> SpecsOf(c, Tiles(from, end, morsel), encoding) == Ok(pages)
    ensures start <= end
  {
    if start == end { TilesFinish(from, end, morsel, done); }
  }

  /** Null and non-null rows make up every page, and its flag says so. */
  lemma PageCounts(c: ConvertedColumn, encoding: Encoding, start: nat, count: nat, morsel: nat, i: nat)
    requires ColumnOk(c) && PagesOf(c, encoding, start, count, morsel).Ok?
    requires i < |PagesOf(c, encoding, start, count, morsel).value|
    ensures morsel > 0 && i < |Tiles(start, start + count, morsel)|
    ensures var page, t := PagesOf(c, encoding, start, count, morsel).value[i], Tiles(start, start + count, morsel)[i];
            && t.start + t.len <= RowsOf(c) && SpecOf(c, t, encoding) == Ok(page)
            && page.rowCount == t.len && page.nullCount + page.nonNullCount == t.len > 0
            && page.nullCount == NullCount(NullSlice(c, t))
            && (page.flag == AllNonNull <==> page.nullCount == 0) && (page.flag == AllNull <==> page.nonNullCount == 0)
  {
    hide *;
    PageIsTile(c, encoding, start, count, morsel, i);
    TileNotEmpty(start, start + count, morsel, i);
    SpecCounts(c, Tiles(start, start + count, morsel)[i], encoding);
  }

  lemma TileNotEmpty(start: nat, end: nat, step: nat, i: nat)
    requires start <= end && step > 0 && i < |Tiles(start, end, step)|
    ensures Tiles(start, end, step)[i].len > 0
  {
    TileAt(start, end, step, i);
  }

  lemma PageIsTile(c: ConvertedColumn, encoding: Encoding, start: nat, count: nat, morsel: nat, i: nat)
    requires ColumnOk(c) && PagesOf(c, encoding, start, count, morsel).Ok?
    requires i < |PagesOf(c, encoding, start, count, morsel).value|
    ensures morsel > 0 && i < |Tiles(start, start + count, morsel)|
    ensures var t := Tiles(start, start + count, morsel)[i];
            t.start + t.len <= RowsOf(c)
              && SpecOf(c, t, encoding) == Ok(PagesOf(c, encoding, start, count, morsel).value[i])
  {
    hide SpecOf, SpecsOf, Tiles, ColumnOk;
    MorselsInRange(start, start + count, morsel, RowsOf(c));
    SpecsAt(c, Tiles(start, start + count, morsel), encoding, i);
  }

  lemma SpecCounts(c: ConvertedColumn, t: Tile, encoding: Encoding)
    requires ColumnOk(c) && t.start + t.len <= RowsOf(c) && 0 < t.len && SpecOf(c, t, encoding).Ok?
    ensures var page := SpecOf(c, t, encoding).value;
            && page.rowCount == t.len && page.nullCount + page.nonNullCount == t.len
            && page.nullCount == NullCount(NullSlice(c, t))
            && (page.flag == AllNonNull <==> page.nullCount == 0) && (page.flag == AllNull <==> page.nonNullCount == 0)
  {
    hide PayloadOf, NullCount, ColumnOk;
  }

  /** Pages tile the segment: row r of the range lies in page (r - start) / morsel
      and in no other. */
  lemma PagesTileRange(c: ConvertedColumn, encoding: Encoding, start: nat, count: nat, morsel: nat, row: nat, i: nat)
    requires ColumnOk(c) && PagesOf(c, encoding, start, count, morsel).Ok? && start <= row < start + count
    requires i < |PagesOf(c, encoding, start, count, morsel).value|
    ensures morsel > 0 && (row - start) / morsel < |PagesOf(c, encoding, start, count, morsel).value|
    ensures var page := PagesOf(c, encoding, start, count, morsel).value[i];
            start + i * morsel <= row < start + i * morsel + page.rowCount <==> i == (row - start) / morsel
  {
    hide *;
    PageCounts(c, encoding, start, count, morsel, i);
    SamePages(c, encoding, start, count, morsel);
    TileOwnsRow(start, start + count, morsel, row, i);
  }

  lemma TileOwnsRow(start: nat, end: nat, step: nat, row: nat, i: nat)
    requires start <= row < end && step > 0 && i < |Tiles(start, end, step)|
    ensures (row - start) / step < |Tiles(start, end, step)|
    ensures start + i * step <= row < start + i * step + Tiles(start, end, step)[i].len <==> i == (row - start) / step
  {
    TileOfRow(start, end, step, row, i);
    TileAt(start, end, step, i);
  }

  lemma SamePages(c: ConvertedColumn, encoding: Encoding, start: nat, count: nat, morsel: nat)
    requires ColumnOk(c) && PagesOf(c, encoding, start, count, morsel).Ok?
    ensures morsel > 0
    ensures |PagesOf(c, encoding, start, count, morsel).value| == |Tiles(start, start + count, morsel)|
  {
    hide SpecOf;
  }

  // ---- reading a flat page ----

  /** `decode_materialized_page_values_with_nulls`, up to the value decoder: a null
      count above zero announces a bitmap, which must count to it. */
  function SplitPage(rowCount: nat, nullCount: nat, payload: seq<byte>): Result<(Option<Bitmap>, seq<byte>)> {
    if nullCount > rowCount then Err(PageCorrupt)
    else if nullCount == 0 then Ok((None, payload))
    else if |payload| < PackedLen(rowCount) then Err(BufferTooShort)
    else
      var bitmap := payload[..PackedLen(rowCount)];
      if NullCount(BitmapFlags(bitmap, rowCount)) != nullCount then Err(PageCorrupt)
      else Ok((Some(Bitmap(bitmap, rowCount)), payload[PackedLen(rowCount)..]))
  }

  function BitmapFlags(bytes: seq<byte>, rowCount: nat): (r: seq<bool>)
    requires |bytes| == PackedLen(rowCount)
    ensures |r| == rowCount
  {
    seq(rowCount, i requires 0 <= i < rowCount => Bit(bytes[i / 8], i % 8))
  }

  /** The bitmap a page carries: none when no row of it is null. */
  function PageValidity(nulls: seq<bool>): Option<Bitmap> {
    if AnyNull(nulls) then Some(Bitmap(PackBits(nulls), |nulls|)) else None
  }

  lemma FlagsBack(nulls: seq<bool>)
    ensures BitmapFlags(PackBits(nulls), |nulls|) == nulls
  {
    forall i | 0 <= i < |nulls| ensures BitmapFlags(PackBits(nulls), |nulls|)[i] == nulls[i] { PackedBit(nulls, i); }
  }

  /** A written flat page splits into the bitmap and the value bytes it was made of. */
  lemma FlatPageSplitsBack(c: ConvertedColumn, t: Tile, encoding: Encoding)
    requires ColumnOk(c) && !c.nested && t.start + t.len <= RowsOf(c) && SpecOf(c, t, encoding).Ok?
    ensures var spec := SpecOf(c, t, encoding).value;
            && spec.payload.FlatPayload? && Encoded(c.data.vals, t.start, t.len).Ok?
            && SplitPage(spec.rowCount, spec.nullCount, spec.payload.bytes)
               == Ok((PageValidity(NullSlice(c, t)), Encoded(c.data.vals, t.start, t.len).value))
  {
    var nulls, bytes := NullSlice(c, t), Encoded(c.data.vals, t.start, t.len).value;
    if AnyNull(nulls) {
      FlagsBack(nulls);
      var payload := PackBits(nulls) + bytes;
      assert payload[..PackedLen(t.len)] == PackBits(nulls) && payload[PackedLen(t.len)..] == bytes;
    }
  }
}
