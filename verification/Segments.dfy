/** Cutting rows into segments and morsels, and naming a row by its position in them. */
module Segments {
  import opened Machine

  datatype Tile = Tile(start: nat, len: nat)

  /** `while start < end`: full steps, then what is left. */
  function Tiles(start: nat, end: nat, step: nat): seq<Tile>
    requires start <= end && step > 0
    decreases end - start
  {
    if start == end then []
    else
      var len := Min(end - start, step);
      [Tile(start, len)] + Tiles(start + len, end, step)
  }

  /** The i-th tile starts i steps in, and is full unless it is the last. */
  lemma {:induction false} TileAt(start: nat, end: nat, step: nat, i: nat)
    requires start <= end && step > 0 && i < |Tiles(start, end, step)|
    ensures start + i * step < end
    ensures Tiles(start, end, step)[i] == Tile(start + i * step, Min(step, end - (start + i * step)))
    decreases i
  {
    if i > 0 {
      var len := Min(end - start, step);
      assert start + len < end;
      TileAt(start + len, end, step, i - 1);
      assert (i - 1) * step + step == i * step;
    }
  }

  /** There are exactly enough tiles to reach every row. */
  lemma {:induction false} TilesReach(start: nat, end: nat, step: nat, i: nat)
    requires start <= end && step > 0
    ensures i < |Tiles(start, end, step)| <==> start + i * step < end
    decreases i
  {
    if start < end {
      var len := Min(end - start, step);
      if i > 0 {
        assert (i - 1) * step + step == i * step;
        if len == step {
          TilesReach(start + len, end, step, i - 1);
        } else {
          TilesReach(end, end, step, i - 1);
          assert i * step >= step;
        }
      }
    } else {
      assert i * step >= 0;
    }
  }

  /** The tiles before `start` are done. */
  ghost predicate TilesDone(from: nat, end: nat, step: nat, start: nat, done: seq<Tile>)
    requires from <= start <= end && step > 0
  {
    Tiles(from, end, step) == done + Tiles(start, end, step)
  }

  lemma TilesBegin(from: nat, end: nat, step: nat)
    requires from <= end && step > 0
    ensures TilesDone(from, end, step, from, [])
  {
    assert [] + Tiles(from, end, step) == Tiles(from, end, step);
  }

  lemma NextTile(from: nat, end: nat, step: nat, start: nat, done: seq<Tile>)
    requires from <= start < end && step > 0 && TilesDone(from, end, step, start, done)
    ensures var len := Min(end - start, step);
            TilesDone(from, end, step, start + len, done + [Tile(start, len)])
  {
    var len := Min(end - start, step);
    var rest := Tiles(start + len, end, step);
    assert Tiles(start, end, step) == [Tile(start, len)] + rest;
    hide Tiles;
    assert done + ([Tile(start, len)] + rest) == (done + [Tile(start, len)]) + rest;
  }

  lemma TilesFinish(from: nat, end: nat, step: nat, done: seq<Tile>)
    requires from <= end && step > 0 && TilesDone(from, end, step, end, done)
    ensures done == Tiles(from, end, step)
  {
    assert done + [] == done;
  }

  lemma TilesLonger(from: nat, end: nat, step: nat, start: nat, done: seq<Tile>)
    requires from <= start < end && step > 0 && TilesDone(from, end, step, start, done)
    ensures |Tiles(from, end, step)| > |done|
  {
  }

  function TileIndex(row: nat, start: nat, step: nat): nat
    requires start <= row && step > 0
  {
    (row - start) / step
  }

  lemma DivMod(x: nat, step: nat)
    requires step > 0
    ensures x == (x / step) * step + x % step && x % step < step
  {
    assert x == step * (x / step) + x % step;
  }

  /** Tiles partition the rows: every row lies in exactly one, the one its position
      divided by the step names. */
  lemma TileOfRow(start: nat, end: nat, step: nat, row: nat, i: nat)
    requires start <= row < end && step > 0
    ensures TileIndex(row, start, step) < |Tiles(start, end, step)|
    ensures i < |Tiles(start, end, step)| ==>
              var t := Tiles(start, end, step)[i];
              (t.start <= row < t.start + t.len <==> i == TileIndex(row, start, step))
    ensures Tiles(start, end, step)[TileIndex(row, start, step)].start == row - (row - start) % step
  {
    var k, x := TileIndex(row, start, step), row - start;
    DivMod(x, step);
    TilesReach(start, end, step, k);
    TileAt(start, end, step, k);
    if i < |Tiles(start, end, step)| {
      TileAt(start, end, step, i);
      if i < k { StepsGrow(i, k, step); }
      if k < i { StepsGrow(k, i, step); }
    }
  }

  lemma {:induction false} StepsGrow(a: nat, b: nat, step: nat)
    requires a < b
    ensures a * step + step <= b * step
    decreases b
  {
    assert (b - 1) * step + step == b * step;
    if a < b - 1 { StepsGrow(a, b - 1, step); }
  }

  // ---- segments ----

  datatype SegmentLayout = SegmentLayout(id: nat, rowStart: nat, rowCount: nat)

  /** An empty table still gets one empty segment. */
  function SegmentsOf(total: nat, step: nat): (r: seq<SegmentLayout>)
    requires step > 0
    ensures |r| > 0
  {
    if total == 0 then [SegmentLayout(0, 0, 0)] else Numbered(Tiles(0, total, step))
  }

  function Numbered(tiles: seq<Tile>): (r: seq<SegmentLayout>)
    ensures |r| == |tiles|
  {
    seq(|tiles|, i requires 0 <= i < |tiles| => SegmentLayout(i, tiles[i].start, tiles[i].len))
  }

  lemma NumberedSnoc(tiles: seq<Tile>, t: Tile)
    ensures Numbered(tiles + [t]) == Numbered(tiles) + [SegmentLayout(|tiles|, t.start, t.len)]
  {
  }

  /** `build_segment_layouts`: fails for a zero step, or when an id leaves u32. */
  method BuildSegmentLayouts(total: nat, step: nat) returns (r: Result<seq<SegmentLayout>>)
    ensures step == 0 ==> r == Err(BadSchema)
    ensures step > 0 ==>
              r == if |SegmentsOf(total, step)| > U32_MAX + 1 then Err(ArithOverflow) else Ok(SegmentsOf(total, step))
  {
    if step == 0 { return Err(BadSchema); }
    if total == 0 { return Ok([SegmentLayout(0, 0, 0)]); }
    var out: seq<SegmentLayout> := [];
    ghost var done: seq<Tile> := [];
    var start := 0;
    TilesBegin(0, total, step);
    assert Numbered([]) == [];
    assert SegmentsOf(total, step) == Numbered(Tiles(0, total, step));
    hide Tiles, TilesDone, SegmentsOf, Numbered;
    while start < total
      invariant start <= total && TilesDone(0, total, step, start, done)
      invariant out == Numbered(done) && |done| <= U32_MAX + 1
    {
      var len := Min(total - start, step);
      TilesLonger(0, total, step, start, done);
      if |out| > U32_MAX { return Err(ArithOverflow); }
      NumberedSnoc(done, Tile(start, len));
      NextTile(0, total, step, start, done);
      var next := SegmentLayout(|out|, start, len);
      out := out + [next];
      done := done + [Tile(start, len)];
      start := start + len;
    }
    TilesFinish(0, total, step, done);
    return Ok(out);
  }

  predicate Covers(s: SegmentLayout, row: nat) {
    s.rowStart <= row < s.rowStart + s.rowCount
  }

  /** The segments partition the rows. */
  lemma SegmentsPartition(total: nat, step: nat, row: nat, i: nat)
    requires step > 0 && row < total && i < |SegmentsOf(total, step)|
    ensures row / step < |SegmentsOf(total, step)|
    ensures Covers(SegmentsOf(total, step)[i], row) <==> i == row / step
    ensures SegmentsOf(total, step)[row / step].id == row / step
    ensures SegmentsOf(total, step)[row / step].rowStart == row - row % step
  {
    TileOfRow(0, total, step, row, i);
  }

  /** `segment_position_for_row`: the first segment that covers the row. */
  method SegmentPosition(row: nat, segments: seq<SegmentLayout>) returns (r: Result<SegmentLayout>)
    ensures r.Ok? <==> exists i :: 0 <= i < |segments| && Covers(segments[i], row)
    ensures r.Ok? ==> r.value in segments && Covers(r.value, row)
    ensures r.Err? ==> r.error == BadSchema
  {
    for i := 0 to |segments|
      invariant forall j :: 0 <= j < i ==> !Covers(segments[j], row)
    {
      if Covers(segments[i], row) { return Ok(segments[i]); }
    }
    return Err(BadSchema);
  }

  // ---- row references ----

  datatype RowRef = RowRef(segmentId: nat, morselId: nat, rowInMorsel: nat)

  function RowRefOf(row: nat, step: nat, morsel: nat): RowRef
    requires step > 0 && morsel > 0
  {
    RowRef(row / step, (row % step) / morsel, (row % step) % morsel)
  }

  /** The row a reference points at: its segment's start, whole morsels, the rest. */
  function RowOf(ref: RowRef, step: nat, morsel: nat): nat {
    ref.segmentId * step + ref.morselId * morsel + ref.rowInMorsel
  }

  /** References invert to rows, so distinct rows have distinct references. */
  lemma RowRefInverts(row: nat, step: nat, morsel: nat)
    requires step > 0 && morsel > 0
    ensures RowOf(RowRefOf(row, step, morsel), step, morsel) == row
    ensures RowRefOf(row, step, morsel).rowInMorsel < morsel
  {
    DivMod(row, step);
    DivMod(row % step, morsel);
  }

  lemma RowRefsDistinct(a: nat, b: nat, step: nat, morsel: nat)
    requires step > 0 && morsel > 0
    ensures RowRefOf(a, step, morsel) == RowRefOf(b, step, morsel) <==> a == b
  {
    RowRefInverts(a, step, morsel);
    RowRefInverts(b, step, morsel);
  }

  // ---- totals over tiles ----

  /** The sum of a per-row measure over a row range. */
  function RowSum(f: nat -> int, lo: nat, hi: nat): int
    requires lo <= hi
    decreases hi
  {
    if lo == hi then 0 else RowSum(f, lo, hi - 1) + f(hi - 1)
  }

  lemma {:induction false} RowSumSplits(f: nat -> int, lo: nat, mid: nat, hi: nat)
    requires lo <= mid <= hi
    ensures RowSum(f, lo, hi) == RowSum(f, lo, mid) + RowSum(f, mid, hi)
    decreases hi
  {
    if mid < hi { RowSumSplits(f, lo, mid, hi - 1); }
  }

  function SegmentSum(f: nat -> int, segments: seq<SegmentLayout>): int {
    if segments == [] then 0
    else
      var last := segments[|segments| - 1];
      SegmentSum(f, segments[..|segments| - 1]) + RowSum(f, last.rowStart, last.rowStart + last.rowCount)
  }

  /** Per-segment totals of any measure add up to the whole column's total. */
  lemma SegmentTotals(f: nat -> int, total: nat, step: nat)
    requires step > 0
    ensures SegmentSum(f, SegmentsOf(total, step)) == RowSum(f, 0, total)
  {
    var segments := SegmentsOf(total, step);
    if total == 0 {
      assert segments[..0] == [];
    } else {
      FirstSegments(f, total, step, |segments|);
      assert segments[..|segments|] == segments;
      TileAt(0, total, step, |segments| - 1);
      TilesReach(0, total, step, |segments|);
    }
  }

  /** The first `k` segments cover exactly the rows before the k-th step. */
  lemma {:induction false} FirstSegments(f: nat -> int, total: nat, step: nat, k: nat)
    requires step > 0 && total > 0 && k <= |SegmentsOf(total, step)|
    ensures SegmentSum(f, SegmentsOf(total, step)[..k]) == RowSum(f, 0, Min(k * step, total))
    decreases k
  {
    var segments := SegmentsOf(total, step);
    if k > 0 {
      FirstSegments(f, total, step, k - 1);
      TileAt(0, total, step, k - 1);
      assert (k - 1) * step + step == k * step;
      assert segments[..k][..k - 1] == segments[..k - 1] && segments[..k][k - 1] == segments[k - 1];
      RowSumSplits(f, 0, (k - 1) * step, Min(k * step, total));
    }
  }
}
