/** The aggregate synopsis of a column: one entry per segment, whose counts, sums and
    histograms add up to the whole column; and the top keys of a segment. */
module Synopsis {
  import opened Machine
  import opened Scalars
  import opened Nested
  import opened NestedReorder
  import opened RowOrder
  import opened StableSort
  import opened Segments
  import Keys
  import opened Aggregates

  // ---- top keys ----

  ghost predicate KeysAscend(buckets: seq<Bucket>) {
    forall i, j :: 0 <= i < j < |buckets| ==> buckets[i].key < buckets[j].key
  }

  /** Higher count first, then lower key. */
  predicate Outranks(a: Bucket, b: Bucket) {
    a.count > b.count || (a.count == b.count && a.key < b.key)
  }

  function RanksBefore(buckets: seq<Bucket>): (nat, nat) -> bool {
    (x: nat, y: nat) => x < |buckets| && y < |buckets| && Outranks(buckets[x], buckets[y])
  }

  lemma RanksStrict(buckets: seq<Bucket>)
    requires KeysAscend(buckets)
    ensures StrictTotal(RanksBefore(buckets), |buckets|)
  {
    forall x: nat, y: nat | x < |buckets| && y < |buckets|
      ensures RanksBefore(buckets)(x, y) <==> x != y && !RanksBefore(buckets)(y, x)
    {
      if x < y { assert buckets[x].key < buckets[y].key; }
      if y < x { assert buckets[y].key < buckets[x].key; }
    }
  }

  /** All buckets by rank; the library sort can return nothing else. */
  function Ranking(buckets: seq<Bucket>): (order: seq<nat>)
    requires KeysAscend(buckets)
    ensures IsPermutation(order, |buckets|) && |order| == |buckets| && Within(order, |buckets|)
  {
    RanksStrict(buckets);
    SortRowsSorts(RanksBefore(buckets), |buckets|, |buckets|);
    PermutationFacts(SortRows(RanksBefore(buckets), |buckets|), |buckets|);
    SortRows(RanksBefore(buckets), |buckets|)
  }

  /** `sort_by` and `truncate`. */
  function Top(buckets: seq<Bucket>, k: nat): (r: seq<Bucket>)
    requires KeysAscend(buckets)
    ensures |r| == Min(k, |buckets|)
  {
    Pick(buckets, Ranking(buckets))[..Min(k, |buckets|)]
  }

  /** The top entries are the k best buckets in rank order: each is a bucket, and
      every bucket left out ranks below every one kept. */
  lemma TopIsBest(buckets: seq<Bucket>, k: nat)
    requires KeysAscend(buckets)
    ensures forall i, j :: 0 <= i < j < |Top(buckets, k)| ==> Outranks(Top(buckets, k)[i], Top(buckets, k)[j])
    ensures forall t :: t in Top(buckets, k) ==> t in buckets
    ensures forall b, t :: b in buckets && b !in Top(buckets, k) && t in Top(buckets, k) ==> Outranks(t, b)
  {
    var order, top := Ranking(buckets), Top(buckets, k);
    RanksStrict(buckets);
    SortRowsSorts(RanksBefore(buckets), |buckets|, |buckets|);
    assert Sorted(RanksBefore(buckets), order);
    hide Ranking;
    forall i, j | 0 <= i < j < |order| ensures Outranks(buckets[order[i]], buckets[order[j]]) {
      assert RanksBefore(buckets)(order[i], order[j]);
    }
    assert forall i :: 0 <= i < |top| ==> top[i] == buckets[order[i]];
    forall b, t | b in buckets && b !in top && t in top ensures Outranks(t, b) {
      var x :| 0 <= x < |buckets| && buckets[x] == b;
      var i :| 0 <= i < |top| && top[i] == t;
      Listed(order, |buckets|, x);
      var j :| 0 <= j < |order| && order[j] == x;
      assert Outranks(buckets[order[i]], buckets[order[j]]);
    }
  }

  lemma Listed(order: seq<nat>, n: nat, x: nat)
    requires IsPermutation(order, n) && x < n
    ensures x in order
  {
    assert Identity(n)[x] == x;
    assert x in multiset(Identity(n));
    assert x in multiset(order);
  }

  lemma HistogramAscends(c: ConvertedColumn, lo: nat, hi: nat)
    requires ColumnOk(c) && lo <= hi <= RowsOf(c)
    ensures KeysAscend(Histogram(c, lo, hi))
  {
    HistogramExact(c, lo, hi);
  }

  // ---- one entry per segment ----

  datatype Request = Request(base: bool, histogram: bool, topK: nat)

  datatype SegmentSummary = SegmentSummary(segmentId: nat, rowCount: nat, nullCount: nat,
                                           minMax: Option<Option<(nat, nat)>>, bools: Option<(nat, nat)>,
                                           sum: Option<int>, histogram: Option<seq<Bucket>>,
                                           top: Option<seq<Bucket>>)

  /** What a segment's entry must say. */
  ghost predicate SummaryOf(c: ConvertedColumn, s: SegmentLayout, request: Request, e: SegmentSummary)
    requires ColumnOk(c) && s.rowStart + s.rowCount <= RowsOf(c)
  {
    var lo, hi := s.rowStart, s.rowStart + s.rowCount;
    HistogramAscends(c, lo, hi);
    && e.segmentId == s.id && e.rowCount == hi - lo && e.nullCount == RowSum(NullMeasure(c), lo, hi)
    && (e.minMax.Some? <==> request.base && HasMinMax(c))
    && (e.minMax.Some? ==> MinMaxOf(c, NonNullRows(c, lo, hi), e.minMax.value))
    && (e.bools.Some? <==> request.base && !c.nested && c.data.vals.Booleans?)
    && (e.bools.Some? ==>
          && e.bools.value.0 == RowSum(BoolMeasure(c, true), lo, hi)
          && e.bools.value.1 == RowSum(BoolMeasure(c, false), lo, hi))
    && e.sum == (if request.base && SumKindOf(c) != NoSum then Some(RowSum(SumMeasure(c), lo, hi)) else None)
    && e.histogram == (if request.histogram && Keys.Keyable(c) then Some(Histogram(c, lo, hi)) else None)
    && e.top == (if request.topK > 0 && Keys.Keyable(c) then Some(Top(Histogram(c, lo, hi), request.topK)) else None)
  }

  /** The only ways a segment can fail: too many rows, or a sum that does not fit. */
  ghost predicate Summable(c: ConvertedColumn, s: SegmentLayout, request: Request)
    requires ColumnOk(c) && s.rowStart + s.rowCount <= RowsOf(c)
  {
    var lo, hi := s.rowStart, s.rowStart + s.rowCount;
    && s.rowCount <= U32_MAX
    && (request.base && SumKindOf(c) != NoSum ==>
          Accumulates(c, NonNullRows(c, lo, hi)) && ResultFits(SumKindOf(c), RowSum(SumMeasure(c), lo, hi)))
  }

  method SummarizeSegment(c: ConvertedColumn, s: SegmentLayout, request: Request) returns (r: Result<SegmentSummary>)
    requires ColumnOk(c) && s.rowStart + s.rowCount <= RowsOf(c)
    ensures r.Ok? <==> Summable(c, s, request)
    ensures r.Ok? ==> SummaryOf(c, s, request, r.value)
  {
    hide ColumnOk, RowSum, NonNullRows, NullMeasure, BoolMeasure, SumMeasure, Histogram, Accumulates, SumKindOf,
         Keys.Keyable, Top, ResultFits, HasMinMax, MinMaxOf;
    var lo, hi := s.rowStart, s.rowStart + s.rowCount;
    var counts :- SegmentCounts(c, s);
    var sum: Option<int> := None;
    var bools: Option<(nat, nat)> := None;
    var minMax: Option<Option<(nat, nat)>> := None;
    if request.base {
      if HasMinMax(c) {
        var extremes := MinMaxRows(c, NonNullRows(c, lo, hi));
        minMax := Some(extremes);
      }
      sum :- CheckedSum(c, lo, hi);
      bools := BoolCounts(c, lo, hi);
    }
    var buckets := KeyCounts(c, lo, hi);
    HistogramAscends(c, lo, hi);
    var histogram := if request.histogram && Keys.Keyable(c) then Some(buckets) else None;
    var top := if request.topK > 0 && Keys.Keyable(c) then Some(Top(buckets, request.topK)) else None;
    return Ok(SegmentSummary(s.id, counts.0, counts.1, minMax, bools, sum, histogram, top));
  }

  /** Whether the request asks for anything this column has. */
  predicate Produces(c: ConvertedColumn, request: Request)
    requires ColumnOk(c)
  {
    request.base || ((request.histogram || request.topK > 0) && Keys.Keyable(c))
  }

  /** `build_aggregate_synopsis`, without the approximate sketches: none when no
      segment gets any entry. */
  method BuildSynopsis(c: ConvertedColumn, segments: seq<SegmentLayout>, request: Request)
    returns (r: Result<Option<seq<SegmentSummary>>>)
    requires ColumnOk(c) && forall i :: 0 <= i < |segments| ==> segments[i].rowStart + segments[i].rowCount <= RowsOf(c)
    ensures c.nested ==> r == Ok(None)
    ensures !c.nested ==> (r.Ok? <==> forall i :: 0 <= i < |segments| ==> Summable(c, segments[i], request))
    ensures !c.nested && r.Ok? ==> (r.value.Some? <==> segments != [] && Produces(c, request))
    ensures r.Ok? && r.value.Some? ==>
              && |r.value.value| == |segments|
              && forall i :: 0 <= i < |segments| ==> SummaryOf(c, segments[i], request, r.value.value[i])
  {
    hide SummaryOf, Summable, ColumnOk, Keys.Keyable;
    if c.nested { return Ok(None); }
    var entries: seq<SegmentSummary> := [];
    for i := 0 to |segments|
      invariant |entries| == i
      invariant forall j :: 0 <= j < i ==> Summable(c, segments[j], request)
      invariant forall j :: 0 <= j < i ==> SummaryOf(c, segments[j], request, entries[j])
    {
      var e :- SummarizeSegment(c, segments[i], request);
      entries := entries + [e];
    }
    if segments == [] || !Produces(c, request) { return Ok(None); }
    return Ok(Some(entries));
  }

  // ---- entries add up ----

  function FieldSum(entries: seq<SegmentSummary>, field: SegmentSummary -> int): int {
    if entries == [] then 0 else FieldSum(entries[..|entries| - 1], field) + field(entries[|entries| - 1])
  }

  lemma {:induction false} FieldsAreSegmentSums(entries: seq<SegmentSummary>, segments: seq<SegmentLayout>,
                                                field: SegmentSummary -> int, f: nat -> int)
    requires |entries| == |segments|
    requires forall i :: 0 <= i < |segments| ==>
      field(entries[i]) == RowSum(f, segments[i].rowStart, segments[i].rowStart + segments[i].rowCount)
    ensures FieldSum(entries, field) == SegmentSum(f, segments)
    decreases |segments|
  {
    if segments != [] {
      var n := |segments| - 1;
      FieldsAreSegmentSums(entries[..n], segments[..n], field, f);
    }
  }

  function NullsIn(e: SegmentSummary): int { e.nullCount }

  function TruesIn(e: SegmentSummary): int { if e.bools.Some? then e.bools.value.0 else 0 }

  function FalsesIn(e: SegmentSummary): int { if e.bools.Some? then e.bools.value.1 else 0 }

  function SumIn(e: SegmentSummary): int { if e.sum.Some? then e.sum.value else 0 }

  function CountIn(buckets: seq<Bucket>, key: u64): nat {
    if buckets == [] then 0
    else if buckets[0].key == key then buckets[0].count
    else CountIn(buckets[1..], key)
  }

  function KeyCountIn(key: u64): SegmentSummary -> int {
    (e: SegmentSummary) => if e.histogram.Some? then CountIn(e.histogram.value, key) else 0
  }

  lemma {:induction false} CountInAt(buckets: seq<Bucket>, key: u64, i: nat)
    requires KeysAscend(buckets) && i < |buckets| && buckets[i].key == key
    ensures CountIn(buckets, key) == buckets[i].count
    decreases |buckets|
  {
    if i > 0 {
      assert buckets[0].key < buckets[i].key;
      CountInAt(buckets[1..], key, i - 1);
    }
  }

  lemma {:induction false} CountInNone(buckets: seq<Bucket>, key: u64)
    requires forall i :: 0 <= i < |buckets| ==> buckets[i].key != key
    ensures CountIn(buckets, key) == 0
    decreases |buckets|
  {
    if buckets != [] { CountInNone(buckets[1..], key); }
  }

  /** The histogram lists exactly how many rows hold a key, zero when it is absent. */
  lemma HistogramCounts(c: ConvertedColumn, lo: nat, hi: nat, key: u64)
    requires ColumnOk(c) && lo <= hi <= RowsOf(c)
    ensures CountIn(Histogram(c, lo, hi), key) == RowSum(KeyMeasure(c, key), lo, hi)
  {
    var keys, h := Keys.Sorted(Keys.KeySet(c, lo, hi)), Histogram(c, lo, hi);
    Keys.SortedExact(Keys.KeySet(c, lo, hi));
    HistogramAscends(c, lo, hi);
    CountsBounded(c, lo, hi, key);
    assert |h| == |keys| && forall i :: 0 <= i < |h| ==>
      h[i] == Bucket(keys[i], |Keys.RowsWithKey(c, lo, hi, keys[i])|);
    assert key in keys <==> Keys.RowsWithKey(c, lo, hi, key) != [];
    hide *;
    if key in keys {
      var i :| 0 <= i < |keys| && keys[i] == key;
      CountInAt(h, key, i);
    } else {
      forall i | 0 <= i < |h| ensures h[i].key != key { assert keys[i] in keys; }
      CountInNone(h, key);
    }
  }

  /** The entries are those of the segments the rows were cut into. */
  ghost predicate SynopsisOf(c: ConvertedColumn, step: nat, request: Request, entries: seq<SegmentSummary>)
    requires ColumnOk(c) && step > 0
  {
    var segments := SegmentsOf(RowsOf(c), step);
    && |entries| == |segments|
    && forall i :: 0 <= i < |entries| ==>
         segments[i].rowStart + segments[i].rowCount <= RowsOf(c) && SummaryOf(c, segments[i], request, entries[i])
  }

  lemma MeasureAddsUp(c: ConvertedColumn, step: nat, entries: seq<SegmentSummary>, field: SegmentSummary -> int,
                      f: nat -> int)
    requires step > 0 && |entries| == |SegmentsOf(RowsOf(c), step)|
    requires forall i :: 0 <= i < |entries| ==>
      var s := SegmentsOf(RowsOf(c), step)[i]; field(entries[i]) == RowSum(f, s.rowStart, s.rowStart + s.rowCount)
    ensures FieldSum(entries, field) == RowSum(f, 0, RowsOf(c))
  {
    FieldsAreSegmentSums(entries, SegmentsOf(RowsOf(c), step), field, f);
    SegmentTotals(f, RowsOf(c), step);
  }

  /** Per-segment null counts, Boolean counts and sums add up to the whole column's. */
  lemma SynopsisAddsUp(c: ConvertedColumn, step: nat, request: Request, entries: seq<SegmentSummary>)
    requires ColumnOk(c) && step > 0 && SynopsisOf(c, step, request, entries)
    ensures FieldSum(entries, NullsIn) == RowSum(NullMeasure(c), 0, RowsOf(c))
    ensures request.base && !c.nested && c.data.vals.Booleans? ==>
              && FieldSum(entries, TruesIn) == RowSum(BoolMeasure(c, true), 0, RowsOf(c))
              && FieldSum(entries, FalsesIn) == RowSum(BoolMeasure(c, false), 0, RowsOf(c))
    ensures request.base && SumKindOf(c) != NoSum ==> FieldSum(entries, SumIn) == RowSum(SumMeasure(c), 0, RowsOf(c))
  {
    assert !c.nested ==> c.data.ScalarCol?;
    hide SegmentsOf, RowSum, Histogram, ColumnOk, SumKindOf, Top, NullMeasure, BoolMeasure, SumMeasure, FieldSum;
    MeasureAddsUp(c, step, entries, NullsIn, NullMeasure(c));
    if request.base && !c.nested && c.data.vals.Booleans? {
      MeasureAddsUp(c, step, entries, TruesIn, BoolMeasure(c, true));
      MeasureAddsUp(c, step, entries, FalsesIn, BoolMeasure(c, false));
    }
    if request.base && SumKindOf(c) != NoSum {
      MeasureAddsUp(c, step, entries, SumIn, SumMeasure(c));
    }
  }

  /** Per-segment histograms add up: for every key, the listed counts total the
      rows of the whole column that hold it. */
  lemma HistogramsAddUp(c: ConvertedColumn, step: nat, request: Request, entries: seq<SegmentSummary>, key: u64)
    requires ColumnOk(c) && step > 0 && SynopsisOf(c, step, request, entries)
    requires request.histogram && Keys.Keyable(c)
    ensures FieldSum(entries, KeyCountIn(key)) == RowSum(KeyMeasure(c, key), 0, RowsOf(c))
  {
    hide SegmentsOf, RowSum, Histogram, ColumnOk, SumKindOf, Top, KeyMeasure, FieldSum, CountIn, Keys.Keyable;
    var segments := SegmentsOf(RowsOf(c), step);
    forall i | 0 <= i < |entries|
      ensures KeyCountIn(key)(entries[i])
              == RowSum(KeyMeasure(c, key), segments[i].rowStart, segments[i].rowStart + segments[i].rowCount)
    {
      HistogramCounts(c, segments[i].rowStart, segments[i].rowStart + segments[i].rowCount, key);
    }
    MeasureAddsUp(c, step, entries, KeyCountIn(key), KeyMeasure(c, key));
  }
}
