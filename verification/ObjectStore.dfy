/** The offline object store harness: whole-object and range reads with a cache of the
    ranges already returned, and saturating counters. */
module ObjectStore {
  import opened Machine
  import opened RangeCoalescing

  datatype Stats = Stats(objectGets: nat, rangeGets: nat, bytesRequested: nat, bytesReturned: nat, cacheHits: nat,
                         cacheMisses: nat, originalRanges: nat, coalescedRanges: nat)

  const NO_STATS := Stats(0, 0, 0, 0, 0, 0, 0, 0)

  /** `saturating_add` on 64 bits. */
  function Add(a: nat, b: nat): nat {
    Min(a + b, U64_MAX)
  }

  datatype CacheKey = CacheKey(name: string, start: nat, end: nat)

  /** A range of an object that can be served. */
  predicate InBounds(length: nat, r: Range) {
    r.start <= r.end <= length
  }

  // ---- one read, as a function of counters and cache ----

  datatype Served = Served(stats: Stats, cache: set<CacheKey>)

  function ServeRange(s: Served, name: string, r: Range): Served {
    var length := SaturatingSub(r.end, r.start);
    var key := CacheKey(name, r.start, r.end);
    var asked := s.stats.(rangeGets := Add(s.stats.rangeGets, 1),
                          bytesRequested := Add(s.stats.bytesRequested, length));
    if key in s.cache then Served(asked.(cacheHits := Add(asked.cacheHits, 1)), s.cache)
    else
      Served(asked.(cacheMisses := Add(asked.cacheMisses, 1), bytesReturned := Add(asked.bytesReturned, length)),
             s.cache + {key})
  }

  function ServeRanges(s: Served, name: string, ranges: seq<Range>): Served {
    if ranges == [] then s
    else ServeRange(ServeRanges(s, name, ranges[..|ranges| - 1]), name, ranges[|ranges| - 1])
  }

  // ---- the harness ----

  class OfflineObjectStoreHarness {
    var objects: map<string, seq<byte>>
    var rangeCache: set<CacheKey>
    var stats: Stats

    constructor ()
      ensures objects == map[] && rangeCache == {} && stats == NO_STATS
    {
      objects, rangeCache, stats := map[], {}, NO_STATS;
    }

    ghost function State(): Served
      reads this
    {
      Served(stats, rangeCache)
    }

    ghost predicate Serves(name: string, r: Range)
      reads this
    {
      name in objects && InBounds(|objects[name]|, r)
    }

    method PutObject(name: string, bytes: seq<byte>)
      modifies this`objects
      ensures objects == old(objects)[name := bytes]
    {
      objects := objects[name := bytes];
    }

    method GetObject(name: string) returns (r: Result<seq<byte>>)
      modifies this`stats
      ensures r.Ok? <==> name in objects
      ensures r.Ok? ==> r.value == objects[name]
      ensures r.Ok? ==>
                stats == old(stats).(objectGets := Add(old(stats).objectGets, 1),
                                     bytesRequested := Add(old(stats).bytesRequested, |r.value|),
                                     bytesReturned := Add(old(stats).bytesReturned, |r.value|))
      ensures r.Err? ==> stats == old(stats)
    {
      if name !in objects { return Err(BadSection); }
      var bytes := objects[name];
      stats := stats.(objectGets := Add(stats.objectGets, 1));
      stats := stats.(bytesRequested := Add(stats.bytesRequested, |bytes|));
      stats := stats.(bytesReturned := Add(stats.bytesReturned, |bytes|));
      return Ok(bytes);
    }

    /** `range_get`: the bytes come from the object even on a hit; only the counters
        tell the two apart. */
    method RangeGet(name: string, range: Range) returns (r: Result<seq<byte>>)
      modifies this`stats, this`rangeCache
      ensures r.Ok? <==> Serves(name, range)
      ensures r.Ok? ==> r.value == objects[name][range.start..range.end]
      ensures State() == if r.Ok? then ServeRange(old(State()), name, range) else old(State())
    {
      if name !in objects { return Err(BadSection); }
      var bytes := objects[name];
      if range.start > range.end || range.end > |bytes| { return Err(OffsetRange); }
      var length := SaturatingSub(range.end, range.start);
      stats := stats.(rangeGets := Add(stats.rangeGets, 1));
      stats := stats.(bytesRequested := Add(stats.bytesRequested, length));
      var key := CacheKey(name, range.start, range.end);
      if key !in rangeCache {
        rangeCache := rangeCache + {key};
        stats := stats.(cacheMisses := Add(stats.cacheMisses, 1));
        stats := stats.(bytesReturned := Add(stats.bytesReturned, length));
      } else {
        stats := stats.(cacheHits := Add(stats.cacheHits, 1));
      }
      return Ok(bytes[range.start..range.end]);
    }

    method TakeStats() returns (taken: Stats)
      modifies this`stats
      ensures taken == old(stats) && stats == NO_STATS
    {
      taken := stats;
      stats := NO_STATS;
    }
  }

  /** `read_harness_ranges`: one read after another, stopping at the first that cannot
      be served; the ones before it have been served. */
  method ReadHarnessRanges(harness: OfflineObjectStoreHarness, name: string, ranges: seq<Range>)
    returns (r: Result<()>, ghost served: nat)
    modifies harness`stats, harness`rangeCache
    ensures r.Ok? <==> forall i :: 0 <= i < |ranges| ==> harness.Serves(name, ranges[i])
    ensures served <= |ranges| && (r.Ok? <==> served == |ranges|)
    ensures harness.State() == ServeRanges(old(harness.State()), name, ranges[..served])
  {
    served := 0;
    for i := 0 to |ranges|
      invariant served == i && forall j :: 0 <= j < i ==> harness.Serves(name, ranges[j])
      invariant harness.State() == ServeRanges(old(harness.State()), name, ranges[..i])
    {
      var one := harness.RangeGet(name, ranges[i]);
      if one.Err? { return Err(one.error), served; }
      assert ranges[..i + 1][..i] == ranges[..i];
      served := i + 1;
    }
    return Ok(()), served;
  }

  // ---- passes ----

  function TotalBytes(ranges: seq<Range>): nat {
    if ranges == [] then 0
    else TotalBytes(ranges[..|ranges| - 1]) + SaturatingSub(ranges[|ranges| - 1].end, ranges[|ranges| - 1].start)
  }

  predicate Cached(cache: set<CacheKey>, name: string, r: Range) {
    CacheKey(name, r.start, r.end) in cache
  }

  ghost predicate NoneCached(cache: set<CacheKey>, name: string, ranges: seq<Range>) {
    forall i :: 0 <= i < |ranges| ==> !Cached(cache, name, ranges[i])
  }

  ghost predicate AllCached(cache: set<CacheKey>, name: string, ranges: seq<Range>) {
    forall i :: 0 <= i < |ranges| ==> Cached(cache, name, ranges[i])
  }

  ghost predicate AllDistinct(ranges: seq<Range>) {
    forall i, j :: 0 <= i < j < |ranges| ==> ranges[i] != ranges[j]
  }

  /** Counters of a pass that never hits, and of one that always does. */
  function Missed(s: Stats, n: nat, bytes: nat): Stats {
    s.(rangeGets := Add(s.rangeGets, n), bytesRequested := Add(s.bytesRequested, bytes),
       cacheMisses := Add(s.cacheMisses, n), bytesReturned := Add(s.bytesReturned, bytes))
  }

  function Hit(s: Stats, n: nat, bytes: nat): Stats {
    s.(rangeGets := Add(s.rangeGets, n), bytesRequested := Add(s.bytesRequested, bytes),
       cacheHits := Add(s.cacheHits, n))
  }

  ghost predicate Bounded(s: Stats) {
    && s.rangeGets <= U64_MAX && s.bytesRequested <= U64_MAX && s.bytesReturned <= U64_MAX && s.cacheHits <= U64_MAX
    && s.cacheMisses <= U64_MAX
  }

  /** After any pass exactly the ranges asked for have been added to the cache. */
  lemma {:induction false} PassCaches(s: Served, name: string, ranges: seq<Range>)
    ensures AllCached(ServeRanges(s, name, ranges).cache, name, ranges)
    ensures forall key :: key in ServeRanges(s, name, ranges).cache <==>
              key in s.cache || exists i :: 0 <= i < |ranges| && key == CacheKey(name, ranges[i].start, ranges[i].end)
    decreases |ranges|
  {
    if ranges != [] {
      var n := |ranges| - 1;
      var front := ranges[..n];
      PassCaches(s, name, front);
      var before, after := ServeRanges(s, name, front), ServeRanges(s, name, ranges);
      assert after.cache == before.cache + {CacheKey(name, ranges[n].start, ranges[n].end)};
      forall i | 0 <= i < n ensures Cached(after.cache, name, ranges[i]) {
        assert Cached(before.cache, name, front[i]);
      }
    }
  }

  /** A cold pass over distinct ranges misses once per range and returns every byte. */
  lemma {:induction false} ColdPass(s: Served, name: string, ranges: seq<Range>)
    requires Bounded(s.stats) && NoneCached(s.cache, name, ranges) && AllDistinct(ranges)
    ensures ServeRanges(s, name, ranges).stats == Missed(s.stats, |ranges|, TotalBytes(ranges))
    decreases |ranges|
  {
    if ranges != [] {
      var n := |ranges| - 1;
      var front, last := ranges[..n], ranges[n];
      ColdPass(s, name, front);
      PassCaches(s, name, front);
      assert !Cached(s.cache, name, last);
      forall i | 0 <= i < n
        ensures CacheKey(name, last.start, last.end) != CacheKey(name, front[i].start, front[i].end)
      {
        assert ranges[i] != ranges[n];
      }
    }
  }

  /** A pass whose ranges are all cached hits every time and returns no new byte. */
  lemma {:induction false} WarmPass(s: Served, name: string, ranges: seq<Range>)
    requires Bounded(s.stats) && AllCached(s.cache, name, ranges)
    ensures ServeRanges(s, name, ranges) == Served(Hit(s.stats, |ranges|, TotalBytes(ranges)), s.cache)
    decreases |ranges|
  {
    if ranges != [] {
      WarmPass(s, name, ranges[..|ranges| - 1]);
      assert Cached(s.cache, name, ranges[|ranges| - 1]);
    }
  }

  lemma SeparatedDistinct(out: seq<Range>)
    requires Separated(out)
    ensures AllDistinct(out)
  {
    forall i, j | 0 <= i < j < |out|
      ensures out[i] != out[j]
    {
      assert out[i].end < out[j].start && out[i].WellFormed();
    }
  }

  function Planned(s: Stats, original: seq<Range>, coalesced: seq<Range>): Stats {
    s.(originalRanges := |original| % 0x1_0000_0000_0000_0000, coalescedRanges := |coalesced| % 0x1_0000_0000_0000_0000)
  }

  /** Coalesce, read cold, read again: the first pass misses once per range and returns
      exactly the coalesced bytes, the second hits every time and returns nothing new.
      Neither can fail when the original ranges are in bounds. */
  method ColdThenWarm(harness: OfflineObjectStoreHarness, name: string, ranges: seq<Range>, maxGap: nat, maxSpan: nat)
    returns (cold: Stats, warm: Stats, out: seq<Range>)
    requires name in harness.objects && Bounded(harness.stats)
    requires forall i :: 0 <= i < |ranges| ==> harness.Serves(name, ranges[i])
    requires forall key :: key in harness.rangeCache ==> key.name != name
    modifies harness`stats, harness`rangeCache
    ensures out == Coalesced(ranges, maxGap, maxSpan)
    ensures cold == Missed(Planned(old(harness.stats), ranges, out), |out|, TotalBytes(out))
    ensures warm == Hit(Planned(NO_STATS, ranges, out), |out|, TotalBytes(out)) && warm.bytesReturned == 0
  {
    hide Coalesced, Separated, Irreducible, Kept, NothingWasted;
    out := CoalesceObjectRanges(ranges, maxGap, maxSpan);
    CoalescingCovers(ranges, maxGap, maxSpan);
    CoalescedWithin(ranges, maxGap, maxSpan, |harness.objects[name]|);
    SeparatedDistinct(out);
    harness.stats := Planned(harness.stats, ranges, out);
    ColdPass(harness.State(), name, out);
    PassCaches(harness.State(), name, out);
    var first, n := ReadHarnessRanges(harness, name, out);
    assert first.Ok?;
    assert out[..|out|] == out;
    cold := harness.TakeStats();
    harness.stats := Planned(harness.stats, ranges, out);
    WarmPass(harness.State(), name, out);
    var second, m := ReadHarnessRanges(harness, name, out);
    assert second.Ok?;
    warm := harness.TakeStats();
  }

  // ---- the standard simulation ----

  function AddRange(ranges: seq<Range>, start: nat, end: nat): seq<Range> {
    if start < end && Range(start, end) !in ranges then ranges + [Range(start, end)] else ranges
  }

  /** `deterministic_object_ranges`: the first two pages, one in the middle, the last. */
  function DeterministicObjectRanges(length: nat): seq<Range> {
    var middle := length / 2;
    var first := AddRange(AddRange([], 0, Min(length, 4096)), Min(4096, length), Min(length, 8192));
    SortRanges(AddRange(AddRange(first, middle, Min(Add(middle, 4096), length)), SaturatingSub(length, 4096), length))
  }

  lemma RangesInBounds(length: nat)
    ensures |DeterministicObjectRanges(length)| <= 4
    ensures forall i :: 0 <= i < |DeterministicObjectRanges(length)| ==>
              InBounds(length, DeterministicObjectRanges(length)[i])
  {
    var middle := length / 2;
    var first := AddRange(AddRange([], 0, Min(length, 4096)), Min(4096, length), Min(length, 8192));
    var all := AddRange(AddRange(first, middle, Min(Add(middle, 4096), length)), SaturatingSub(length, 4096), length);
    assert |all| <= 4 && forall i :: 0 <= i < |all| ==> InBounds(length, all[i]);
    SortSorts(all);
    assert |SortRanges(all)| == |multiset(SortRanges(all))| == |all|;
    forall i | 0 <= i < |SortRanges(all)| ensures InBounds(length, SortRanges(all)[i]) {
      assert SortRanges(all)[i] in multiset(all);
    }
  }

  /** Separated ranges fetch no byte twice: together they are no longer than the object. */
  lemma {:induction false} SeparatedTotal(out: seq<Range>, length: nat)
    requires Separated(out) && forall k :: 0 <= k < |out| ==> out[k].end <= length
    ensures TotalBytes(out) <= length
    decreases |out|
  {
    if out != [] {
      var n := |out| - 1;
      assert out[n].WellFormed();
      SeparatedTotal(out[..n], out[n].start);
    }
  }

  lemma {:induction false} GreedyShrinks(s: seq<Range>, maxGap: nat, maxSpan: nat)
    ensures |Greedy(s, maxGap, maxSpan)| <= |s|
    decreases |s|
  {
    if s != [] { GreedyShrinks(s[..|s| - 1], maxGap, maxSpan); }
  }

  lemma CoalescedShrinks(ranges: seq<Range>, maxGap: nat, maxSpan: nat)
    ensures |Coalesced(ranges, maxGap, maxSpan)| <= |ranges|
  {
    GreedyShrinks(SortRanges(ranges), maxGap, maxSpan);
    SortSorts(ranges);
    assert |SortRanges(ranges)| == |multiset(SortRanges(ranges))| == |ranges|;
  }

  lemma CoalescedTotal(ranges: seq<Range>, maxGap: nat, maxSpan: nat, length: nat)
    requires forall i :: 0 <= i < |ranges| ==> InBounds(length, ranges[i])
    ensures TotalBytes(Coalesced(ranges, maxGap, maxSpan)) <= length
  {
    hide Coalesced;
    CoalescingCovers(ranges, maxGap, maxSpan);
    CoalescedWithin(ranges, maxGap, maxSpan, length);
    SeparatedTotal(Coalesced(ranges, maxGap, maxSpan), length);
  }

  /** `simulate_object_store_cold_warm`: none of its reads can fail, and no counter saturates. */
  method SimulateObjectStoreColdWarm(name: string, bytes: seq<byte>)
    returns (cold: Stats, warm: Stats, original: seq<Range>, out: seq<Range>)
    requires |bytes| <= U64_MAX
    ensures && out == Coalesced(original, 1024, 16384) && |out| <= |original| == cold.originalRanges
            && cold.cacheMisses == |out| && cold.cacheHits == 0 && cold.bytesReturned == TotalBytes(out) <= |bytes|
            && warm.cacheHits == |out| && warm.cacheMisses == 0 && warm.bytesReturned == 0
            && warm.bytesRequested == cold.bytesRequested
  {
    var harness := new OfflineObjectStoreHarness();
    harness.PutObject(name, bytes);
    original := DeterministicObjectRanges(|bytes|);
    RangesInBounds(|bytes|);
    hide DeterministicObjectRanges, Coalesced, TotalBytes, Separated, Irreducible, Kept, NothingWasted;
    cold, warm, out := ColdThenWarm(harness, name, original, 1024, 16384);
    CoalescedShrinks(original, 1024, 16384);
    CoalescedTotal(original, 1024, 16384, |bytes|);
  }
}
