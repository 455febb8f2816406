/** Merging object byte ranges before they are fetched: a greedy pass over the sorted
    ranges that bridges small gaps. */
module RangeCoalescing {
  import opened Machine

  datatype Range = Range(start: nat, end: nat) {
    predicate WellFormed() {
      start <= end
    }
  }

  // ---- sorting ----

  predicate AtMost(a: Range, b: Range) {
    a.start < b.start || (a.start == b.start && a.end <= b.end)
  }

  function Insert(r: Range, s: seq<Range>): seq<Range> {
    if s == [] || AtMost(r, s[0]) then [r] + s else [s[0]] + Insert(r, s[1..])
  }

  /** `sort_by_key(|range| (range.start, range.end))`; equal keys are equal ranges. */
  function SortRanges(s: seq<Range>): seq<Range> {
    if s == [] then [] else Insert(s[0], SortRanges(s[1..]))
  }

  ghost predicate Sorted(s: seq<Range>) {
    forall i, j :: 0 <= i < j < |s| ==> AtMost(s[i], s[j])
  }

  lemma {:induction false} InsertSorts(r: Range, s: seq<Range>)
    requires Sorted(s)
    ensures Sorted(Insert(r, s)) && multiset(Insert(r, s)) == multiset(s) + multiset{r}
    decreases |s|
  {
    if s != [] && !AtMost(r, s[0]) {
      InsertSorts(r, s[1..]);
      var tail := Insert(r, s[1..]);
      assert s == [s[0]] + s[1..];
      forall x | x in tail ensures AtMost(s[0], x) {
        assert x in multiset(tail);
        if x != r {
          assert x in s[1..];
          var j :| 0 <= j < |s[1..]| && s[1..][j] == x;
          assert s[j + 1] == x;
        }
      }
    }
  }

  lemma {:induction false} SortSorts(s: seq<Range>)
    ensures Sorted(SortRanges(s)) && multiset(SortRanges(s)) == multiset(s)
    decreases |s|
  {
    if s != [] {
      SortSorts(s[1..]);
      InsertSorts(s[0], SortRanges(s[1..]));
      assert s == [s[0]] + s[1..];
    }
  }

  lemma HeadAtMost(s: seq<Range>, x: Range)
    requires Sorted(s) && x in s
    ensures AtMost(s[0], x)
  {
    var j :| 0 <= j < |s| && s[j] == x;
    if j > 0 { assert AtMost(s[0], s[j]); }
  }

  lemma TailMultiset(s: seq<Range>)
    requires s != []
    ensures multiset(s[1..]) == multiset(s) - multiset{s[0]}
  {
    assert s == [s[0]] + s[1..];
  }

  lemma {:induction false} SortedUnique(s: seq<Range>, t: seq<Range>)
    requires Sorted(s) && Sorted(t) && multiset(s) == multiset(t)
    ensures s == t
    decreases |s|
  {
    assert |s| == |multiset(s)| == |multiset(t)| == |t|;
    if s != [] {
      assert s[0] in multiset(t) && t[0] in multiset(s);
      HeadAtMost(s, t[0]);
      HeadAtMost(t, s[0]);
      assert s[0] == t[0];
      hide AtMost;
      TailMultiset(s);
      TailMultiset(t);
      SortedUnique(s[1..], t[1..]);
      assert s == [s[0]] + s[1..] && t == [t[0]] + t[1..];
    }
  }

  // ---- the greedy pass ----

  function SaturatingSub(a: nat, b: nat): nat {
    if a < b then 0 else a - b
  }

  /** Overlapping or touching ranges always merge; others only across a small gap and
      within the span limit. */
  predicate Merges(last: Range, next: Range, maxGap: nat, maxSpan: nat) {
    || next.start <= last.end
    || (SaturatingSub(next.start, last.end) <= maxGap && SaturatingSub(next.end, last.start) <= maxSpan)
  }

  function Step(out: seq<Range>, next: Range, maxGap: nat, maxSpan: nat): seq<Range> {
    if out == [] then [next]
    else
      var last := out[|out| - 1];
      if Merges(last, next, maxGap, maxSpan) then out[..|out| - 1] + [Range(last.start, Max(last.end, next.end))]
      else out + [next]
  }

  function Greedy(sorted: seq<Range>, maxGap: nat, maxSpan: nat): seq<Range> {
    if sorted == [] then []
    else Step(Greedy(sorted[..|sorted| - 1], maxGap, maxSpan), sorted[|sorted| - 1], maxGap, maxSpan)
  }

  function Coalesced(ranges: seq<Range>, maxGap: nat, maxSpan: nat): seq<Range> {
    Greedy(SortRanges(ranges), maxGap, maxSpan)
  }

  /** `coalesce_object_ranges` */
  method CoalesceObjectRanges(ranges: seq<Range>, maxGap: nat, maxSpan: nat) returns (coalesced: seq<Range>)
    ensures coalesced == Coalesced(ranges, maxGap, maxSpan)
  {
    var sorted := SortRanges(ranges);
    coalesced := [];
    for i := 0 to |sorted|
      invariant coalesced == Greedy(sorted[..i], maxGap, maxSpan)
    {
      var range := sorted[i];
      assert sorted[..i + 1][..i] == sorted[..i];
      if coalesced == [] {
        coalesced := coalesced + [range];
      } else {
        var last := coalesced[|coalesced| - 1];
        var gap := SaturatingSub(range.start, last.end);
        var span := SaturatingSub(range.end, last.start);
        if range.start <= last.end || (gap <= maxGap && span <= maxSpan) {
          coalesced := coalesced[|coalesced| - 1 := Range(last.start, Max(last.end, range.end))];
        } else {
          coalesced := coalesced + [range];
        }
      }
    }
    assert sorted[..|sorted|] == sorted;
  }

  // ---- what the pass keeps ----

  predicate Inside(a: Range, b: Range) {
    b.start <= a.start && a.end <= b.end
  }

  predicate Holds(r: Range, x: nat) {
    r.start <= x < r.end
  }

  ghost predicate Covered(ranges: seq<Range>, x: nat) {
    exists i :: 0 <= i < |ranges| && Holds(ranges[i], x)
  }

  /** Sorted, with at least one uncovered byte between neighbours. */
  ghost predicate Separated(out: seq<Range>) {
    && (forall i :: 0 <= i < |out| ==> out[i].WellFormed())
    && (forall i, j :: 0 <= i < j < |out| ==> out[i].end < out[j].start)
  }

  /** Every range lies inside one of the outputs. */
  ghost predicate Kept(ranges: seq<Range>, out: seq<Range>) {
    forall i {:trigger InsideOne(ranges[i], out)} :: 0 <= i < |ranges| ==> InsideOne(ranges[i], out)
  }

  ghost predicate InsideOne(r: Range, out: seq<Range>) {
    exists k :: 0 <= k < |out| && Inside(r, out[k])
  }

  /** x lies in a gap free of ranges that runs from the end of one range to the start
      of another, and is at most maxGap long. */
  ghost predicate InBridgedGap(ranges: seq<Range>, x: nat, maxGap: nat) {
    exists i, j :: 0 <= i < |ranges| && 0 <= j < |ranges| && Bridges(ranges, ranges[i].end, ranges[j].start, x, maxGap)
  }

  ghost predicate Bridges(ranges: seq<Range>, from: nat, until: nat, x: nat, maxGap: nat) {
    from <= x < until && until - from <= maxGap && forall y :: from <= y < until ==> !Covered(ranges, y)
  }

  ghost predicate NothingWasted(ranges: seq<Range>, out: seq<Range>, maxGap: nat) {
    forall x :: Covered(out, x) ==> Covered(ranges, x) || InBridgedGap(ranges, x, maxGap)
  }

  /** Outputs start and end where ranges do. */
  ghost predicate Tight(ranges: seq<Range>, out: seq<Range>) {
    forall k {:trigger Spans(ranges, out[k])} :: 0 <= k < |out| ==> Spans(ranges, out[k])
  }

  ghost predicate Spans(ranges: seq<Range>, r: Range) {
    StartsOne(ranges, r.start) && EndsOne(ranges, r.end)
  }

  ghost predicate StartsOne(ranges: seq<Range>, x: nat) {
    exists i :: 0 <= i < |ranges| && ranges[i].start == x
  }

  ghost predicate EndsOne(ranges: seq<Range>, x: nat) {
    exists i :: 0 <= i < |ranges| && ranges[i].end == x
  }

  /** No two neighbours could still be merged. */
  ghost predicate Irreducible(out: seq<Range>, maxGap: nat, maxSpan: nat) {
    forall i :: 0 <= i < |out| - 1 ==> !MergesAt(out, i, maxGap, maxSpan)
  }

  predicate MergesAt(out: seq<Range>, i: nat, maxGap: nat, maxSpan: nat)
    requires i + 1 < |out|
  {
    Merges(out[i], out[i + 1], maxGap, maxSpan)
  }

  /** Everything the pass guarantees about the ranges it has seen. */
  ghost predicate PassOk(sorted: seq<Range>, out: seq<Range>, maxGap: nat, maxSpan: nat) {
    && Separated(out) && Kept(sorted, out) && Tight(sorted, out) && Irreducible(out, maxGap, maxSpan)
    && NothingWasted(sorted, out, maxGap) && (sorted == [] <==> out == [])
  }

  /** A new range no earlier than all others. */
  ghost predicate Next(sorted: seq<Range>, r: Range) {
    r.WellFormed() && forall i :: 0 <= i < |sorted| ==> sorted[i].WellFormed() && sorted[i].start <= r.start
  }

  lemma LastStart(sorted: seq<Range>, out: seq<Range>, r: Range, k: nat)
    requires Next(sorted, r) && Tight(sorted, out) && k < |out|
    ensures out[k].start <= r.start
  {
    assert Spans(sorted, out[k]);
  }

  lemma StepSeparates(sorted: seq<Range>, out: seq<Range>, r: Range, maxGap: nat, maxSpan: nat)
    requires Next(sorted, r) && Separated(out) && Tight(sorted, out) && Irreducible(out, maxGap, maxSpan)
    ensures Separated(Step(out, r, maxGap, maxSpan)) && Irreducible(Step(out, r, maxGap, maxSpan), maxGap, maxSpan)
  {
    if out != [] {
      var n := |out| - 1;
      LastStart(sorted, out, r, n);
      var after := Step(out, r, maxGap, maxSpan);
      forall i: nat | i < |after| - 1 ensures !MergesAt(after, i, maxGap, maxSpan) {
        if i < n { assert !MergesAt(out, i, maxGap, maxSpan); }
      }
    }
  }

  lemma StepKeeps(sorted: seq<Range>, out: seq<Range>, r: Range, maxGap: nat, maxSpan: nat)
    requires Next(sorted, r) && Kept(sorted, out) && Tight(sorted, out)
    ensures Kept(sorted + [r], Step(out, r, maxGap, maxSpan))
  {
    var after := Step(out, r, maxGap, maxSpan);
    forall i | 0 <= i < |sorted + [r]| ensures InsideOne((sorted + [r])[i], after) {
      if i < |sorted| {
        assert InsideOne(sorted[i], out);
        var k :| 0 <= k < |out| && Inside(sorted[i], out[k]);
        assert Inside(sorted[i], after[k]);
      } else {
        if out != [] { LastStart(sorted, out, r, |out| - 1); }
        assert Inside(r, after[|after| - 1]);
      }
    }
  }

  lemma EndsMore(sorted: seq<Range>, r: Range, x: nat)
    ensures StartsOne(sorted, x) ==> StartsOne(sorted + [r], x)
    ensures EndsOne(sorted, x) ==> EndsOne(sorted + [r], x)
  {
    forall i | 0 <= i < |sorted| ensures (sorted + [r])[i] == sorted[i] {}
    if StartsOne(sorted, x) {
      var i :| 0 <= i < |sorted| && sorted[i].start == x;
      assert (sorted + [r])[i].start == x;
    }
    if EndsOne(sorted, x) {
      var i :| 0 <= i < |sorted| && sorted[i].end == x;
      assert (sorted + [r])[i].end == x;
    }
  }

  lemma StepTight(sorted: seq<Range>, out: seq<Range>, r: Range, maxGap: nat, maxSpan: nat)
    requires Tight(sorted, out)
    ensures Tight(sorted + [r], Step(out, r, maxGap, maxSpan))
  {
    var after, more := Step(out, r, maxGap, maxSpan), sorted + [r];
    assert more[|sorted|] == r;
    forall k | 0 <= k < |after|
      ensures Spans(more, after[k])
    {
      if k < |out| {
        assert Spans(sorted, out[k]);
        EndsMore(sorted, r, out[k].start);
        EndsMore(sorted, r, out[k].end);
      }
    }
  }

  lemma CoveredMore(sorted: seq<Range>, r: Range, x: nat)
    ensures Covered(sorted + [r], x) <==> Covered(sorted, x) || Holds(r, x)
  {
    var more := sorted + [r];
    assert more[|sorted|] == r;
    if Covered(sorted, x) {
      var i :| 0 <= i < |sorted| && Holds(sorted[i], x);
      assert Holds(more[i], x);
    }
  }

  /** A bridged gap stays one: a later range starts at or after its end. */
  lemma GapStays(sorted: seq<Range>, r: Range, x: nat, maxGap: nat)
    requires Next(sorted, r) && InBridgedGap(sorted, x, maxGap)
    ensures InBridgedGap(sorted + [r], x, maxGap)
  {
    var i, j :| 0 <= i < |sorted| && 0 <= j < |sorted| && Bridges(sorted, sorted[i].end, sorted[j].start, x, maxGap);
    var more := sorted + [r];
    assert more[i] == sorted[i] && more[j] == sorted[j];
    forall y | sorted[i].end <= y < sorted[j].start ensures !Covered(more, y) {
      CoveredMore(sorted, r, y);
    }
    assert Bridges(more, more[i].end, more[j].start, x, maxGap);
  }

  /** Bytes past every output are past every range, too. */
  lemma PastAll(sorted: seq<Range>, out: seq<Range>, y: nat)
    requires Kept(sorted, out) && Separated(out) && out != [] && out[|out| - 1].end <= y
    ensures !Covered(sorted, y)
  {
    forall i | 0 <= i < |sorted| ensures !Holds(sorted[i], y) {
      assert InsideOne(sorted[i], out);
    }
  }

  lemma NewGap(sorted: seq<Range>, out: seq<Range>, r: Range, x: nat, maxGap: nat)
    requires Kept(sorted, out) && Separated(out) && Tight(sorted, out) && out != []
    requires out[|out| - 1].end <= x < r.start && r.start - out[|out| - 1].end <= maxGap
    ensures InBridgedGap(sorted + [r], x, maxGap)
  {
    var last, more := out[|out| - 1], sorted + [r];
    assert Spans(sorted, last);
    var i :| 0 <= i < |sorted| && sorted[i].end == last.end;
    assert more[i] == sorted[i] && more[|sorted|] == r;
    forall y | last.end <= y < r.start ensures !Covered(more, y) {
      PastAll(sorted, out, y);
      CoveredMore(sorted, r, y);
    }
    assert Bridges(more, more[i].end, more[|sorted|].start, x, maxGap);
  }

  lemma StepWastesNothing(sorted: seq<Range>, out: seq<Range>, r: Range, maxGap: nat, maxSpan: nat)
    requires Next(sorted, r) && Separated(out) && Kept(sorted, out) && Tight(sorted, out)
    requires NothingWasted(sorted, out, maxGap)
    ensures NothingWasted(sorted + [r], Step(out, r, maxGap, maxSpan), maxGap)
  {
    var after, more := Step(out, r, maxGap, maxSpan), sorted + [r];
    forall x | Covered(after, x) ensures Covered(more, x) || InBridgedGap(more, x, maxGap) {
      CoveredMore(sorted, r, x);
      var k :| 0 <= k < |after| && Holds(after[k], x);
      if Covered(out, x) {
        if !Covered(sorted, x) { GapStays(sorted, r, x, maxGap); }
      } else if !Holds(r, x) {
        assert k < |out| ==> !Holds(out[k], x);
        hide Kept, Tight, NothingWasted, InBridgedGap;
        NewGap(sorted, out, r, x, maxGap);
      }
    }
  }

  lemma StepKeepsPass(sorted: seq<Range>, out: seq<Range>, r: Range, maxGap: nat, maxSpan: nat)
    requires Next(sorted, r) && PassOk(sorted, out, maxGap, maxSpan)
    ensures PassOk(sorted + [r], Step(out, r, maxGap, maxSpan), maxGap, maxSpan)
  {
    hide Separated, Kept, Tight, Irreducible, NothingWasted, Next;
    StepSeparates(sorted, out, r, maxGap, maxSpan);
    StepKeeps(sorted, out, r, maxGap, maxSpan);
    StepTight(sorted, out, r, maxGap, maxSpan);
    StepWastesNothing(sorted, out, r, maxGap, maxSpan);
  }

  lemma {:induction false} GreedyPass(sorted: seq<Range>, maxGap: nat, maxSpan: nat)
    requires Sorted(sorted) && forall i :: 0 <= i < |sorted| ==> sorted[i].WellFormed()
    ensures PassOk(sorted, Greedy(sorted, maxGap, maxSpan), maxGap, maxSpan)
    decreases |sorted|
  {
    if sorted != [] {
      var front, r := sorted[..|sorted| - 1], sorted[|sorted| - 1];
      forall i | 0 <= i < |front| ensures front[i].start <= r.start { assert AtMost(sorted[i], sorted[|sorted| - 1]); }
      GreedyPass(front, maxGap, maxSpan);
      hide PassOk, Step;
      StepKeepsPass(front, Greedy(front, maxGap, maxSpan), r, maxGap, maxSpan);
      assert sorted == front + [r];
    }
  }

  // ---- the same, for ranges in any order ----

  lemma CoveredSame(a: seq<Range>, b: seq<Range>, x: nat)
    requires multiset(a) == multiset(b)
    ensures Covered(a, x) ==> Covered(b, x)
  {
    if Covered(a, x) {
      var i :| 0 <= i < |a| && Holds(a[i], x);
      assert a[i] in multiset(b);
      var j :| 0 <= j < |b| && b[j] == a[i];
      assert Holds(b[j], x);
    }
  }

  lemma GapSame(a: seq<Range>, b: seq<Range>, x: nat, maxGap: nat)
    requires multiset(a) == multiset(b) && InBridgedGap(a, x, maxGap)
    ensures InBridgedGap(b, x, maxGap)
  {
    var i, j :| 0 <= i < |a| && 0 <= j < |a| && Bridges(a, a[i].end, a[j].start, x, maxGap);
    assert a[i] in multiset(b) && a[j] in multiset(b);
    var k :| 0 <= k < |b| && b[k] == a[i];
    var m :| 0 <= m < |b| && b[m] == a[j];
    forall y | a[i].end <= y < a[j].start ensures !Covered(b, y) { CoveredSame(b, a, y); }
    assert Bridges(b, b[k].end, b[m].start, x, maxGap);
  }

  ghost predicate AllWellFormed(ranges: seq<Range>) {
    forall i :: 0 <= i < |ranges| ==> ranges[i].WellFormed()
  }

  /** Coalescing well-formed ranges, in any order: the outputs are sorted and strictly
      separated, every range lies inside one, and every extra byte lies in a bridged
      gap of at most maxGap bytes. */
  lemma CoalescingCovers(ranges: seq<Range>, maxGap: nat, maxSpan: nat)
    requires AllWellFormed(ranges)
    ensures var out := Coalesced(ranges, maxGap, maxSpan);
            && Separated(out) && Irreducible(out, maxGap, maxSpan)
            && Kept(ranges, out) && NothingWasted(ranges, out, maxGap)
  {
    var sorted := SortRanges(ranges);
    SortSorts(ranges);
    forall i | 0 <= i < |sorted| ensures sorted[i].WellFormed() {
      assert sorted[i] in multiset(ranges);
    }
    GreedyPass(sorted, maxGap, maxSpan);
    var out := Greedy(sorted, maxGap, maxSpan);
    hide Greedy, SortRanges, Separated, Irreducible, Sorted;
    forall i | 0 <= i < |ranges| ensures InsideOne(ranges[i], out) {
      assert ranges[i] in multiset(sorted);
      var j :| 0 <= j < |sorted| && sorted[j] == ranges[i];
      assert InsideOne(sorted[j], out);
    }
    forall x | Covered(out, x) ensures Covered(ranges, x) || InBridgedGap(ranges, x, maxGap) {
      if Covered(sorted, x) { CoveredSame(sorted, ranges, x); } else { GapSame(sorted, ranges, x, maxGap); }
    }
  }

  /** The order in which ranges are given does not matter. */
  lemma OrderDoesNotMatter(a: seq<Range>, b: seq<Range>, maxGap: nat, maxSpan: nat)
    requires multiset(a) == multiset(b)
    ensures Coalesced(a, maxGap, maxSpan) == Coalesced(b, maxGap, maxSpan)
  {
    SortSorts(a);
    SortSorts(b);
    SortedUnique(SortRanges(a), SortRanges(b));
  }

  lemma {:induction false} GreedyFixed(s: seq<Range>, maxGap: nat, maxSpan: nat)
    requires Irreducible(s, maxGap, maxSpan)
    ensures Greedy(s, maxGap, maxSpan) == s
    decreases |s|
  {
    if s != [] {
      var front := s[..|s| - 1];
      forall i: nat | i < |front| - 1 ensures !MergesAt(front, i, maxGap, maxSpan) {
        assert !MergesAt(s, i, maxGap, maxSpan);
      }
      GreedyFixed(front, maxGap, maxSpan);
      if |s| > 1 { assert !MergesAt(s, |s| - 2, maxGap, maxSpan); }
    }
  }

  /** Coalescing what is already coalesced changes nothing. */
  lemma CoalescingIdempotent(ranges: seq<Range>, maxGap: nat, maxSpan: nat)
    requires AllWellFormed(ranges)
    ensures var out := Coalesced(ranges, maxGap, maxSpan); Coalesced(out, maxGap, maxSpan) == out
  {
    var out := Coalesced(ranges, maxGap, maxSpan);
    CoalescingCovers(ranges, maxGap, maxSpan);
    hide Coalesced, Kept, NothingWasted, Irreducible, Greedy, SortRanges;
    forall i, j | 0 <= i < j < |out| ensures AtMost(out[i], out[j]) {
      assert out[i].WellFormed() && out[j].WellFormed() && out[i].end < out[j].start;
    }
    SortSorts(out);
    SortedUnique(SortRanges(out), out);
    GreedyFixed(out, maxGap, maxSpan);
    CoalescedIs(out, maxGap, maxSpan);
  }

  lemma CoalescedIs(ranges: seq<Range>, maxGap: nat, maxSpan: nat)
    ensures Coalesced(ranges, maxGap, maxSpan) == Greedy(SortRanges(ranges), maxGap, maxSpan)
  {
  }

  /** Each output lies within the bounds the inputs lie in. */
  lemma CoalescedWithin(ranges: seq<Range>, maxGap: nat, maxSpan: nat, length: nat)
    requires AllWellFormed(ranges) && forall i :: 0 <= i < |ranges| ==> ranges[i].end <= length
    ensures var out := Coalesced(ranges, maxGap, maxSpan);
            forall k :: 0 <= k < |out| ==> out[k].start <= out[k].end <= length
  {
    var sorted := SortRanges(ranges);
    SortSorts(ranges);
    forall i | 0 <= i < |sorted| ensures sorted[i].WellFormed() && sorted[i].end <= length {
      assert sorted[i] in multiset(ranges);
      var j :| 0 <= j < |ranges| && ranges[j] == sorted[i];
    }
    GreedyPass(sorted, maxGap, maxSpan);
    var out := Coalesced(ranges, maxGap, maxSpan);
    forall k | 0 <= k < |out| ensures out[k].start <= out[k].end <= length {
      assert Spans(sorted, out[k]) && out[k].WellFormed();
    }
  }
}
