/** Per-segment aggregates of a flat column, and the theorem that they add up. */
module Aggregates {
  import opened Machine
  import opened Bits
  import opened LittleEndian
  import opened Scalars
  import opened Nested
  import opened RowOrder
  import opened Segments
  import opened Keys

  // ---- per-row measures ----

  function NullMeasure(c: ConvertedColumn): nat -> int
    requires ColumnOk(c)
  {
    (row: nat) => if row < RowsOf(c) && c.data.nulls[row] then 1 else 0
  }

  function KeyMeasure(c: ConvertedColumn, key: u64): nat -> int
    requires ColumnOk(c)
  {
    (row: nat) => if row < RowsOf(c) && KeyAt(c, row) == Some(key) then 1 else 0
  }

  function KeyedMeasure(c: ConvertedColumn): nat -> int
    requires ColumnOk(c)
  {
    (row: nat) => if row < RowsOf(c) && KeyAt(c, row).Some? then 1 else 0
  }

  /** Non-null rows of a Boolean column that are, or are not, true. */
  function BoolMeasure(c: ConvertedColumn, wanted: bool): nat -> int
    requires ColumnOk(c)
  {
    (row: nat) =>
      if row < RowsOf(c) && !c.nested && c.data.vals.Booleans? && !c.data.nulls[row]
         && (c.data.vals.flags[row] != 0) == wanted then 1 else 0
  }

  /** A column total measured row by row. */
  function Total(f: nat -> int, rows: seq<nat>): int {
    if rows == [] then 0 else Total(f, rows[..|rows| - 1]) + f(rows[|rows| - 1])
  }

  lemma TotalSnoc(f: nat -> int, rows: seq<nat>, row: nat)
    ensures Total(f, rows + [row]) == Total(f, rows) + f(row)
  {
    assert (rows + [row])[..|rows|] == rows;
  }

  function NonNullRows(c: ConvertedColumn, lo: nat, hi: nat): (r: seq<nat>)
    requires ColumnOk(c) && lo <= hi <= RowsOf(c)
    ensures forall i :: 0 <= i < |r| ==> lo <= r[i] < hi && !c.data.nulls[r[i]]
    ensures |r| <= hi - lo
    decreases hi
  {
    if lo == hi then []
    else NonNullRows(c, lo, hi - 1) + if c.data.nulls[hi - 1] then [] else [hi - 1]
  }

  /** Null and non-null rows make up the range. */
  lemma {:induction false} NullsAndOthers(c: ConvertedColumn, lo: nat, hi: nat)
    requires ColumnOk(c) && lo <= hi <= RowsOf(c)
    ensures RowSum(NullMeasure(c), lo, hi) + |NonNullRows(c, lo, hi)| == hi - lo
    decreases hi
  {
    if lo < hi { NullsAndOthers(c, lo, hi - 1); }
  }

  /** A measure that is zero on nulls totals the same over the non-null rows. */
  lemma {:induction false} TotalOverNonNull(c: ConvertedColumn, f: nat -> int, lo: nat, hi: nat)
    requires ColumnOk(c) && lo <= hi <= RowsOf(c)
    requires forall row: nat :: row < RowsOf(c) && c.data.nulls[row] ==> f(row) == 0
    ensures Total(f, NonNullRows(c, lo, hi)) == RowSum(f, lo, hi)
    decreases hi
  {
    if lo < hi {
      TotalOverNonNull(c, f, lo, hi - 1);
      var front := NonNullRows(c, lo, hi - 1);
      assert RowSum(f, lo, hi) == RowSum(f, lo, hi - 1) + f(hi - 1);
      if c.data.nulls[hi - 1] {
        assert NonNullRows(c, lo, hi) == front && f(hi - 1) == 0;
      } else {
        assert NonNullRows(c, lo, hi) == front + [hi - 1];
        hide *;
        TotalSnoc(f, front, hi - 1);
      }
    }
  }

  /** `aggregate_segment_counts` */
  method SegmentCounts(c: ConvertedColumn, s: SegmentLayout) returns (r: Result<(nat, nat, seq<nat>)>)
    requires ColumnOk(c) && s.rowStart + s.rowCount <= RowsOf(c)
    ensures s.rowCount > U32_MAX ==> r == Err(ArithOverflow)
    ensures s.rowCount <= U32_MAX ==>
              var lo, hi := s.rowStart, s.rowStart + s.rowCount;
              && r.Ok? && r.value.0 == s.rowCount && r.value.1 == RowSum(NullMeasure(c), lo, hi)
              && r.value.2 == NonNullRows(c, lo, hi) && r.value.0 == r.value.1 + |r.value.2|
  {
    var lo, hi := s.rowStart, s.rowStart + s.rowCount;
    if s.rowCount > U32_MAX { return Err(ArithOverflow); }
    var nonNull: seq<nat> := [];
    var nullCount := 0;
    for row := lo to hi
      invariant nonNull == NonNullRows(c, lo, row) && nullCount == RowSum(NullMeasure(c), lo, row)
    {
      NullsAndOthers(c, lo, row);
      NullsAndOthers(c, lo, row + 1);
      if c.data.nulls[row] {
        if nullCount == U32_MAX { return Err(ArithOverflow); }
        nullCount := nullCount + 1;
      } else {
        nonNull := nonNull + [row];
      }
    }
    NullsAndOthers(c, lo, hi);
    return Ok((s.rowCount, nullCount, nonNull));
  }

  /** `aggregate_bool_counts_payload`: how many are true and how many false. */
  method BoolCounts(c: ConvertedColumn, lo: nat, hi: nat) returns (r: Option<(nat, nat)>)
    requires ColumnOk(c) && lo <= hi <= RowsOf(c)
    ensures r.Some? <==> !c.nested && c.data.vals.Booleans?
    ensures r.Some? ==>
              && r.value.0 == RowSum(BoolMeasure(c, true), lo, hi) && r.value.1 == RowSum(BoolMeasure(c, false), lo, hi)
              && r.value.0 + r.value.1 == |NonNullRows(c, lo, hi)|
  {
    if c.nested { return None; }
    if !c.data.vals.Booleans? { return None; }
    var rows := NonNullRows(c, lo, hi);
    var trueCount, falseCount := 0, 0;
    for i := 0 to |rows|
      invariant trueCount == Total(BoolMeasure(c, true), rows[..i])
      invariant falseCount == Total(BoolMeasure(c, false), rows[..i]) && trueCount + falseCount == i
    {
      assert rows[..i + 1] == rows[..i] + [rows[i]];
      TotalSnoc(BoolMeasure(c, true), rows[..i], rows[i]);
      TotalSnoc(BoolMeasure(c, false), rows[..i], rows[i]);
      if c.data.vals.flags[rows[i]] == 0 { falseCount := falseCount + 1; } else { trueCount := trueCount + 1; }
    }
    assert rows[..|rows|] == rows;
    TotalOverNonNull(c, BoolMeasure(c, true), lo, hi);
    TotalOverNonNull(c, BoolMeasure(c, false), lo, hi);
    return Some((trueCount, falseCount));
  }

  // ---- sums ----

  datatype SumKind = SignedSum(bits: nat) | UnsignedSum(bits: nat) | DecimalSum | NoSum

  function SumKindOf(c: ConvertedColumn): SumKind
    requires ColumnOk(c)
  {
    if c.nested then NoSum
    else if c.data.vals.NumCodes? then
      match c.logical
      case Int8 => SignedSum(8)
      case Int16 => SignedSum(16)
      case Int32 => SignedSum(32)
      case Int64 => SignedSum(64)
      case UInt8 => UnsignedSum(8)
      case UInt16 => UnsignedSum(16)
      case UInt32 => UnsignedSum(32)
      case UInt64 => UnsignedSum(64)
      case _ => NoSum
    else if c.data.vals.FixedByteRows? && c.logical == Decimal128 then DecimalSum
    else NoSum
  }

  function SumValue(c: ConvertedColumn, row: nat): int
    requires ColumnOk(c) && row < RowsOf(c) && SumKindOf(c) != NoSum
  {
    match SumKindOf(c)
    case SignedSum(bits) => LowSigned(c.data.vals.nums[row], bits)
    case UnsignedSum(bits) => c.data.vals.nums[row] % Pow2(bits)
    case DecimalSum => SignedLe(c.data.vals.fixed[row])
  }

  function SumMeasure(c: ConvertedColumn): nat -> int
    requires ColumnOk(c)
  {
    (row: nat) => if row < RowsOf(c) && SumKindOf(c) != NoSum && !c.data.nulls[row] then SumValue(c, row) else 0
  }

  const I128_MAX: nat := 0x7FFF_FFFF_FFFF_FFFF_FFFF_FFFF_FFFF_FFFF
  const U128_MAX: nat := 0xFFFF_FFFF_FFFF_FFFF_FFFF_FFFF_FFFF_FFFF

  predicate InI128(x: int) {
    -(I128_MAX + 1) <= x <= I128_MAX
  }

  predicate InI64(x: int) {
    -(I64_MAX + 1) <= x <= I64_MAX
  }

  /** Decimal values must be 16 bytes wide. */
  predicate WidthOk(c: ConvertedColumn, row: nat)
    requires ColumnOk(c) && row < RowsOf(c)
  {
    SumKindOf(c).DecimalSum? ==> |c.data.vals.fixed[row]| == 16
  }

  /** No prefix of the accumulation leaves 128 bits, and Decimal values are 16 bytes. */
  ghost predicate Accumulates(c: ConvertedColumn, rows: seq<nat>)
    requires ColumnOk(c) && forall i :: 0 <= i < |rows| ==> rows[i] < RowsOf(c)
  {
    && (forall i :: 0 <= i < |rows| ==> WidthOk(c, rows[i]))
    && forall i :: 0 <= i <= |rows| ==> PrefixFits(c, rows, i)
  }

  /** The accumulator is u128 for unsigned sums and i128 otherwise. */
  predicate SumFits(kind: SumKind, sum: int) {
    if kind.UnsignedSum? then 0 <= sum <= U128_MAX else InI128(sum)
  }

  ghost predicate PrefixFits(c: ConvertedColumn, rows: seq<nat>, i: nat)
    requires ColumnOk(c) && i <= |rows|
  {
    SumFits(SumKindOf(c), Total(SumMeasure(c), rows[..i]))
  }

  /** The final conversion: i64 and u64 for integers, none for decimals. */
  predicate ResultFits(kind: SumKind, sum: int) {
    match kind
    case SignedSum(_) => InI64(sum)
    case UnsignedSum(_) => 0 <= sum <= U64_MAX
    case _ => true
  }

  /** `checked_numeric_sum`: one checked 128-bit addition per non-null row. */
  method CheckedSum(c: ConvertedColumn, lo: nat, hi: nat) returns (r: Result<Option<int>>)
    requires ColumnOk(c) && lo <= hi <= RowsOf(c)
    ensures SumKindOf(c) == NoSum ==> r == Ok(None)
    ensures SumKindOf(c) != NoSum ==>
              && (r.Ok? <==> Accumulates(c, NonNullRows(c, lo, hi))
                             && ResultFits(SumKindOf(c), RowSum(SumMeasure(c), lo, hi)))
              && (r.Ok? ==> r.value == Some(RowSum(SumMeasure(c), lo, hi)))
  {
    var kind := SumKindOf(c);
    if kind == NoSum { return Ok(None); }
    var rows := NonNullRows(c, lo, hi);
    TotalOverNonNull(c, SumMeasure(c), lo, hi);
    var sum := 0;
    SumStarts(c, rows);
    hide *;
    for i := 0 to |rows|
      invariant Summing(c, rows, i, sum)
    {
      SumStep(c, rows, i, sum);
      if !WidthOk(c, rows[i]) { return Err(BadSchema); }
      sum := sum + SumValue(c, rows[i]);
      if !SumFits(kind, sum) { return Err(ArithOverflow); }
    }
    SumEnds(c, rows, sum);
    if !ResultFits(kind, sum) { return Err(ArithOverflow); }
    return Ok(Some(sum));
  }

  /** The first `i` rows are summed, and nothing overflowed on the way. */
  ghost predicate Summing(c: ConvertedColumn, rows: seq<nat>, i: nat, sum: int)
    requires ColumnOk(c) && forall j :: 0 <= j < |rows| ==> rows[j] < RowsOf(c)
  {
    && i <= |rows| && sum == Total(SumMeasure(c), rows[..i])
    && (forall j :: 0 <= j < i ==> WidthOk(c, rows[j])) && (forall j :: 0 <= j <= i ==> PrefixFits(c, rows, j))
  }

  lemma SumStarts(c: ConvertedColumn, rows: seq<nat>)
    requires ColumnOk(c) && forall j :: 0 <= j < |rows| ==> rows[j] < RowsOf(c)
    ensures Summing(c, rows, 0, 0)
  {
    assert rows[..0] == [];
  }

  lemma SumStep(c: ConvertedColumn, rows: seq<nat>, i: nat, sum: int)
    requires ColumnOk(c) && forall j :: 0 <= j < |rows| ==> rows[j] < RowsOf(c) && !c.data.nulls[rows[j]]
    requires SumKindOf(c) != NoSum && i < |rows| && Summing(c, rows, i, sum)
    ensures !WidthOk(c, rows[i]) ==> !Accumulates(c, rows)
    ensures var next := sum + SumValue(c, rows[i]);
            && (!SumFits(SumKindOf(c), next) ==> !Accumulates(c, rows))
            && (WidthOk(c, rows[i]) && SumFits(SumKindOf(c), next) ==> Summing(c, rows, i + 1, next))
  {
    assert rows[..i + 1] == rows[..i] + [rows[i]];
    TotalSnoc(SumMeasure(c), rows[..i], rows[i]);
    hide SumValue, Total, WidthOk, SumFits;
    assert PrefixFits(c, rows, i + 1) <==> SumFits(SumKindOf(c), sum + SumValue(c, rows[i]));
    hide PrefixFits, ColumnOk, SumKindOf, SumMeasure;
  }

  lemma SumEnds(c: ConvertedColumn, rows: seq<nat>, sum: int)
    requires ColumnOk(c) && forall j :: 0 <= j < |rows| ==> rows[j] < RowsOf(c)
    requires Summing(c, rows, |rows|, sum)
    ensures Accumulates(c, rows) && sum == Total(SumMeasure(c), rows)
  {
    assert rows[..|rows|] == rows;
  }

  lemma ValueInRange(c: ConvertedColumn, row: nat)
    requires ColumnOk(c) && row < RowsOf(c) && (SumKindOf(c).SignedSum? || SumKindOf(c).UnsignedSum?)
    ensures SumKindOf(c).SignedSum? ==> InI64(SumValue(c, row))
    ensures SumKindOf(c).UnsignedSum? ==> 0 <= SumValue(c, row) <= U64_MAX
  {
    match SumKindOf(c)
    case SignedSum(bits) => LowBitsInRange(c.data.vals.nums[row], bits);
    case UnsignedSum(bits) => LowBitsInRange(c.data.vals.nums[row], bits);
    case _ =>
  }

  lemma LowBitsInRange(v: u64, bits: nat)
    requires bits == 8 || bits == 16 || bits == 32 || bits == 64
    ensures InI64(LowSigned(v, bits)) && 0 <= v % Pow2(bits) <= U64_MAX
  {
    Widths();
    HalfWidths();
  }

  lemma {:induction false} TotalBounded(c: ConvertedColumn, rows: seq<nat>)
    requires ColumnOk(c) && (SumKindOf(c).SignedSum? || SumKindOf(c).UnsignedSum?)
    requires forall i :: 0 <= i < |rows| ==> rows[i] < RowsOf(c)
    ensures SumKindOf(c).SignedSum? ==>
      -0x8000_0000_0000_0000 * |rows| <= Total(SumMeasure(c), rows) <= I64_MAX * |rows|
    ensures SumKindOf(c).UnsignedSum? ==> 0 <= Total(SumMeasure(c), rows) <= U64_MAX * |rows|
    decreases |rows|
  {
    if rows != [] {
      var front, last := rows[..|rows| - 1], rows[|rows| - 1];
      TotalBounded(c, front);
      ValueInRange(c, last);
      hide SumValue, SumKindOf;
    }
  }

  /** With u32-bounded ranges the 128-bit accumulator cannot overflow, so an integer
      sum succeeds exactly when the exact sum fits 64 bits. */
  lemma IntegerSumsAccumulate(c: ConvertedColumn, lo: nat, hi: nat)
    requires ColumnOk(c) && lo <= hi <= RowsOf(c) && hi - lo <= U32_MAX
    requires SumKindOf(c).SignedSum? || SumKindOf(c).UnsignedSum?
    ensures Accumulates(c, NonNullRows(c, lo, hi))
  {
    var rows := NonNullRows(c, lo, hi);
    assert forall i :: 0 <= i < |rows| ==> WidthOk(c, rows[i]);
    forall i | 0 <= i <= |rows| ensures PrefixFits(c, rows, i) {
      TotalBounded(c, rows[..i]);
    }
  }

  // ---- minimum and maximum ----

  /** `supports_exact_min_max` */
  predicate HasMinMax(c: ConvertedColumn)
    requires ColumnOk(c)
  {
    && !c.nested && (c.data.vals.Booleans? || c.data.vals.NumCodes? || c.data.vals.FixedByteRows?)
    && c.logical != Float32 && c.logical != Float64
  }

  /** Among the first k rows the i-th holds the least value, and is the first to do so. */
  ghost predicate LeastAt(c: ConvertedColumn, rows: seq<nat>, k: nat, i: nat)
    requires ColumnOk(c) && (forall j :: 0 <= j < |rows| ==> rows[j] < RowsOf(c)) && k <= |rows|
  {
    && i < k && (forall j :: 0 <= j < k ==> CompareRows(c, rows[j], rows[i]) != Less)
    && (forall j :: 0 <= j < i ==> CompareRows(c, rows[j], rows[i]) == Greater)
  }

  ghost predicate GreatestAt(c: ConvertedColumn, rows: seq<nat>, k: nat, i: nat)
    requires ColumnOk(c) && (forall j :: 0 <= j < |rows| ==> rows[j] < RowsOf(c)) && k <= |rows|
  {
    && i < k && (forall j :: 0 <= j < k ==> CompareRows(c, rows[j], rows[i]) != Greater)
    && (forall j :: 0 <= j < i ==> CompareRows(c, rows[j], rows[i]) == Less)
  }

  /** The rows holding the least and the greatest value; of equal values the first row. */
  ghost predicate MinMaxOf(c: ConvertedColumn, rows: seq<nat>, r: Option<(nat, nat)>)
    requires ColumnOk(c) && forall j :: 0 <= j < |rows| ==> rows[j] < RowsOf(c)
  {
    if rows == [] then r.None?
    else
      && r.Some? && (exists i: nat :: LeastAt(c, rows, |rows|, i) && r.value.0 == rows[i])
      && (exists i: nat :: GreatestAt(c, rows, |rows|, i) && r.value.1 == rows[i])
  }

  lemma ExtremesStep(c: ConvertedColumn, rows: seq<nat>, k: nat, min: nat, max: nat)
    requires ColumnOk(c) && (forall j :: 0 <= j < |rows| ==> rows[j] < RowsOf(c)) && k < |rows|
    requires LeastAt(c, rows, k, min) && GreatestAt(c, rows, k, max)
    ensures LeastAt(c, rows, k + 1, if CompareRows(c, rows[k], rows[min]) == Less then k else min)
    ensures GreatestAt(c, rows, k + 1, if CompareRows(c, rows[k], rows[max]) == Greater then k else max)
  {
    hide CompareRows;
    var row := rows[k];
    RowsFlip(c, row, row);
    forall j | 0 <= j < k
      ensures CompareRows(c, row, rows[min]) == Less ==> CompareRows(c, rows[j], row) == Greater
      ensures CompareRows(c, row, rows[max]) == Greater ==> CompareRows(c, rows[j], row) == Less
    {
      RowsCompose(c, row, rows[min], rows[j]);
      RowsCompose(c, row, rows[max], rows[j]);
      RowsFlip(c, rows[j], rows[min]);
      RowsFlip(c, rows[j], rows[max]);
      RowsFlip(c, row, rows[j]);
    }
  }

  /** `aggregate_min_max_payload`, by row. */
  method MinMaxRows(c: ConvertedColumn, rows: seq<nat>) returns (r: Option<(nat, nat)>)
    requires ColumnOk(c) && forall i :: 0 <= i < |rows| ==> rows[i] < RowsOf(c)
    ensures MinMaxOf(c, rows, r)
  {
    if rows == [] { return None; }
    var minRow, maxRow := rows[0], rows[0];
    ghost var min, max := 0, 0;
    RowsFlip(c, rows[0], rows[0]);
    for k := 1 to |rows|
      invariant LeastAt(c, rows, k, min) && minRow == rows[min]
      invariant GreatestAt(c, rows, k, max) && maxRow == rows[max]
    {
      hide CompareRows, LeastAt, GreatestAt;
      var row := rows[k];
      LeastIn(c, rows, k, min, max);
      ExtremesStep(c, rows, k, min, max);
      if CompareRows(c, row, minRow) == Less { minRow, min := row, k; }
      if CompareRows(c, row, maxRow) == Greater { maxRow, max := row, k; }
    }
    return Some((minRow, maxRow));
  }

  lemma LeastIn(c: ConvertedColumn, rows: seq<nat>, k: nat, min: nat, max: nat)
    requires ColumnOk(c) && (forall j :: 0 <= j < |rows| ==> rows[j] < RowsOf(c)) && k <= |rows|
    requires LeastAt(c, rows, k, min) && GreatestAt(c, rows, k, max)
    ensures min < k && max < k
  {
  }

  // ---- histograms and top keys ----

  datatype Bucket = Bucket(key: u64, count: nat)

  function BucketsFor(c: ConvertedColumn, lo: nat, hi: nat, keys: seq<u64>): (r: seq<Bucket>)
    requires ColumnOk(c) && lo <= hi <= RowsOf(c)
    ensures |r| == |keys|
  {
    seq(|keys|, i requires 0 <= i < |keys| => Bucket(keys[i], |RowsWithKey(c, lo, hi, keys[i])|))
  }

  /** The histogram of a range: every key that occurs, with its number of rows. */
  function Histogram(c: ConvertedColumn, lo: nat, hi: nat): seq<Bucket>
    requires ColumnOk(c) && lo <= hi <= RowsOf(c)
  {
    BucketsFor(c, lo, hi, Sorted(KeySet(c, lo, hi)))
  }

  /** The counting map after the rows before `hi`. */
  ghost predicate Counted(c: ConvertedColumn, lo: nat, hi: nat, counts: map<u64, nat>)
    requires ColumnOk(c) && lo <= hi <= RowsOf(c)
  {
    && counts.Keys == KeySet(c, lo, hi)
    && forall key :: key in counts ==> counts[key] == |RowsWithKey(c, lo, hi, key)|
  }

  /** `entry(key).or_default()` */
  function Slot(counts: map<u64, nat>, key: u64): nat {
    if key in counts then counts[key] else 0
  }

  function Bump(counts: map<u64, nat>, key: u64): map<u64, nat> {
    counts[key := Slot(counts, key) + 1]
  }

  lemma CountStep(c: ConvertedColumn, lo: nat, hi: nat, counts: map<u64, nat>)
    requires ColumnOk(c) && lo <= hi < RowsOf(c) && Counted(c, lo, hi, counts)
    ensures KeyAt(c, hi).None? ==> Counted(c, lo, hi + 1, counts)
    ensures KeyAt(c, hi).Some? ==>
              var key := KeyAt(c, hi).value;
              Counted(c, lo, hi + 1, Bump(counts, key))
  {
    hide KeyAt, ColumnOk;
  }

  lemma {:induction false} CountsBounded(c: ConvertedColumn, lo: nat, hi: nat, key: u64)
    requires ColumnOk(c) && lo <= hi <= RowsOf(c)
    ensures |RowsWithKey(c, lo, hi, key)| == RowSum(KeyMeasure(c, key), lo, hi) <= hi - lo
    decreases hi
  {
    if lo < hi { CountsBounded(c, lo, hi - 1, key); }
  }

  function BucketsOf(counts: map<u64, nat>): seq<Bucket> {
    var keys := Sorted(counts.Keys);
    SortedExact(counts.Keys);
    seq(|keys|, i requires 0 <= i < |keys| => Bucket(keys[i], counts[keys[i]]))
  }

  lemma CountingEnds(c: ConvertedColumn, lo: nat, hi: nat, counts: map<u64, nat>)
    requires ColumnOk(c) && lo <= hi <= RowsOf(c) && Counted(c, lo, hi, counts)
    ensures BucketsOf(counts) == Histogram(c, lo, hi)
  {
    SortedExact(counts.Keys);
    var keys := Sorted(counts.Keys);
    forall i | 0 <= i < |keys| ensures counts[keys[i]] == |RowsWithKey(c, lo, hi, keys[i])| {
      assert keys[i] in keys;
    }
  }

  /** The counting loop; u64 counters cannot overflow on a range of u32 size. */
  method CountKeys(c: ConvertedColumn, lo: nat, hi: nat) returns (counts: map<u64, nat>, keyless: bool)
    requires ColumnOk(c) && lo <= hi <= RowsOf(c) && hi - lo <= U32_MAX
    ensures keyless ==> !Keyable(c)
    ensures !keyless ==> Counted(c, lo, hi, counts)
  {
    hide *;
    counts := map[];
    CountingStarts(c, lo);
    for row := lo to hi
      invariant Counted(c, lo, row, counts)
    {
      CountStep(c, lo, row, counts);
      var key := KeyAt(c, row);
      if key.Some? {
        SlotBounded(c, lo, row, counts, key.value);
        counts := Bump(counts, key.value);
      } else if !IsNullRow(c, row) {
        return counts, true;
      }
    }
    return counts, false;
  }

  /** `aggregate_key_counts` over the non-null rows of a range. */
  method KeyCounts(c: ConvertedColumn, lo: nat, hi: nat) returns (buckets: seq<Bucket>)
    requires ColumnOk(c) && lo <= hi <= RowsOf(c) && hi - lo <= U32_MAX
    ensures buckets == Histogram(c, lo, hi)
  {
    var counts, keyless := CountKeys(c, lo, hi);
    if keyless {
      EmptyHistogram(c, lo, hi);
      return [];
    }
    CountingEnds(c, lo, hi, counts);
    return BucketsOf(counts);
  }

  predicate IsNullRow(c: ConvertedColumn, row: nat)
    requires row < RowsOf(c)
  {
    c.data.nulls[row]
  }

  lemma CountingStarts(c: ConvertedColumn, lo: nat)
    requires ColumnOk(c) && lo <= RowsOf(c)
    ensures Counted(c, lo, lo, map[])
    ensures forall row: nat :: row < RowsOf(c) && IsNullRow(c, row) ==> KeyAt(c, row).None?
    ensures forall row: nat :: row < RowsOf(c) && !IsNullRow(c, row) && KeyAt(c, row).None? ==> !Keyable(c)
  {
    assert KeySet(c, lo, lo) == {};
  }

  lemma EmptyHistogram(c: ConvertedColumn, lo: nat, hi: nat)
    requires ColumnOk(c) && lo <= hi <= RowsOf(c) && !Keyable(c)
    ensures Histogram(c, lo, hi) == []
  {
    NoKeysInRange(c, lo, hi);
  }

  lemma SlotBounded(c: ConvertedColumn, lo: nat, hi: nat, counts: map<u64, nat>, key: u64)
    requires ColumnOk(c) && lo <= hi <= RowsOf(c) && Counted(c, lo, hi, counts) && hi - lo <= U32_MAX
    ensures Slot(counts, key) != U64_MAX
  {
    CountsBounded(c, lo, hi, key);
  }

  lemma {:induction false} NoKeysInRange(c: ConvertedColumn, lo: nat, hi: nat)
    requires ColumnOk(c) && lo <= hi <= RowsOf(c) && !Keyable(c)
    ensures KeySet(c, lo, hi) == {} && Histogram(c, lo, hi) == []
    decreases hi
  {
    if lo < hi { NoKeysInRange(c, lo, hi - 1); }
  }

  function CountTotal(c: ConvertedColumn, lo: nat, hi: nat, keys: seq<u64>): nat
    requires ColumnOk(c) && lo <= hi <= RowsOf(c)
  {
    if keys == [] then 0 else |RowsWithKey(c, lo, hi, keys[0])| + CountTotal(c, lo, hi, keys[1..])
  }

  /** One more row adds one to the counts of its key alone. */
  lemma {:induction false} CountTotalStep(c: ConvertedColumn, lo: nat, hi: nat, keys: seq<u64>)
    requires ColumnOk(c) && lo < hi <= RowsOf(c) && Ascending(keys)
    ensures CountTotal(c, lo, hi, keys) == CountTotal(c, lo, hi - 1, keys)
              + if KeyAt(c, hi - 1).Some? && KeyAt(c, hi - 1).value in keys then 1 else 0
    decreases |keys|
  {
    if keys != [] {
      CountTotalStep(c, lo, hi, keys[1..]);
      assert forall x: u64 :: x in keys <==> x == keys[0] || x in keys[1..];
      hide KeyAt, ColumnOk;
    }
  }

  lemma {:induction false} CountTotalAll(c: ConvertedColumn, lo: nat, hi: nat, keys: seq<u64>)
    requires ColumnOk(c) && lo <= hi <= RowsOf(c) && Ascending(keys)
    requires forall key :: key in KeySet(c, lo, hi) ==> key in keys
    ensures CountTotal(c, lo, hi, keys) == RowSum(KeyedMeasure(c), lo, hi)
    decreases hi
  {
    if lo < hi {
      CountTotalAll(c, lo, hi - 1, keys);
      CountTotalStep(c, lo, hi, keys);
    } else {
      NoCounts(c, lo, keys);
    }
  }

  lemma {:induction false} NoCounts(c: ConvertedColumn, lo: nat, keys: seq<u64>)
    requires ColumnOk(c) && lo <= RowsOf(c)
    ensures CountTotal(c, lo, lo, keys) == 0
    decreases |keys|
  {
    if keys != [] { NoCounts(c, lo, keys[1..]); }
  }

  /** Histogram keys strictly ascend, every listed count is positive and exact, and
      the counts of a keyable column total its non-null rows. */
  lemma HistogramExact(c: ConvertedColumn, lo: nat, hi: nat)
    requires ColumnOk(c) && lo <= hi <= RowsOf(c)
    ensures var h := Histogram(c, lo, hi);
            && (forall i, j :: 0 <= i < j < |h| ==> h[i].key < h[j].key)
            && (forall i :: 0 <= i < |h| ==> 0 < h[i].count == RowSum(KeyMeasure(c, h[i].key), lo, hi))
    ensures CountTotal(c, lo, hi, Sorted(KeySet(c, lo, hi))) == RowSum(KeyedMeasure(c), lo, hi)
    ensures Keyable(c) ==> RowSum(KeyedMeasure(c), lo, hi) == |NonNullRows(c, lo, hi)|
  {
    hide RowSum, KeyMeasure, KeyedMeasure, Sorted, KeySet, CountTotal, NonNullRows, RowsWithKey;
    var keys := Sorted(KeySet(c, lo, hi));
    SortedExact(KeySet(c, lo, hi));
    CountTotalAll(c, lo, hi, keys);
    forall i | 0 <= i < |keys|
      ensures 0 < |RowsWithKey(c, lo, hi, keys[i])| == RowSum(KeyMeasure(c, keys[i]), lo, hi)
    {
      assert keys[i] in keys;
      CountsBounded(c, lo, hi, keys[i]);
    }
    if Keyable(c) { KeyedAreNonNull(c, lo, hi); }
  }

  lemma {:induction false} KeyedAreNonNull(c: ConvertedColumn, lo: nat, hi: nat)
    requires ColumnOk(c) && lo <= hi <= RowsOf(c) && Keyable(c)
    ensures RowSum(KeyedMeasure(c), lo, hi) == |NonNullRows(c, lo, hi)|
    decreases hi
  {
    if lo < hi { KeyedAreNonNull(c, lo, hi - 1); }
  }
}
