/** Direct export of 8-byte NumCode pages: all rows, a row list, or a bitset. */
module NumCodes {
  import opened Machine
  import opened Bits
  import opened LittleEndian
  import opened Validity
  import opened VarBytes
  import opened RowSelection
  import opened VarBytesRoutes
  import opened SelectedRoutes

  /** `read_numcode_u64` */
  function ReadCode(data: seq<byte>, row: nat): (v: nat)
    requires 8 * row + 8 <= |data|
    ensures v <= U64_MAX
  {
    Widths();
    LeBytesOfNat(data[8 * row..8 * row + 8]);
    LeNat(data[8 * row..8 * row + 8])
  }

  /** A row's value: zero in the slot of a null. */
  function CodeAt(p: Page, row: nat): (v: nat)
    requires 8 * p.rowCount <= |p.data| && row < p.rowCount
  {
    if HasNulls(p.validity) == Ok(true) && IsNull(p, row) == Ok(true) then 0 else ReadCode(p.data, row)
  }

  predicate ValidAt(p: Page, row: nat) {
    !(HasNulls(p.validity) == Ok(true) && IsNull(p, row) == Ok(true))
  }

  ghost predicate RowsIn(p: Page, rows: seq<nat>) {
    forall i :: 0 <= i < |rows| ==> rows[i] < p.rowCount
  }

  function Codes(p: Page, rows: seq<nat>): (out: seq<nat>)
    requires 8 * p.rowCount <= |p.data| && RowsIn(p, rows)
    ensures |out| == |rows|
  {
    seq(|rows|, i requires 0 <= i < |rows| => CodeAt(p, rows[i]))
  }

  function Flags(p: Page, rows: seq<nat>): (flags: seq<bool>)
    ensures |flags| == |rows|
  {
    seq(|rows|, i requires 0 <= i < |rows| => ValidAt(p, rows[i]))
  }

  datatype Primitive = Primitive(values: seq<nat>, nulls: Option<NullBuffer>)

  /** The export of the visited rows, whichever collector produces it. */
  function CodeExport(p: Page, rows: seq<nat>): Primitive
    requires 8 * p.rowCount <= |p.data| && RowsIn(p, rows)
  {
    Primitive(Codes(p, rows), NullsOf(Flags(p, rows)))
  }

  /** With `signed`, every code must be a non-negative i64 (`checked_numcode_i64`). */
  ghost predicate CodesAccepted(p: Page, rows: seq<nat>, signed: bool) {
    && 8 * p.rowCount <= |p.data| && RowsIn(p, rows) && NullsReadable(p, rows)
    && (signed ==> forall i :: 0 <= i < |rows| ==> CodeAt(p, rows[i]) <= I64_MAX)
  }

  function CheckedCode(signed: bool, v: nat): Result<nat> {
    if signed && v > I64_MAX then Err(PageCorrupt) else Ok(v)
  }

  /** The collector has handled the first `i` rows. */
  ghost predicate CollectState(p: Page, rows: seq<nat>, signed: bool, i: nat, out: seq<nat>, flags: seq<bool>) {
    && 8 * p.rowCount <= |p.data| && i <= |rows| && RowsIn(p, rows) && HasNulls(p.validity).Ok?
    && (forall j :: 0 <= j < i ==> NullAt(p, HasNulls(p.validity).value, rows[j]).Ok?)
    && (signed ==> forall j :: 0 <= j < i ==> CodeAt(p, rows[j]) <= I64_MAX)
    && out == Codes(p, rows)[..i] && flags == Flags(p, rows)[..i]
  }

  lemma CollectStep(p: Page, rows: seq<nat>, signed: bool, i: nat, out: seq<nat>, flags: seq<bool>)
    requires CollectState(p, rows, signed, i, out, flags) && i < |rows|
    ensures rows[i] < p.rowCount && 8 * rows[i] + 8 <= |p.data| && |flags| == |out| == i
    ensures var isNull := NullAt(p, HasNulls(p.validity).value, rows[i]);
            if isNull.Err? then !CodesAccepted(p, rows, signed)
            else
              var code := if isNull.value then Ok(0) else CheckedCode(signed, ReadCode(p.data, rows[i]));
              if code.Err? then !CodesAccepted(p, rows, signed)
              else CollectState(p, rows, signed, i + 1, out + [code.value], flags + [!isNull.value])
  {
    var isNull := NullAt(p, HasNulls(p.validity).value, rows[i]);
    if isNull.Err? { UnreadableNull(p, rows, i); }
    assert isNull == Ok(true) ==> CodeAt(p, rows[i]) == 0;
    assert isNull == Ok(false) ==> CodeAt(p, rows[i]) == ReadCode(p.data, rows[i]);
  }

  lemma CollectEnds(p: Page, rows: seq<nat>, signed: bool, out: seq<nat>, flags: seq<bool>)
    ensures 8 * p.rowCount <= |p.data| && RowsIn(p, rows) && HasNulls(p.validity).Ok? ==>
              CollectState(p, rows, signed, 0, [], [])
    ensures HasNulls(p.validity).Err? ==> !CodesAccepted(p, rows, signed)
    ensures CollectState(p, rows, signed, |rows|, out, flags) ==>
              && CodesAccepted(p, rows, signed) && |flags| == |rows|
              && Primitive(out, NullsOf(flags)) == CodeExport(p, rows)
  {
    if 8 * p.rowCount <= |p.data| && RowsIn(p, rows) {
      assert Codes(p, rows)[..|rows|] == Codes(p, rows);
      assert Flags(p, rows)[..|rows|] == Flags(p, rows);
    }
  }

  /** `collect_numcode_{u64,i64}_rows`; all rows are the row list 0, 1, ... */
  method CollectRows(p: Page, rows: seq<nat>, signed: bool) returns (r: Result<Primitive>)
    requires 8 * p.rowCount <= |p.data| && RowsIn(p, rows)
    ensures r.Ok? <==> CodesAccepted(p, rows, signed)
    ensures r.Ok? ==> r.value == CodeExport(p, rows)
  {
    hide CollectState, CodesAccepted, HasNulls, NullAt, CodeExport;
    CollectEnds(p, rows, signed, [], []);
    var hasNulls :- HasNulls(p.validity);
    var out: seq<nat> := [];
    var builder := new ArrowValidityBuilder(|rows|);
    for i := 0 to |rows|
      invariant CollectState(p, rows, signed, i, out, builder.appended)
      invariant builder.Valid() && builder.len == |rows| && builder.pos == i && fresh(builder)
    {
      CollectStep(p, rows, signed, i, out, builder.appended);
      var isNull :- NullAt(p, hasNulls, rows[i]);
      builder.Append(!isNull);
      var code :- if isNull then Ok(0) else CheckedCode(signed, ReadCode(p.data, rows[i]));
      out := out + [code];
    }
    CollectEnds(p, rows, signed, out, builder.appended);
    var nulls := builder.Finish();
    return Ok(Primitive(out, nulls));
  }

  /** Inside word `k` of a bitset, with the bits of `w` still to collect. */
  ghost predicate InWordState(p: Page, words: seq<word>, len: nat, k: nat, w: nat, signed: bool,
                              seen: seq<nat>, out: seq<nat>, flags: seq<bool>)
  {
    && k < WordCount(len) <= |words| && InWord(words, len, k, w, seen)
    && CollectState(p, BitsetRows(words, len), signed, |seen|, out, flags)
  }

  lemma InWordStep(p: Page, words: seq<word>, len: nat, k: nat, w: nat, signed: bool,
                   seen: seq<nat>, out: seq<nat>, flags: seq<bool>)
    requires InWordState(p, words, len, k, w, signed, seen, out, flags) && w > 0
    ensures And(w, w - 1) < w && |flags| == |seen| < |BitsetRows(words, len)|
    ensures var row := 64 * k + TrailingZeros(w);
            row < p.rowCount && 8 * row + 8 <= |p.data|
            && var isNull := NullAt(p, HasNulls(p.validity).value, row);
            if isNull.Err? then !CodesAccepted(p, BitsetRows(words, len), signed)
            else
              var code := if isNull.value then Ok(0) else CheckedCode(signed, ReadCode(p.data, row));
              if code.Err? then !CodesAccepted(p, BitsetRows(words, len), signed)
              else InWordState(p, words, len, k, And(w, w - 1), signed,
                               seen + [row], out + [code.value], flags + [!isNull.value])
  {
    hide InWord, CollectState, CodesAccepted, BitsetRows, HasNulls, NullAt;
    VisitNext(words, len, k, w, seen);
    CollectStep(p, BitsetRows(words, len), signed, |seen|, out, flags);
  }

  /** `collect_numcode_{u64,i64}_bitset`: trailing-zero iteration inside the collector. */
  method CollectBitset(p: Page, words: seq<word>, len: nat, selectedLen: nat, signed: bool)
    returns (r: Result<Primitive>)
    requires 8 * p.rowCount <= |p.data| && len == p.rowCount && WordCount(len) <= |words|
    requires selectedLen == |BitsetRows(words, len)|
    ensures r.Ok? <==> CodesAccepted(p, BitsetRows(words, len), signed)
    ensures r.Ok? ==> RowsIn(p, BitsetRows(words, len)) && r.value == CodeExport(p, BitsetRows(words, len))
  {
    hide InWordState, CollectState, CodesAccepted, HasNulls, NullAt, CodeExport, AtWord, InWord, BitsetRows, MaskedWord;
    ghost var rows := BitsetRows(words, len);
    BitsetRowsIn(p, words, len);
    CollectEnds(p, rows, signed, [], []);
    var hasNulls :- HasNulls(p.validity);
    var out: seq<nat> := [];
    var builder := new ArrowValidityBuilder(selectedLen);
    ghost var seen: seq<nat> := [];
    StartWords(words, len);
    for k := 0 to WordCount(len)
      invariant AtWord(words, len, k, seen) && CollectState(p, rows, signed, |seen|, out, builder.appended)
      invariant builder.Valid() && builder.len == |rows| && builder.pos == |seen| && fresh(builder)
    {
      var w := MaskedWord(words, len, k);
      EnterState(p, words, len, k, signed, seen, out, builder.appended);
      while w != 0
        invariant InWordState(p, words, len, k, w, signed, seen, out, builder.appended)
        invariant builder.Valid() && builder.len == |rows| && builder.pos == |seen| && fresh(builder)
        decreases w
      {
        var row := 64 * k + TrailingZeros(w);
        InWordStep(p, words, len, k, w, signed, seen, out, builder.appended);
        var isNull :- NullAt(p, hasNulls, row);
        builder.Append(!isNull);
        var code :- if isNull then Ok(0) else CheckedCode(signed, ReadCode(p.data, row));
        out, seen := out + [code], seen + [row];
        w := And(w, w - 1);
      }
      LeaveState(p, words, len, k, signed, seen, out, builder.appended);
    }
    EndWords(words, len, seen);
    CollectEnds(p, rows, signed, out, builder.appended);
    var nulls := builder.Finish();
    return Ok(Primitive(out, nulls));
  }

  lemma EnterState(p: Page, words: seq<word>, len: nat, k: nat, signed: bool,
                   seen: seq<nat>, out: seq<nat>, flags: seq<bool>)
    requires k < WordCount(len) <= |words| && AtWord(words, len, k, seen)
    requires CollectState(p, BitsetRows(words, len), signed, |seen|, out, flags)
    ensures InWordState(p, words, len, k, MaskedWord(words, len, k), signed, seen, out, flags)
  {
    EnterWord(words, len, k, seen);
  }

  lemma LeaveState(p: Page, words: seq<word>, len: nat, k: nat, signed: bool,
                   seen: seq<nat>, out: seq<nat>, flags: seq<bool>)
    requires InWordState(p, words, len, k, 0, signed, seen, out, flags)
    ensures AtWord(words, len, k + 1, seen)
    ensures CollectState(p, BitsetRows(words, len), signed, |seen|, out, flags)
  {
    LeaveWord(words, len, k, seen);
  }

  lemma BitsetRowsIn(p: Page, words: seq<word>, len: nat)
    requires len == p.rowCount && WordCount(len) <= |words|
    ensures RowsIn(p, BitsetRows(words, len))
  {
    VisitedInRange(Bitset(words, len), len);
  }

  lemma StartWords(words: seq<word>, len: nat)
    requires WordCount(len) <= |words|
    ensures AtWord(words, len, 0, [])
  {
    assert [] + BitsetRowsFrom(words, len, 0) == BitsetRowsFrom(words, len, 0);
  }

  lemma EndWords(words: seq<word>, len: nat, seen: seq<nat>)
    requires WordCount(len) <= |words| && AtWord(words, len, WordCount(len), seen)
    ensures seen == BitsetRows(words, len)
  {
  }

  /** The bit being visited is the next row of the visit sequence. */
  lemma VisitNext(words: seq<word>, len: nat, k: nat, w: nat, seen: seq<nat>)
    requires k < WordCount(len) <= |words| && InWord(words, len, k, w, seen) && w > 0
    ensures And(w, w - 1) < w
    ensures InWord(words, len, k, And(w, w - 1), seen + [64 * k + TrailingZeros(w)])
    ensures |seen| < |BitsetRows(words, len)|
    ensures BitsetRows(words, len)[|seen|] == 64 * k + TrailingZeros(w)
  {
    VisitBit(words, len, k, w, seen);
    var more := seen + [64 * k + TrailingZeros(w)];
    assert more[|seen|] == BitsetRows(words, len)[..|seen| + 1][|seen|];
  }

  /** `collect_numcode_{u64,i64}_buffers`: every selection form gives the export of
      the rows it visits, so a bitset equals the row list `to_rows` makes of it. */
  method CollectNumCodes(p: Page, sel: Selection, signed: bool) returns (r: Result<Primitive>)
    ensures r.Ok? <==> Visited(sel, p.rowCount).Ok? && CodesAccepted(p, Visited(sel, p.rowCount).value, signed)
    ensures r.Ok? ==> r.value == CodeExport(p, Visited(sel, p.rowCount).value)
  {
    if 8 * p.rowCount > |p.data| { return Err(OffsetRange); }
    match sel
    case All => r := CollectRows(p, Identity(p.rowCount), signed);
    case Rows(rows) =>
      var visited :- ForEachRow(sel, p.rowCount);
      r := CollectRows(p, visited, signed);
    case Bitset(words, len) =>
      if len != p.rowCount { return Err(OffsetRange); }
      var selectedLen :- CountBitsetRows(words, len);
      r := CollectBitset(p, words, len, selectedLen, signed);
  }

  /** `value as u64` of an i64, as the converter writes it. */
  function FromI64(v: int): nat
    requires -(I64_MAX + 1) <= v <= I64_MAX
  {
    if v >= 0 then v else v + U64_MAX + 1
  }

  /** `i64::from_le_bytes(code.to_le_bytes())`, the fallback's reinterpretation. */
  function AsI64(code: nat): int
    requires code <= U64_MAX
  {
    if code <= I64_MAX then code else code - U64_MAX - 1
  }

  /** The fallback inverts the converter on every i64; the direct route does so on
      the non-negative ones and refuses all others. */
  lemma SignedRoundTrip(v: int)
    requires -(I64_MAX + 1) <= v <= I64_MAX
    ensures FromI64(v) <= U64_MAX && AsI64(FromI64(v)) == v
    ensures CheckedCode(true, FromI64(v)) == (if v >= 0 then Ok(v) else Err(PageCorrupt))
  {
  }

  /** Where the direct signed export and the fallback agree: they return the same
      values when every code of a non-null row is below 2^63, and otherwise the
      direct route fails while the fallback yields a negative number. */
  lemma DirectVersusFallback(p: Page, rows: seq<nat>)
    requires CodesAccepted(p, rows, false)
    ensures forall i :: 0 <= i < |rows| ==> CodeAt(p, rows[i]) <= U64_MAX
    ensures CodesAccepted(p, rows, true) <==> forall i :: 0 <= i < |rows| ==> AsI64(CodeAt(p, rows[i])) >= 0
    ensures CodesAccepted(p, rows, true) ==>
              forall i :: 0 <= i < |rows| ==> CodeExport(p, rows).values[i] == AsI64(CodeAt(p, rows[i]))
  {
    forall i | 0 <= i < |rows| ensures CodeAt(p, rows[i]) <= U64_MAX {
      if ValidAt(p, rows[i]) { assert CodeAt(p, rows[i]) == ReadCode(p.data, rows[i]); }
    }
    if forall i :: 0 <= i < |rows| ==> AsI64(CodeAt(p, rows[i])) >= 0 {
      forall i | 0 <= i < |rows| ensures CodeAt(p, rows[i]) <= I64_MAX {
        assert AsI64(CodeAt(p, rows[i])) >= 0;
      }
    }
  }

  // ---- the retained route ----

  /** The null buffer of all rows can be built: no bitmap, or one that covers them. */
  ghost predicate NullBufferReadable(p: Page) {
    p.validity.Some? ==>
      && (p.rowCount + 7) / 8 <= |p.validity.value.bytes|
      && forall row: nat :: row < p.rowCount ==> IsNull(p, row).Ok?
  }

  /** When the page's own bytes can stand for the array: every code, in null slots too,
      is a non-negative i64. */
  ghost predicate RetainedAccepted(p: Page) {
    && 8 * p.rowCount <= |p.data| && NullBufferReadable(p)
    && forall row: nat :: row < p.rowCount ==> ReadCode(p.data, row) <= I64_MAX
  }

  function RawCodes(p: Page): (out: seq<nat>)
    requires 8 * p.rowCount <= |p.data|
    ensures |out| == p.rowCount
  {
    seq(p.rowCount, row requires 0 <= row < p.rowCount => ReadCode(p.data, row))
  }

  function RawFlags(p: Page, n: nat): (flags: seq<bool>)
    ensures |flags| == n
  {
    seq(n, row requires 0 <= row < n => IsNull(p, row) != Ok(true))
  }

  /** `arrow_null_buffer` */
  method RetainNulls(p: Page) returns (r: Result<Option<NullBuffer>>)
    ensures r.Ok? <==> NullBufferReadable(p)
    ensures r.Ok? ==> r.value == NullsOf(RawFlags(p, p.rowCount))
  {
    if p.validity.None? {
      assert forall i :: 0 <= i < p.rowCount ==> RawFlags(p, p.rowCount)[i];
      return Ok(None);
    }
    if |p.validity.value.bytes| < (p.rowCount + 7) / 8 { return Err(BufferTooShort); }
    var builder := new ArrowValidityBuilder(p.rowCount);
    for row := 0 to p.rowCount
      invariant forall i: nat :: i < row ==> IsNull(p, i).Ok?
      invariant builder.Valid() && builder.len == p.rowCount && builder.pos == row && fresh(builder)
      invariant builder.appended == RawFlags(p, row)
    {
      var isNull :- IsNull(p, row);
      builder.Append(!isNull);
      assert RawFlags(p, row + 1) == RawFlags(p, row) + [!isNull];
    }
    var nulls := builder.Finish();
    return Ok(nulls);
  }

  /** `retained_numcode_i64_values` and `retained_array_nulls`: the page's bytes as they
      are, after every code is checked. */
  method RetainCodes(p: Page) returns (r: Result<Primitive>)
    ensures r.Ok? <==> RetainedAccepted(p)
    ensures r.Ok? ==> r.value == Primitive(RawCodes(p), NullsOf(RawFlags(p, p.rowCount)))
  {
    hide NullBufferReadable, RawFlags;
    if 8 * p.rowCount > |p.data| { return Err(OffsetRange); }
    for row := 0 to p.rowCount
      invariant forall i: nat :: i < row ==> ReadCode(p.data, i) <= I64_MAX
    {
      var _ :- CheckedCode(true, ReadCode(p.data, row));
    }
    var nulls :- RetainNulls(p);
    return Ok(Primitive(RawCodes(p), nulls));
  }

  /** A page the copying route takes is retained exactly when its null buffer can be built
      and the codes in its null slots, which copying never reads, are in range as well;
      then the arrays agree on nulls and on every present row. Where the bitmap is the
      page's, whatever is retained could have been copied. */
  lemma RetainedVersusCopied(p: Page)
    ensures var rows := Identity(p.rowCount);
            CodesAccepted(p, rows, true) ==>
              (RetainedAccepted(p) <==>
                 NullBufferReadable(p)
                 && forall row: nat :: row < p.rowCount && !ValidAt(p, row) ==> ReadCode(p.data, row) <= I64_MAX)
    ensures var rows := Identity(p.rowCount);
            CodesAccepted(p, rows, true) && RetainedAccepted(p) ==>
              && NullsOf(RawFlags(p, p.rowCount)) == CodeExport(p, rows).nulls
              && forall row: nat :: row < p.rowCount && ValidAt(p, row) ==>
                 RawCodes(p)[row] == CodeExport(p, rows).values[row]
    ensures RetainedAccepted(p) && (p.validity.Some? ==> p.validity.value.rowCount == p.rowCount) ==>
              CodesAccepted(p, Identity(p.rowCount), true)
  {
    if CodesAccepted(p, Identity(p.rowCount), true) { RetainedIff(p); }
    if CodesAccepted(p, Identity(p.rowCount), true) && RetainedAccepted(p) { SameArrays(p); }
    if RetainedAccepted(p) && (p.validity.Some? ==> p.validity.value.rowCount == p.rowCount) { RetainedCopies(p); }
  }

  lemma RetainedIff(p: Page)
    requires CodesAccepted(p, Identity(p.rowCount), true)
    ensures RetainedAccepted(p) <==>
              NullBufferReadable(p)
              && forall row: nat :: row < p.rowCount && !ValidAt(p, row) ==> ReadCode(p.data, row) <= I64_MAX
  {
    hide NullBufferReadable, ReadCode, HasNulls, IsNull, NullsReadable;
    forall row: nat | row < p.rowCount && ValidAt(p, row) ensures ReadCode(p.data, row) <= I64_MAX {
      assert CodeAt(p, Identity(p.rowCount)[row]) == ReadCode(p.data, row);
    }
  }

  lemma SameArrays(p: Page)
    requires CodesAccepted(p, Identity(p.rowCount), true) && RetainedAccepted(p)
    ensures var rows := Identity(p.rowCount);
            && RawFlags(p, p.rowCount) == Flags(p, rows)
            && forall row: nat :: row < p.rowCount && ValidAt(p, row) ==>
               RawCodes(p)[row] == CodeExport(p, rows).values[row]
  {
    var rows := Identity(p.rowCount);
    forall row | 0 <= row < p.rowCount ensures RawFlags(p, p.rowCount)[row] == Flags(p, rows)[row] {
      assert IsNull(p, row).Ok?;
    }
  }

  lemma RetainedCopies(p: Page)
    requires RetainedAccepted(p) && (p.validity.Some? ==> p.validity.value.rowCount == p.rowCount)
    ensures CodesAccepted(p, Identity(p.rowCount), true)
  {
    var rows := Identity(p.rowCount);
    forall i | 0 <= i < |rows|
      ensures NullAt(p, HasNulls(p.validity).value, rows[i]).Ok? && CodeAt(p, rows[i]) <= I64_MAX
    {
      assert IsNull(p, rows[i]).Ok?;
      assert ReadCode(p.data, rows[i]) <= I64_MAX;
    }
  }
}
