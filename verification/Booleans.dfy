/** Direct export of Boolean pages: one byte per row in, one bit per row out,
    packed sixteen rows at a time when the page has no nulls. */
module Booleans {
  import opened Machine
  import opened Bits
  import opened LittleEndian
  import opened Validity
  import opened VarBytes
  import opened RowSelection
  import opened VarBytesRoutes
  import opened NumCodes

  /** A row's bit: clear for nulls. */
  predicate BoolAt(p: Page, row: nat)
    requires p.rowCount <= |p.data| && row < p.rowCount
  {
    ValidAt(p, row) && p.data[row] == 1
  }

  function BoolsOf(p: Page, rows: seq<nat>): (bits: seq<bool>)
    requires p.rowCount <= |p.data| && RowsIn(p, rows)
    ensures |bits| == |rows|
  {
    seq(|rows|, i requires 0 <= i < |rows| => BoolAt(p, rows[i]))
  }

  /** Every visited row holds 0 or 1, null or not (`checked_bool_byte`). */
  ghost predicate BoolsAccepted(p: Page, rows: seq<nat>) {
    && p.rowCount <= |p.data| && RowsIn(p, rows) && NullsReadable(p, rows)
    && forall i :: 0 <= i < |rows| ==> p.data[rows[i]] <= 1
  }

  /** Arrow's packed Boolean array. */
  datatype Packed = Packed(values: seq<byte>, len: nat, nulls: Option<NullBuffer>)

  function BoolExport(p: Page, rows: seq<nat>): Packed
    requires p.rowCount <= |p.data| && RowsIn(p, rows)
  {
    Packed(PackBits(BoolsOf(p, rows)), |rows|, NullsOf(Flags(p, rows)))
  }

  /** `b0 | b1 | ...` over a chunk. */
  function OrAll(chunk: seq<byte>): nat {
    if chunk == [] then 0 else Or(OrAll(chunk[..|chunk| - 1]), chunk[|chunk| - 1])
  }

  /** `b0 | (b1 << 1) | (b2 << 2) | ...` over a chunk. */
  function OrShifted(chunk: seq<byte>): nat {
    if chunk == [] then 0
    else Or(OrShifted(chunk[..|chunk| - 1]), chunk[|chunk| - 1] * Pow2(|chunk| - 1))
  }

  function Ones(chunk: seq<byte>): (bits: seq<bool>)
    ensures |bits| == |chunk|
  {
    seq(|chunk|, i requires 0 <= i < |chunk| => chunk[i] == 1)
  }

  lemma {:induction false} OrAllDetects(chunk: seq<byte>)
    ensures OrAll(chunk) <= 1 <==> forall i :: 0 <= i < |chunk| ==> chunk[i] <= 1
    decreases |chunk|
  {
    if chunk != [] {
      var front := chunk[..|chunk| - 1];
      OrAllDetects(front);
      OrAtMostOne(OrAll(front), chunk[|chunk| - 1]);
      if OrAll(chunk) <= 1 {
        forall i | 0 <= i < |chunk| ensures chunk[i] <= 1 { if i < |front| { assert front[i] <= 1; } }
      }
    }
  }

  lemma {:induction false} OrShiftedBits(chunk: seq<byte>, i: nat)
    requires forall j :: 0 <= j < |chunk| ==> chunk[j] <= 1
    ensures Bit(OrShifted(chunk), i) <==> i < |chunk| && chunk[i] == 1
    decreases |chunk|
  {
    if chunk == [] {
      ZeroHasNoBits(i);
    } else {
      var front, last := chunk[..|chunk| - 1], chunk[|chunk| - 1];
      OrShiftedBits(front, i);
      BitOr(OrShifted(front), last * Pow2(|front|), i);
      BitShift(last, |front|, i);
      if i > |front| { SmallHasNoHighBits(last, 1, i - |front|); }
    }
  }

  lemma OrShiftedPacks(chunk: seq<byte>)
    requires forall j :: 0 <= j < |chunk| ==> chunk[j] <= 1
    ensures OrShifted(chunk) == PackFrom(Ones(chunk))
  {
    forall i: nat ensures Bit(OrShifted(chunk), i) == Bit(PackFrom(Ones(chunk)), i) {
      OrShiftedBits(chunk, i);
      PackFromBit(Ones(chunk), i);
    }
    NoHighBitsIsSmall(OrShifted(chunk), |chunk|) by {
      forall i: nat | |chunk| <= i ensures !Bit(OrShifted(chunk), i) { OrShiftedBits(chunk, i); }
    }
    SameBitsSameWord(OrShifted(chunk), PackFrom(Ones(chunk)), |chunk|);
  }

  /** `pack_bool_chunk_8`: one validity test and one shift-or for eight rows. */
  function PackChunk8(chunk: seq<byte>): (r: Result<byte>)
    requires |chunk| == 8
    ensures r.Ok? <==> forall i :: 0 <= i < 8 ==> chunk[i] <= 1
    ensures r.Ok? ==> r.value == PackFrom(Ones(chunk))
  {
    OrAllDetects(chunk);
    if OrAll(chunk) > 1 then Err(PageCorrupt)
    else
      OrShiftedPacks(chunk);
      ChunkFitsByte(Ones(chunk));
      Ok(OrShifted(chunk))
  }

  /** `pack_bool_chunk_16(..)?.to_le_bytes()`: `low | high << 8`, low byte first. */
  function PackChunk16(chunk: seq<byte>): (r: Result<seq<byte>>)
    requires |chunk| == 16
    ensures r.Ok? <==> forall i :: 0 <= i < 16 ==> chunk[i] <= 1
    ensures r.Ok? ==> r.value == [PackFrom(Ones(chunk[..8])), PackFrom(Ones(chunk[8..]))]
  {
    assert chunk[..8] + chunk[8..] == chunk;
    match PackChunk8(chunk[..8])
    case Err(e) => assert exists i :: 0 <= i < 8 && chunk[..8][i] > 1; Err(e)
    case Ok(low) =>
      match PackChunk8(chunk[8..])
      case Err(e) => assert exists i :: 0 <= i < 8 && chunk[8..][i] > 1; Err(e)
      case Ok(high) =>
        JoinBytes(low, high);
        forall i | 0 <= i < 16 ensures chunk[i] <= 1 {
          if i < 8 { assert chunk[..8][i] <= 1; } else { assert chunk[8..][i - 8] <= 1; }
        }
        Ok(LeBytes(Or(low, high * Pow2(8)), 2))
  }

  lemma JoinBytes(low: byte, high: byte)
    ensures LeBytes(Or(low, high * Pow2(8)), 2) == [low, high]
  {
    Widths();
    var w := Or(low, high * Pow2(8));
    JoinIsSum(low, high);
    hide Or, Pow2;
    assert LeBytes(w, 2) == [w % 256] + LeBytes(w / 256, 1);
    assert LeBytes(w / 256, 1) == [high] + LeBytes(w / 256 / 256, 0);
  }

  /** Bytes that do not overlap: or-ing them adds them. */
  lemma JoinIsSum(low: byte, high: byte)
    ensures Or(low, high * Pow2(8)) == low + 256 * high
  {
    Widths();
    hide *;
    var w := Or(low, high * Pow2(8));
    forall i: nat ensures Bit(w, i) == Bit(low + Pow2(8) * high, i) {
      BitOr(low, high * Pow2(8), i);
      BitShift(high, 8, i);
      BitSplit(low, high, 8, i);
      if i >= 8 { SmallHasNoHighBits(low, 8, i); }
    }
    forall i: nat | 16 <= i ensures !Bit(w, i) { SmallHasNoHighBits(low + Pow2(8) * high, 16, i); }
    NoHighBitsIsSmall(w, 16);
    SameBitsSameWord(w, low + Pow2(8) * high, 16);
  }

  /** The no-null packer has packed the rows before `row`. */
  ghost predicate ChunkState(p: Page, row: nat, values: seq<byte>) {
    && row <= p.rowCount <= |p.data|
    && (forall i :: 0 <= i < row ==> p.data[i] <= 1)
    && PackedAs(values, Ones(p.data[..row]) + Falses(p.rowCount - row))
  }

  /** Overwriting two empty bytes packs the next sixteen flags. */
  lemma PutChunk(values: seq<byte>, front: seq<bool>, chunk: seq<bool>, rest: nat)
    requires |front| % 16 == 0 && |chunk| == 16
    requires PackedAs(values, front + Falses(16 + rest))
    ensures |front| / 8 + 1 < |values|
    ensures PackFrom(chunk[..8]) < 256 && PackFrom(chunk[8..]) < 256
    ensures PackedAs(values[|front| / 8 := PackFrom(chunk[..8])][|front| / 8 + 1 := PackFrom(chunk[8..])],
                     front + chunk + Falses(rest))
  {
    ChunkFitsByte(chunk[..8]);
    ChunkFitsByte(chunk[8..]);
    var at, before, after := |front| / 8, front + Falses(16 + rest), front + chunk + Falses(rest);
    var put := values[at := PackFrom(chunk[..8])][at + 1 := PackFrom(chunk[8..])];
    assert |front| == 8 * at;
    forall j: nat, k: nat | j < |put| && k < 8
      ensures Bit(put[j], k) <==> 8 * j + k < |after| && after[8 * j + k]
    {
      PackFromBit(chunk[..8], k);
      PackFromBit(chunk[8..], k);
      if j != at && j != at + 1 {
        assert put[j] == values[j];
        assert 8 * j + k < |before| ==> before[8 * j + k] == after[8 * j + k];
      }
    }
  }

  lemma ChunkStep(p: Page, row: nat, values: seq<byte>)
    requires ChunkState(p, row, values) && row % 16 == 0 && row + 16 <= p.rowCount
    requires HasNulls(p.validity) == Ok(false)
    ensures row / 8 + 1 < |values|
    ensures var r := PackChunk16(p.data[row..row + 16]);
            if r.Err? then !BoolsAccepted(p, Identity(p.rowCount))
            else |r.value| == 2 && ChunkState(p, row + 16, values[row / 8 := r.value[0]][row / 8 + 1 := r.value[1]])
  {
    var data := p.data[row..row + 16];
    var r := PackChunk16(data);
    PutChunk(values, Ones(p.data[..row]), Ones(data), p.rowCount - row - 16);
    if r.Ok? {
      assert Ones(data)[..8] == Ones(data[..8]) && Ones(data)[8..] == Ones(data[8..]);
      assert Ones(p.data[..row]) + Ones(data) == Ones(p.data[..row + 16]);
      forall i | 0 <= i < row + 16 ensures p.data[i] <= 1 {
        if i >= row { assert data[i - row] <= 1; }
      }
    } else {
      var i :| 0 <= i < 16 && data[i] > 1;
      NotAllBools(p, row + i);
    }
  }

  lemma NotAllBools(p: Page, row: nat)
    requires row < p.rowCount <= |p.data| && p.data[row] > 1
    ensures !BoolsAccepted(p, Identity(p.rowCount))
  {
    assert Identity(p.rowCount)[row] == row;
  }

  lemma TailStep(p: Page, row: nat, values: seq<byte>)
    requires ChunkState(p, row, values) && row < p.rowCount && HasNulls(p.validity) == Ok(false)
    ensures row / 8 < |values|
    ensures if p.data[row] > 1 then !BoolsAccepted(p, Identity(p.rowCount))
            else ChunkState(p, row + 1, if p.data[row] == 1 then SetPackedBit(values, row) else values)
  {
    if p.data[row] > 1 {
      NotAllBools(p, row);
    } else {
      var before := Ones(p.data[..row]) + Falses(p.rowCount - row);
      var after := Ones(p.data[..row + 1]) + Falses(p.rowCount - row - 1);
      SetPackedBitSets(values, before, row);
      assert after == if p.data[row] == 1 then before[row := true] else before;
    }
  }

  lemma ChunkEnds(p: Page, values: seq<byte>)
    requires HasNulls(p.validity) == Ok(false) && p.rowCount <= |p.data|
    ensures ChunkState(p, 0, Zeros(PackedLen(p.rowCount)))
    ensures ChunkState(p, p.rowCount, values) ==>
              && BoolsAccepted(p, Identity(p.rowCount))
              && Packed(values, p.rowCount, None) == BoolExport(p, Identity(p.rowCount))
  {
    ZerosPackFalses(p.rowCount);
    assert Ones(p.data[..0]) + Falses(p.rowCount) == Falses(p.rowCount);
    if ChunkState(p, p.rowCount, values) {
      var bits := BoolsOf(p, Identity(p.rowCount));
      assert Ones(p.data[..p.rowCount]) + Falses(0) == bits;
      PackedUnique(values, bits);
      assert forall i :: 0 <= i < p.rowCount ==> Flags(p, Identity(p.rowCount))[i];
    }
  }

  /** `collect_bool_all` without nulls: sixteen rows a turn, then the remainder. */
  method CollectAllNoNulls(p: Page) returns (r: Result<Packed>)
    requires HasNulls(p.validity) == Ok(false) && p.rowCount <= |p.data|
    ensures r.Ok? <==> BoolsAccepted(p, Identity(p.rowCount))
    ensures r.Ok? ==> r.value == BoolExport(p, Identity(p.rowCount))
  {
    hide ChunkState, BoolsAccepted, BoolExport, PackedAs, SetPackedBit, PackChunk16, HasNulls, Zeros;
    var values, row: nat := Zeros(PackedLen(p.rowCount)), 0;
    ChunkEnds(p, values);
    while row + 16 <= p.rowCount
      invariant ChunkState(p, row, values) && row % 16 == 0 && row <= p.rowCount
    {
      ChunkStep(p, row, values);
      var packed :- PackChunk16(p.data[row..row + 16]);
      values := values[row / 8 := packed[0]][row / 8 + 1 := packed[1]];
      row := row + 16;
    }
    while row < p.rowCount
      invariant ChunkState(p, row, values) && row <= p.rowCount
    {
      TailStep(p, row, values);
      if p.data[row] > 1 { return Err(PageCorrupt); }
      if p.data[row] == 1 { values := SetPackedBit(values, row); }
      row := row + 1;
    }
    ChunkEnds(p, values);
    return Ok(Packed(values, p.rowCount, None));
  }

  /** The general collectors have handled the first `i` visited rows. */
  ghost predicate BoolState(p: Page, rows: seq<nat>, i: nat, values: seq<byte>, flags: seq<bool>) {
    && p.rowCount <= |p.data| && i <= |rows| && RowsIn(p, rows) && HasNulls(p.validity).Ok?
    && (forall j :: 0 <= j < i ==> NullAt(p, HasNulls(p.validity).value, rows[j]).Ok?)
    && (forall j :: 0 <= j < i ==> p.data[rows[j]] <= 1)
    && PackedAs(values, BoolsOf(p, rows)[..i] + Falses(|rows| - i)) && flags == Flags(p, rows)[..i]
  }

  lemma BoolStep(p: Page, rows: seq<nat>, i: nat, values: seq<byte>, flags: seq<bool>)
    requires BoolState(p, rows, i, values, flags) && i < |rows|
    ensures rows[i] < p.rowCount <= |p.data| && |flags| == i && i / 8 < |values|
    ensures p.data[rows[i]] > 1 ==> !BoolsAccepted(p, rows)
    ensures var isNull := NullAt(p, HasNulls(p.validity).value, rows[i]);
            && (isNull.Err? ==> !BoolsAccepted(p, rows))
            && (isNull.Ok? && p.data[rows[i]] <= 1 ==>
                 BoolState(p, rows, i + 1,
                           if !isNull.value && p.data[rows[i]] == 1 then SetPackedBit(values, i) else values,
                           flags + [!isNull.value]))
  {
    var isNull := NullAt(p, HasNulls(p.validity).value, rows[i]);
    if isNull.Err? {
      UnreadableNull(p, rows, i);
    } else {
      var bits := BoolsOf(p, rows);
      var before, after := bits[..i] + Falses(|rows| - i), bits[..i + 1] + Falses(|rows| - i - 1);
      SetPackedBitSets(values, before, i);
      assert bits[i] == (!isNull.value && p.data[rows[i]] == 1);
      assert after == if bits[i] then before[i := true] else before;
    }
  }

  lemma BoolEnds(p: Page, rows: seq<nat>, values: seq<byte>, flags: seq<bool>)
    requires p.rowCount <= |p.data| && RowsIn(p, rows)
    ensures HasNulls(p.validity).Ok? ==> BoolState(p, rows, 0, Zeros(PackedLen(|rows|)), [])
    ensures HasNulls(p.validity).Err? ==> !BoolsAccepted(p, rows)
    ensures BoolState(p, rows, |rows|, values, flags) ==>
              && BoolsAccepted(p, rows) && |flags| == |rows|
              && Packed(values, |rows|, NullsOf(flags)) == BoolExport(p, rows)
  {
    ZerosPackFalses(|rows|);
    assert BoolsOf(p, rows)[..0] + Falses(|rows|) == Falses(|rows|);
    if BoolState(p, rows, |rows|, values, flags) {
      assert BoolsOf(p, rows)[..|rows|] + Falses(0) == BoolsOf(p, rows);
      assert Flags(p, rows)[..|rows|] == Flags(p, rows);
      PackedUnique(values, BoolsOf(p, rows));
    }
  }

  /** `collect_bool_rows`, and `collect_bool_all` with nulls over 0, 1, ... */
  method CollectBoolRows(p: Page, rows: seq<nat>) returns (r: Result<Packed>)
    requires p.rowCount <= |p.data| && RowsIn(p, rows)
    ensures r.Ok? <==> BoolsAccepted(p, rows)
    ensures r.Ok? ==> r.value == BoolExport(p, rows)
  {
    hide BoolState, BoolsAccepted, BoolExport, HasNulls, NullAt, SetPackedBit;
    BoolEnds(p, rows, [], []);
    var hasNulls :- HasNulls(p.validity);
    var values := Zeros(PackedLen(|rows|));
    var builder := new ArrowValidityBuilder(|rows|);
    for i := 0 to |rows|
      invariant BoolState(p, rows, i, values, builder.appended)
      invariant builder.Valid() && builder.len == |rows| && builder.pos == i && fresh(builder)
    {
      BoolStep(p, rows, i, values, builder.appended);
      if p.data[rows[i]] > 1 { return Err(PageCorrupt); }
      var isNull :- NullAt(p, hasNulls, rows[i]);
      builder.Append(!isNull);
      if !isNull && p.data[rows[i]] == 1 { values := SetPackedBit(values, i); }
    }
    BoolEnds(p, rows, values, builder.appended);
    var nulls := builder.Finish();
    return Ok(Packed(values, |rows|, nulls));
  }

  /** Inside word `k` of a bitset, with the bits of `w` still to collect. */
  ghost predicate BoolInWord(p: Page, words: seq<word>, len: nat, k: nat, w: nat, seen: seq<nat>,
                             values: seq<byte>, flags: seq<bool>)
  {
    && k < WordCount(len) <= |words| && InWord(words, len, k, w, seen)
    && BoolState(p, BitsetRows(words, len), |seen|, values, flags)
  }

  lemma BoolInWordStep(p: Page, words: seq<word>, len: nat, k: nat, w: nat, seen: seq<nat>,
                       values: seq<byte>, flags: seq<bool>)
    requires BoolInWord(p, words, len, k, w, seen, values, flags) && w > 0
    ensures And(w, w - 1) < w && |flags| == |seen| < |BitsetRows(words, len)| && |seen| / 8 < |values|
    ensures var row := 64 * k + TrailingZeros(w);
            row < p.rowCount <= |p.data|
            && (p.data[row] > 1 ==> !BoolsAccepted(p, BitsetRows(words, len)))
            && var isNull := NullAt(p, HasNulls(p.validity).value, row);
               && (isNull.Err? ==> !BoolsAccepted(p, BitsetRows(words, len)))
               && (isNull.Ok? && p.data[row] <= 1 ==>
                    BoolInWord(p, words, len, k, And(w, w - 1), seen + [row],
                               if !isNull.value && p.data[row] == 1 then SetPackedBit(values, |seen|) else values,
                               flags + [!isNull.value]))
  {
    hide InWord, BoolState, BoolsAccepted, BitsetRows, HasNulls, NullAt, SetPackedBit;
    VisitNext(words, len, k, w, seen);
    BoolStep(p, BitsetRows(words, len), |seen|, values, flags);
  }

  lemma BoolEnterWord(p: Page, words: seq<word>, len: nat, k: nat, seen: seq<nat>, values: seq<byte>, flags: seq<bool>)
    requires k < WordCount(len) <= |words| && AtWord(words, len, k, seen)
    requires BoolState(p, BitsetRows(words, len), |seen|, values, flags)
    ensures BoolInWord(p, words, len, k, MaskedWord(words, len, k), seen, values, flags)
  {
    EnterWord(words, len, k, seen);
  }

  lemma BoolLeaveWord(p: Page, words: seq<word>, len: nat, k: nat, seen: seq<nat>, values: seq<byte>, flags: seq<bool>)
    requires BoolInWord(p, words, len, k, 0, seen, values, flags)
    ensures AtWord(words, len, k + 1, seen) && BoolState(p, BitsetRows(words, len), |seen|, values, flags)
  {
    LeaveWord(words, len, k, seen);
  }

  /** `collect_bool_bitset` */
  method CollectBoolBitset(p: Page, words: seq<word>, len: nat, selectedLen: nat) returns (r: Result<Packed>)
    requires p.rowCount <= |p.data| && len == p.rowCount && WordCount(len) <= |words|
    requires selectedLen == |BitsetRows(words, len)|
    ensures r.Ok? <==> BoolsAccepted(p, BitsetRows(words, len))
    ensures r.Ok? ==> RowsIn(p, BitsetRows(words, len)) && r.value == BoolExport(p, BitsetRows(words, len))
  {
    hide BoolInWord, BoolState, BoolsAccepted, BoolExport, HasNulls, NullAt, SetPackedBit, AtWord, InWord, BitsetRows,
         MaskedWord;
    ghost var rows := BitsetRows(words, len);
    BitsetRowsIn(p, words, len);
    BoolEnds(p, rows, [], []);
    var hasNulls :- HasNulls(p.validity);
    var values := Zeros(PackedLen(selectedLen));
    var builder := new ArrowValidityBuilder(selectedLen);
    var outRow: nat := 0;
    ghost var seen: seq<nat> := [];
    StartWords(words, len);
    for k := 0 to WordCount(len)
      invariant AtWord(words, len, k, seen) && BoolState(p, rows, |seen|, values, builder.appended)
      invariant builder.Valid() && builder.len == |rows| && builder.pos == |seen| == outRow && fresh(builder)
    {
      var w := MaskedWord(words, len, k);
      BoolEnterWord(p, words, len, k, seen, values, builder.appended);
      while w != 0
        invariant BoolInWord(p, words, len, k, w, seen, values, builder.appended)
        invariant builder.Valid() && builder.len == |rows| && builder.pos == |seen| == outRow && fresh(builder)
        decreases w
      {
        var row := 64 * k + TrailingZeros(w);
        BoolInWordStep(p, words, len, k, w, seen, values, builder.appended);
        if p.data[row] > 1 { return Err(PageCorrupt); }
        var isNull :- NullAt(p, hasNulls, row);
        builder.Append(!isNull);
        if !isNull && p.data[row] == 1 { values := SetPackedBit(values, outRow); }
        seen, outRow := seen + [row], outRow + 1;
        w := And(w, w - 1);
      }
      BoolLeaveWord(p, words, len, k, seen, values, builder.appended);
    }
    EndWords(words, len, seen);
    BoolEnds(p, rows, values, builder.appended);
    var nulls := builder.Finish();
    return Ok(Packed(values, selectedLen, nulls));
  }

  /** `plain_bool_array_for_selection`: one result for every selection form. */
  method CollectBools(p: Page, sel: Selection) returns (r: Result<Packed>)
    ensures r.Ok? <==> Visited(sel, p.rowCount).Ok? && BoolsAccepted(p, Visited(sel, p.rowCount).value)
    ensures r.Ok? ==> r.value == BoolExport(p, Visited(sel, p.rowCount).value)
  {
    if p.rowCount > |p.data| { return Err(OffsetRange); }
    var hasNulls :- HasNulls(p.validity);
    match sel
    case All =>
      if hasNulls {
        r := CollectBoolRows(p, Identity(p.rowCount));
      } else {
        r := CollectAllNoNulls(p);
      }
    case Rows(rows) =>
      var visited :- ForEachRow(sel, p.rowCount);
      r := CollectBoolRows(p, visited);
    case Bitset(words, len) =>
      if len != p.rowCount { return Err(OffsetRange); }
      var selectedLen :- CountBitsetRows(words, len);
      r := CollectBoolBitset(p, words, len, selectedLen);
  }
}
