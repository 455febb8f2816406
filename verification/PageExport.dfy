/** Write, split, export: what the Arrow routes make of a page the converter wrote is
    what the column held. */
module PageExport {
  import opened Machine
  import opened Bits
  import opened LittleEndian
  import opened Validity
  import opened Scalars
  import opened Nested
  import opened VarBytes
  import opened NumCodes
  import opened Booleans
  import opened RowOrder
  import opened Segments
  import opened Pages

  /** The page an Arrow export is given after `SplitPage`. */
  function PageBack(c: ConvertedColumn, t: Tile): Page
    requires ColumnOk(c) && !c.nested && t.start + t.len <= RowsOf(c) && Encoded(c.data.vals, t.start, t.len).Ok?
  {
    Page(Encoded(c.data.vals, t.start, t.len).value, t.len, PageValidity(NullSlice(c, t)))
  }

  /** The page's null bitmap reads back row by row. */
  lemma ValidityBack(p: Page, nulls: seq<bool>)
    requires p.validity == PageValidity(nulls) && p.rowCount == |nulls|
    ensures HasNulls(p.validity) == Ok(PageEmit.AnyNull(nulls))
    ensures forall row: nat :: row < |nulls| ==> NullAt(p, PageEmit.AnyNull(nulls), row) == Ok(nulls[row])
  {
    forall row: nat | row < |nulls|
      ensures row / 8 < |PackBits(nulls)| && Bit(PackBits(nulls)[row / 8], row % 8) == nulls[row]
    {
      PackedBit(nulls, row);
    }
    if PageEmit.AnyNull(nulls) {
      var i :| 0 <= i < |nulls| && nulls[i];
      assert Bit(PackBits(nulls)[i / 8], i % 8);
    }
  }

  lemma NullsBack(p: Page, nulls: seq<bool>, rows: seq<nat>)
    requires p.validity == PageValidity(nulls) && p.rowCount == |nulls| && Within(rows, |nulls|)
    ensures NullsReadable(p, rows)
    ensures forall row: nat :: row < |nulls| ==>
              (HasNulls(p.validity) == Ok(true) && IsNull(p, row) == Ok(true) <==> nulls[row])
  {
    ValidityBack(p, nulls);
  }

  /** A row of the page is valid exactly when the column's row is not null. */
  lemma ValidBack(c: ConvertedColumn, t: Tile)
    requires ColumnOk(c) && !c.nested && t.start + t.len <= RowsOf(c) && Encoded(c.data.vals, t.start, t.len).Ok?
    ensures NullsReadable(PageBack(c, t), Identity(t.len))
    ensures forall row: nat :: row < t.len ==> ValidAt(PageBack(c, t), row) == !c.data.nulls[t.start + row]
  {
    hide HasNulls, IsNull, NullsReadable, Encoded, PageValidity, WellFormed;
    NullsBack(PageBack(c, t), NullSlice(c, t), Identity(t.len));
    forall row: nat | row < t.len ensures ValidAt(PageBack(c, t), row) == !c.data.nulls[t.start + row] {
      assert NullSlice(c, t)[row] == c.data.nulls[t.start + row];
    }
  }

  // ---- VarBytes ----

  lemma OneRowBack(data: seq<byte>, pre: seq<byte>, row: seq<byte>, rest: seq<byte>)
    requires |row| <= U32_MAX && data == pre + ((LeBytes(|row|, 4) + row) + rest)
    ensures |pre| + 4 + |row| <= |data| && data[|pre| + 4..|pre| + 4 + |row|] == row
    ensures ReadU32Range(data, |pre|) == Ok(Range(|pre| + 4, |pre| + 4 + |row|))
    ensures data == (pre + (LeBytes(|row|, 4) + row)) + rest
  {
    hide *;
    U32Fits(row);
    FrameSlices(data, pre, LeBytes(|row|, 4), row, rest);
    ReadAt(data, |pre|, |row|);
  }

  lemma FrameSlices(data: seq<byte>, pre: seq<byte>, prefix: seq<byte>, row: seq<byte>, rest: seq<byte>)
    requires |prefix| == 4 && data == pre + ((prefix + row) + rest)
    ensures |pre| + 4 + |row| <= |data| && data[|pre| + 4..|pre| + 4 + |row|] == row
    ensures data[|pre|..|pre| + 4] == prefix && data == (pre + (prefix + row)) + rest
  {
  }

  lemma U32Fits(row: seq<byte>)
    requires |row| <= U32_MAX
    ensures LeNat(LeBytes(|row|, 4)) == |row|
  {
    U32RoundTrip(|row|);
  }

  lemma ReadAt(data: seq<byte>, pos: nat, len: nat)
    requires pos + 4 + len <= |data| && LeNat(data[pos..pos + 4]) == len
    ensures ReadU32Range(data, pos) == Ok(Range(pos + 4, pos + 4 + len))
  {
  }

  ghost predicate SlicesAre(data: seq<byte>, ranges: seq<Range>, rows: seq<seq<byte>>) {
    && |ranges| == |rows| && RangesIn(ranges, |data|)
    && forall i :: 0 <= i < |rows| ==> data[ranges[i].start..ranges[i].end] == rows[i]
  }

  /** Parsing the written rows finds every one of them. */
  lemma {:induction false} ParseBack(v: MaterializedValues, start: nat, len: nat, pre: seq<byte>)
    requires v.VarByteRows? && start + len <= |v.rows| && Encoded(v, start, len).Ok?
    ensures var data := pre + Encoded(v, start, len).value;
            var parsed := ParseFrom(U32Prefixed, data, |pre|, len);
            parsed.Ok? && SlicesAre(data, parsed.value, v.rows[start..start + len])
    decreases len
  {
    hide Encoded, ParseFrom, LeBytes, ReadU32Range, SlicesAre;
    if len == 0 {
      NothingBack(v, start, pre);
    } else {
      var row := v.rows[start];
      RowEncoded(v, start, len);
      var rest, data := Encoded(v, start + 1, len - 1).value, pre + Encoded(v, start, len).value;
      var next, range := pre + (LeBytes(|row|, 4) + row), Range(|pre| + 4, |pre| + 4 + |row|);
      OneRowBack(data, pre, row, rest);
      ParseBack(v, start + 1, len - 1, next);
      assert next + rest == data && |next| == range.end;
      assert v.rows[start..start + len] == [row] + v.rows[start + 1..start + len];
      ParseOneMore(data, |pre|, range, len);
      SlicesCons(data, range, ParseFrom(U32Prefixed, data, range.end, len - 1).value, row,
                 v.rows[start + 1..start + len]);
    }
  }

  lemma NothingBack(v: MaterializedValues, start: nat, pre: seq<byte>)
    requires v.VarByteRows? && start <= |v.rows|
    ensures Encoded(v, start, 0) == Ok([]) && SlicesAre(pre + [], [], v.rows[start..start])
    ensures ParseFrom(U32Prefixed, pre + [], |pre|, 0) == Ok([])
  {
    assert pre + [] == pre;
  }

  lemma RowEncoded(v: MaterializedValues, start: nat, len: nat)
    requires v.VarByteRows? && start + len <= |v.rows| && len > 0 && Encoded(v, start, len).Ok?
    ensures var row := v.rows[start];
            && |row| <= U32_MAX && Encoded(v, start + 1, len - 1).Ok?
            && Encoded(v, start, len).value == (LeBytes(|row|, 4) + row) + Encoded(v, start + 1, len - 1).value
  {
  }

  lemma ParseOneMore(data: seq<byte>, pos: nat, range: Range, len: nat)
    requires len > 0 && pos <= |data| && ReadU32Range(data, pos) == Ok(range) && range.end <= |data|
    requires ParseFrom(U32Prefixed, data, range.end, len - 1).Ok?
    ensures ParseFrom(U32Prefixed, data, pos, len)
      == Ok([range] + ParseFrom(U32Prefixed, data, range.end, len - 1).value)
  {
    hide ReadU32Range;
  }

  lemma SlicesCons(data: seq<byte>, r: Range, ranges: seq<Range>, row: seq<byte>, rows: seq<seq<byte>>)
    requires r.start <= r.end <= |data| && data[r.start..r.end] == row && SlicesAre(data, ranges, rows)
    ensures SlicesAre(data, [r] + ranges, [row] + rows)
  {
  }

  /** The logical rows of a VarBytes range: absent when null. */
  function VarBytesCells(c: ConvertedColumn, t: Tile): (r: seq<Cell>)
    requires ColumnOk(c) && !c.nested && c.data.vals.VarByteRows? && t.start + t.len <= RowsOf(c)
    ensures |r| == t.len
  {
    seq(t.len, i requires 0 <= i < t.len =>
      if c.data.nulls[t.start + i] then None else Some(c.data.vals.rows[t.start + i]))
  }

  /** A written VarBytes page parses to exactly its rows, so every route exports
      them, as long as they fit Arrow's 32-bit offsets. */
  lemma VarBytesPageBack(c: ConvertedColumn, t: Tile)
    requires ColumnOk(c) && !c.nested && c.data.vals.VarByteRows? && t.start + t.len <= RowsOf(c)
    requires Encoded(c.data.vals, t.start, t.len).Ok?
    ensures var p := PageBack(c, t);
            && Parse(U32Prefixed, p).Ok? && AllCells(U32Prefixed, p) == VarBytesCells(c, t)
            && (AllRowsExportable(U32Prefixed, p) <==> |VarBytes.Flat(VarBytesCells(c, t))| <= I32_MAX)
  {
    var p := PageBack(c, t);
    PageParses(c, t);
    ValidBack(c, t);
    var ranges := Parse(U32Prefixed, p).value;
    assert p.rowCount == t.len;
    hide Encoded, ParseFrom, ValidAt, NullsReadable, VarBytes.Flat, WellFormed, PageBack, Parse;
    forall i | 0 <= i < t.len ensures AllCells(U32Prefixed, p)[i] == VarBytesCells(c, t)[i] {
      CellIsValid(p, ranges, i);
    }
  }

  lemma PageParses(c: ConvertedColumn, t: Tile)
    requires ColumnOk(c) && !c.nested && c.data.vals.VarByteRows? && t.start + t.len <= RowsOf(c)
    requires Encoded(c.data.vals, t.start, t.len).Ok?
    ensures var p := PageBack(c, t);
            && Parse(U32Prefixed, p).Ok? && |Parse(U32Prefixed, p).value| == t.len
            && RangesIn(Parse(U32Prefixed, p).value, |p.data|)
            && forall i :: 0 <= i < t.len ==>
                 var range := Parse(U32Prefixed, p).value[i];
                 p.data[range.start..range.end] == c.data.vals.rows[t.start + i]
  {
    var p := PageBack(c, t);
    ParseBack(c.data.vals, t.start, t.len, []);
    assert [] + p.data == p.data && p.rowCount == t.len;
    hide ParseFrom, Encoded;
    var ranges := Parse(U32Prefixed, p).value;
    forall i | 0 <= i < t.len ensures p.data[ranges[i].start..ranges[i].end] == c.data.vals.rows[t.start + i] {
      assert c.data.vals.rows[t.start..t.start + t.len][i] == c.data.vals.rows[t.start + i];
    }
  }

  lemma CellIsValid(p: Page, ranges: seq<Range>, row: nat)
    requires row < |ranges| && RangesIn(ranges, |p.data|)
    ensures CellAt(p, ranges, row) == if ValidAt(p, row) then Some(p.data[ranges[row].start..ranges[row].end]) else None
  {
  }

  // ---- NumCode ----

  lemma {:induction false} CodesEncoded(v: MaterializedValues, start: nat, len: nat)
    requires v.NumCodes? && start + len <= |v.nums|
    ensures Encoded(v, start, len).Ok? && |Encoded(v, start, len).value| == 8 * len
    ensures forall i :: 0 <= i < len ==> Encoded(v, start, len).value[8 * i..8 * i + 8] == LeBytes(v.nums[start + i], 8)
    decreases len
  {
    if len > 0 {
      CodesEncoded(v, start + 1, len - 1);
      var all, rest := Encoded(v, start, len).value, Encoded(v, start + 1, len - 1).value;
      assert all == LeBytes(v.nums[start], 8) + rest;
      hide Encoded, LeBytes;
      forall i | 0 <= i < len ensures all[8 * i..8 * i + 8] == LeBytes(v.nums[start + i], 8) {
        if i > 0 { assert all[8 * i..8 * i + 8] == rest[8 * (i - 1)..8 * (i - 1) + 8]; }
      }
    }
  }

  /** A written NumCode page exports as its codes, zero in null slots; the signed
      route takes it exactly when no present code reaches 2^63. */
  lemma CodePageBack(c: ConvertedColumn, t: Tile)
    requires ColumnOk(c) && !c.nested && c.data.vals.NumCodes? && t.start + t.len <= RowsOf(c)
    ensures Encoded(c.data.vals, t.start, t.len).Ok?
    ensures var p, rows := PageBack(c, t), Identity(t.len);
            && CodesAccepted(p, rows, false)
            && (CodesAccepted(p, rows, true) <==>
                  forall i :: t.start <= i < t.start + t.len && !c.data.nulls[i] ==> c.data.vals.nums[i] <= I64_MAX)
            && |CodeExport(p, rows).values| == t.len && CodeExport(p, rows).nulls == NullsOf(ValidFlagsOf(c, t))
            && forall i :: 0 <= i < t.len ==>
                 CodeExport(p, rows).values[i] == if c.data.nulls[t.start + i] then 0 else c.data.vals.nums[t.start + i]
  {
    hide Encoded, ValidAt, NullsReadable, PageBack, CodeAt, LeBytes;
    CodesBack(c, t);
    var p, rows := PageBack(c, t), Identity(t.len);
    ExportedCodes(p, t.len);
    FlagsBack(c, t);
    CodeNulls(p, rows);
    var nums := c.data.vals.nums;
    hide CodeExport, Flags, NullsOf, ValidFlagsOf;
    if CodesAccepted(p, rows, true) {
      forall i | t.start <= i < t.start + t.len && !c.data.nulls[i] ensures nums[i] <= I64_MAX {
        assert CodeAt(p, rows[i - t.start]) <= I64_MAX;
      }
    }
  }

  /** Which rows of a range are present. */
  function ValidFlagsOf(c: ConvertedColumn, t: Tile): (r: seq<bool>)
    requires ColumnOk(c) && t.start + t.len <= RowsOf(c)
    ensures |r| == t.len
  {
    seq(t.len, i requires 0 <= i < t.len => !c.data.nulls[t.start + i])
  }

  lemma FlagsBack(c: ConvertedColumn, t: Tile)
    requires ColumnOk(c) && !c.nested && t.start + t.len <= RowsOf(c) && Encoded(c.data.vals, t.start, t.len).Ok?
    ensures Flags(PageBack(c, t), Identity(t.len)) == ValidFlagsOf(c, t)
  {
    ValidBack(c, t);
    hide ValidAt, PageBack, Encoded, NullsReadable;
  }

  lemma CodeNulls(p: Page, rows: seq<nat>)
    requires 8 * p.rowCount <= |p.data| && RowsIn(p, rows)
    ensures CodeExport(p, rows).nulls == NullsOf(Flags(p, rows))
  {
  }

  lemma ExportedCodes(p: Page, n: nat)
    requires p.rowCount == n && 8 * n <= |p.data|
    ensures RowsIn(p, Identity(n)) && |CodeExport(p, Identity(n)).values| == n
    ensures forall i :: 0 <= i < n ==> CodeExport(p, Identity(n)).values[i] == CodeAt(p, i)
  {
    hide CodeAt;
  }

  lemma CodesBack(c: ConvertedColumn, t: Tile)
    requires ColumnOk(c) && !c.nested && c.data.vals.NumCodes? && t.start + t.len <= RowsOf(c)
    ensures Encoded(c.data.vals, t.start, t.len).Ok?
    ensures var p := PageBack(c, t);
            && p.rowCount == t.len && 8 * t.len <= |p.data| && NullsReadable(p, Identity(t.len))
            && forall i :: 0 <= i < t.len ==>
                 CodeAt(p, i) == if c.data.nulls[t.start + i] then 0 else c.data.vals.nums[t.start + i]
  {
    var nums := c.data.vals.nums;
    CodesEncoded(c.data.vals, t.start, t.len);
    var p := PageBack(c, t);
    ValidBack(c, t);
    assert p.rowCount == t.len && 8 * t.len <= |p.data| && p.data == Encoded(c.data.vals, t.start, t.len).value;
    forall i | 0 <= i < t.len ensures CodeAt(p, i) == if c.data.nulls[t.start + i] then 0 else nums[t.start + i] {
      hide Encoded, PageBack, WellFormed, HasNulls, IsNull, LeBytes, LeNat;
      U64RoundTrip(nums[t.start + i]);
      assert CodeAt(p, i) == if ValidAt(p, i) then ReadCode(p.data, i) else 0;
    }
  }

  // ---- Boolean ----

  lemma {:induction false} BoolsEncoded(v: MaterializedValues, start: nat, len: nat)
    requires v.Booleans? && start + len <= |v.flags|
    ensures Encoded(v, start, len) == Ok(v.flags[start..start + len])
    decreases len
  {
    if len == 0 {
      assert v.flags[start..start] == [];
    } else {
      BoolsEncoded(v, start + 1, len - 1);
      assert EncodeScalar(KindOf(v), ScalarAt(v, start)) == Ok([v.flags[start]]);
      assert v.flags[start..start + len] == [v.flags[start]] + v.flags[start + 1..start + len];
    }
  }

  /** A written Boolean page is accepted when its bytes are 0 and 1, as the converter
      makes them, and packs to exactly the column's flags. */
  lemma BoolPageBack(c: ConvertedColumn, t: Tile)
    requires ColumnOk(c) && !c.nested && c.data.vals.Booleans? && t.start + t.len <= RowsOf(c)
    ensures Encoded(c.data.vals, t.start, t.len).Ok?
    ensures var p, rows := PageBack(c, t), Identity(t.len);
            && (BoolsAccepted(p, rows) <==> forall i :: t.start <= i < t.start + t.len ==> c.data.vals.flags[i] <= 1)
            && p.rowCount <= |p.data| && RowsIn(p, rows) && BoolExport(p, rows).nulls == NullsOf(ValidFlagsOf(c, t))
            && forall i :: 0 <= i < t.len ==>
                 BoolsOf(p, rows)[i] == (!c.data.nulls[t.start + i] && c.data.vals.flags[t.start + i] == 1)
  {
    var flags := c.data.vals.flags;
    BoolsEncoded(c.data.vals, t.start, t.len);
    ValidBack(c, t);
    FlagsBack(c, t);
    var p, rows := PageBack(c, t), Identity(t.len);
    assert p.rowCount == t.len && p.data == flags[t.start..t.start + t.len];
    forall i | 0 <= i < t.len ensures p.data[rows[i]] == flags[t.start + i] {}
    hide Encoded, ValidAt, NullsReadable, WellFormed, PageBack;
    if BoolsAccepted(p, rows) {
      forall i | t.start <= i < t.start + t.len ensures flags[i] <= 1 {
        assert p.data[rows[i - t.start]] <= 1;
      }
    }
  }
}
