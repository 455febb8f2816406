/** UTF-8 well-formedness (section 4 of RFC 3629) and the row-wise validation
    that the Arrow string export performs on one concatenated buffer. */
module Utf8 {
  import opened Machine
  import opened Bits
  import opened LittleEndian

  predicate IsContinuation(b: byte) {
    0x80 <= b < 0xC0
  }

  /** The test `(b & 0b1100_0000) == 0b1000_0000` recognises continuation bytes. */
  lemma ContinuationMask(b: byte)
    ensures And(b, 0xC0) == 0x80 <==> IsContinuation(b)
  {
    TopBits(b);
    if And(b, 0xC0) == 64 * (b / 64) { assert b / 64 == 2 <==> IsContinuation(b); }
  }

  lemma TopBits(b: byte)
    ensures And(b, 0xC0) == 64 * (b / 64)
  {
    var high := b / 64;
    assert Pow2(6) == 64 && Pow2(2) == 4 && Pow2(8) == 256;
    forall i: nat ensures Bit(And(b, 0xC0), i) == Bit(64 * high, i) {
      BitAnd(b, 0xC0, i);
      BitSplit(b % 64, high, 6, i);
      BitSplit(0, high, 6, i);
      BitSplit(0, 3, 6, i);
      if i < 6 {
        ZeroHasNoBits(i);
      } else {
        TwoBits(high, i - 6);
      }
    }
    forall i: nat | 8 <= i ensures !Bit(64 * high, i) {
      SmallHasNoHighBits(64 * high, 8, i);
    }
    NoHighBitsIsSmall(And(b, 0xC0), 8);
    SameBitsSameWord(And(b, 0xC0), 64 * high, 8);
  }

  lemma TwoBits(w: nat, i: nat)
    requires w < 4
    ensures Bit(w, i) && Bit(3, i) <==> Bit(w, i)
  {
    if i >= 2 {
      SmallHasNoHighBits(w, 2, i);
    } else {
      assert Bit(3, 0) && Bit(3, 1);
    }
  }

  predicate InRange(lo: byte, b: byte, hi: byte) {
    lo <= b <= hi
  }

  /** The length of the UTF-8 character at the front of `s`, or 0 when no
      production of the RFC 3629 grammar matches there. */
  function CharLen(s: seq<byte>): (n: nat)
    ensures n <= 4 && n <= |s|
    ensures n > 0 ==> !IsContinuation(s[0])
    ensures forall i :: 1 <= i < n ==> IsContinuation(s[i])
  {
    if |s| >= 1 && s[0] < 0x80 then 1
    else if |s| >= 2 && InRange(0xC2, s[0], 0xDF) && IsContinuation(s[1]) then 2
    else if |s| >= 3 && InRange(0xE0, s[0], 0xEF) && IsContinuation(s[1]) && IsContinuation(s[2])
            && (s[0] == 0xE0 ==> s[1] >= 0xA0) && (s[0] == 0xED ==> s[1] <= 0x9F) then 3
    else if |s| >= 4 && InRange(0xF0, s[0], 0xF4)
            && IsContinuation(s[1]) && IsContinuation(s[2]) && IsContinuation(s[3])
            && (s[0] == 0xF0 ==> s[1] >= 0x90) && (s[0] == 0xF4 ==> s[1] <= 0x8F) then 4
    else 0
  }

  /** What the whole-buffer check `simdutf8::basic::from_utf8` decides. */
  predicate WellFormed(s: seq<byte>)
    decreases |s|
  {
    s == [] || (CharLen(s) > 0 && WellFormed(s[CharLen(s)..]))
  }

  predicate IsAscii(s: seq<byte>) {
    forall i :: 0 <= i < |s| ==> s[i] < 0x80
  }

  lemma {:induction false} AsciiIsWellFormed(s: seq<byte>)
    requires IsAscii(s)
    ensures WellFormed(s)
    decreases |s|
  {
    if s != [] { AsciiIsWellFormed(s[1..]); }
  }

  lemma CharLenPrefix(s: seq<byte>, t: seq<byte>)
    requires CharLen(s) > 0
    ensures CharLen(s + t) == CharLen(s)
  {
  }

  lemma CharLenOfTake(s: seq<byte>, k: nat)
    requires 0 < CharLen(s) <= k <= |s|
    ensures CharLen(s[..k]) == CharLen(s)
  {
  }

  lemma {:induction false} ConcatWellFormed(s: seq<byte>, t: seq<byte>)
    requires WellFormed(s) && WellFormed(t)
    ensures WellFormed(s + t)
    decreases |s|
  {
    if s == [] {
      assert s + t == t;
    } else {
      var n := CharLen(s);
      ConcatWellFormed(s[n..], t);
      PrependChar(s, t, n);
    }
  }

  lemma PrependChar(s: seq<byte>, t: seq<byte>, n: nat)
    requires 0 < n == CharLen(s) && WellFormed(s[n..] + t)
    ensures WellFormed(s + t)
  {
    CharLenPrefix(s, t);
    assert (s + t)[n..] == s[n..] + t;
  }

  /** Cutting a well-formed text anywhere but before a continuation byte leaves
      two well-formed texts. */
  lemma {:induction false} CutAtBoundary(s: seq<byte>, k: nat)
    requires WellFormed(s) && k <= |s|
    requires k < |s| ==> !IsContinuation(s[k])
    ensures WellFormed(s[..k]) && WellFormed(s[k..])
    decreases |s|
  {
    if k == 0 {
      assert s[k..] == s;
    } else {
      var n := CharLen(s);
      CutAtBoundary(s[n..], k - n);
      assert s[..k][n..] == s[n..][..k - n];
      assert s[n..][k - n..] == s[k..];
      CharLenOfTake(s, k);
    }
  }

  /** Offsets that an Arrow byte array may carry over a buffer of `len` bytes. */
  ghost predicate OffsetsCover(offsets: seq<int>, len: nat) {
    && |offsets| > 0 && offsets[0] == 0 && offsets[|offsets| - 1] == len
    && forall i, j :: 0 <= i <= j < |offsets| ==> offsets[i] <= offsets[j]
  }

  function Row(offsets: seq<int>, values: seq<byte>, i: nat): seq<byte>
    requires i + 1 < |offsets| && 0 <= offsets[i] <= offsets[i + 1] <= |values|
  {
    values[offsets[i]..offsets[i + 1]]
  }

  ghost predicate RowsWellFormed(offsets: seq<int>, values: seq<byte>, n: nat)
    requires OffsetsCover(offsets, |values|) && n < |offsets|
  {
    forall i: nat :: i < n ==> WellFormed(Row(offsets, values, i))
  }

  /** No non-empty row except one at position 0 starts inside a character. */
  ghost predicate RowsStartCharacters(offsets: seq<int>, values: seq<byte>, n: nat)
    requires OffsetsCover(offsets, |values|) && n < |offsets|
  {
    forall i: nat :: i < n && offsets[i] != 0 && offsets[i] != offsets[i + 1]
      ==> !IsContinuation(values[offsets[i]])
  }

  lemma {:induction false} RowsConcatenate(offsets: seq<int>, values: seq<byte>, n: nat)
    requires OffsetsCover(offsets, |values|) && n < |offsets|
    requires RowsWellFormed(offsets, values, n)
    ensures WellFormed(values[..offsets[n]])
    decreases n
  {
    if n > 0 {
      RowsConcatenate(offsets, values, n - 1);
      ConcatWellFormed(values[..offsets[n - 1]], Row(offsets, values, n - 1));
      assert values[..offsets[n]] == values[..offsets[n - 1]] + Row(offsets, values, n - 1);
    }
  }

  lemma {:induction false} BoundariesSplitRows(offsets: seq<int>, values: seq<byte>, n: nat)
    requires OffsetsCover(offsets, |values|) && n < |offsets|
    requires WellFormed(values[..offsets[n]]) && RowsStartCharacters(offsets, values, n)
    ensures RowsWellFormed(offsets, values, n)
    decreases n
  {
    if n > 0 {
      var s, k := values[..offsets[n]], offsets[n - 1];
      if k == 0 { assert s[k..] == s && s[..k] == []; }
      if 0 < k { CutAtBoundary(s, k); }
      assert s[..k] == values[..offsets[n - 1]];
      assert s[k..] == Row(offsets, values, n - 1);
      BoundariesSplitRows(offsets, values, n - 1);
    }
  }

  /** The theorem behind one-shot validation: one well-formed buffer whose rows
      start on characters is the same as every row being well-formed by itself. */
  lemma WholeBufferIffEveryRow(offsets: seq<int>, values: seq<byte>)
    requires OffsetsCover(offsets, |values|)
    ensures WellFormed(values) && RowsStartCharacters(offsets, values, |offsets| - 1)
            <==> RowsWellFormed(offsets, values, |offsets| - 1)
  {
    var n := |offsets| - 1;
    assert values[..offsets[n]] == values;
    if RowsWellFormed(offsets, values, n) {
      RowsConcatenate(offsets, values, n);
      forall i: nat | i < n && offsets[i] != 0 && offsets[i] != offsets[i + 1]
        ensures !IsContinuation(values[offsets[i]])
      {
        var row := Row(offsets, values, i);
        assert WellFormed(row) && row[0] == values[offsets[i]];
      }
    } else if WellFormed(values) && RowsStartCharacters(offsets, values, n) {
      BoundariesSplitRows(offsets, values, n);
    }
  }

  /** `validate_utf8_offsets_slice`: a single pass over the offsets, an ASCII
      shortcut, then one whole-buffer check. */
  method ValidateOffsets(offsets: seq<int>, values: seq<byte>) returns (r: Result<()>)
    ensures OffsetsCover(offsets, |values|) ==>
              (r.Ok? <==> RowsWellFormed(offsets, values, |offsets| - 1))
    ensures r.Ok? ==> WellFormed(values)
  {
    var i := 0;
    while i + 1 < |offsets|
      invariant 0 <= i && (|offsets| > 0 ==> i < |offsets|)
      invariant OffsetsCover(offsets, |values|) ==> RowsStartCharacters(offsets, values, i)
    {
      var start, end := offsets[i], offsets[i + 1];
      if start < 0 || end < 0 { return Err(OffsetRange); }
      if start > end || end > |values| { return Err(OffsetRange); }
      if start != 0 && start != end { ContinuationMask(values[start]); }
      if start != 0 && start != end && And(values[start], 0xC0) == 0x80 {
        if OffsetsCover(offsets, |values|) { WholeBufferIffEveryRow(offsets, values); }
        return Err(BadSection);
      }
      i := i + 1;
    }
    if OffsetsCover(offsets, |values|) { WholeBufferIffEveryRow(offsets, values); }
    if IsAscii(values) {
      AsciiIsWellFormed(values);
      return Ok(());
    }
    if WellFormed(values) { return Ok(()); }
    return Err(BadSection);
  }
}
