/** The overlapping-word copies of the VarBytes fast path. A row of up to 64
    bytes is moved with unaligned loads of 1, 2, 4 or 8 bytes, and the strict
    variant collects the ASCII high bits of everything it loads. */
module ByteCopy {
  import opened Machine
  import opened Bits
  import opened LittleEndian
  import opened Utf8

  /** 0x80 in each of `n` bytes: `0x8080`, `0x8080_8080`, `ASCII_HIGH_BIT_MASK_U64`. */
  function HighBitMask(n: nat): nat {
    if n == 0 then 0 else 0x80 + 256 * HighBitMask(n - 1)
  }

  lemma {:induction false} HighBitMaskBit(n: nat, i: nat)
    ensures Bit(HighBitMask(n), i) <==> i / 8 < n && i % 8 == 7
    decreases n
  {
    if n == 0 {
      ZeroHasNoBits(i);
    } else {
      Widths();
      BitSplit(0x80, HighBitMask(n - 1), 8, i);
      HighBitOfByte(0x80);
      if i >= 8 { HighBitMaskBit(n - 1, i - 8); }
    }
  }

  /** `word & mask` is zero exactly when every loaded byte is ASCII. */
  lemma WordMask(s: seq<byte>)
    ensures And(LeNat(s), HighBitMask(|s|)) == 0 <==> IsAscii(s)
  {
    var w := And(LeNat(s), HighBitMask(|s|));
    forall i: nat
      ensures Bit(w, i) <==> i / 8 < |s| && i % 8 == 7 && s[i / 8] >= 128
    {
      BitAnd(LeNat(s), HighBitMask(|s|), i);
      LeNatBit(s, i);
      HighBitMaskBit(|s|, i);
      if i / 8 < |s| { HighBitOfByte(s[i / 8]); }
    }
    if IsAscii(s) {
      NoBitsIsZero(w);
    } else {
      var j :| 0 <= j < |s| && s[j] >= 128;
      assert Bit(w, 8 * j + 7) by { assert (8 * j + 7) / 8 == j && (8 * j + 7) % 8 == 7; }
      ZeroHasNoBits(8 * j + 7);
    }
  }

  /** `(first | last) & mask` as used for two overlapping loads of the same width. */
  lemma PairMask(s: seq<byte>, t: seq<byte>)
    requires |s| == |t|
    ensures And(Or(LeNat(s), LeNat(t)), HighBitMask(|s|)) == 0 <==> IsAscii(s) && IsAscii(t)
  {
    var m := HighBitMask(|s|);
    var both := And(Or(LeNat(s), LeNat(t)), m);
    forall i: nat
      ensures Bit(both, i) <==> Bit(And(LeNat(s), m), i) || Bit(And(LeNat(t), m), i)
    {
      BitAnd(Or(LeNat(s), LeNat(t)), m, i);
      BitOr(LeNat(s), LeNat(t), i);
      BitAnd(LeNat(s), m, i);
      BitAnd(LeNat(t), m, i);
    }
    WordMask(s);
    WordMask(t);
    forall i: nat ensures !Bit(0, i) { ZeroHasNoBits(i); }
    if IsAscii(s) && IsAscii(t) { NoBitsIsZero(both); }
    if both == 0 {
      NoBitsIsZero(And(LeNat(s), m));
      NoBitsIsZero(And(LeNat(t), m));
    }
  }

  /** `d` with the bytes from `to` on replaced by `bytes`. */
  function Splice(d: seq<byte>, to: nat, bytes: seq<byte>): (r: seq<byte>)
    requires to + |bytes| <= |d|
    ensures |r| == |d|
  {
    d[..to] + bytes + d[to + |bytes|..]
  }

  /** Writing the two ends of a row, which overlap or touch, writes the row. */
  lemma SpliceBothEnds(d: seq<byte>, to: nat, row: seq<byte>, width: nat)
    requires to + |row| <= |d| && width <= |row| <= 2 * width
    ensures Splice(Splice(d, to, row[..width]), to + |row| - width, row[|row| - width..])
            == Splice(d, to, row)
  {
  }

  lemma SpliceNext(d: seq<byte>, to: nat, a: seq<byte>, b: seq<byte>)
    requires to + |a| + |b| <= |d|
    ensures Splice(Splice(d, to, a), to + |a|, b) == Splice(d, to, a + b)
  {
  }

  /** `ptr::copy_nonoverlapping`: `copy_varbytes_value` without the mask. */
  method CopyPlain(row: seq<byte>, dst: array<byte>, to: nat)
    requires to + |row| <= dst.Length
    modifies dst
    ensures dst[..] == Splice(old(dst[..]), to, row)
  {
    for i := 0 to |row|
      invariant forall j :: 0 <= j < i ==> dst[to + j] == row[j]
      invariant forall j :: 0 <= j < dst.Length && !(to <= j < to + i) ==> dst[j] == old(dst[j])
    {
      dst[to + i] := row[i];
    }
  }

  /** `ptr::write_unaligned` of a word: its little-endian bytes, in place. */
  method WriteWord(dst: array<byte>, to: nat, w: nat, width: nat)
    requires to + width <= dst.Length
    modifies dst
    ensures dst[..] == Splice(old(dst[..]), to, LeBytes(w, width))
  {
    CopyPlain(LeBytes(w, width), dst, to);
  }

  /** One unaligned load and store of `width` bytes; returns the loaded word. */
  method MoveWord(src: seq<byte>, dst: array<byte>, to: nat) returns (w: nat)
    requires to + |src| <= dst.Length
    modifies dst
    ensures w == LeNat(src)
    ensures dst[..] == Splice(old(dst[..]), to, src)
  {
    w := LeNat(src);
    WriteWord(dst, to, w, |src|);
    LeBytesOfNat(src);
  }

  /** Two overlapping moves of `width` bytes carry a row of width..2 * width bytes. */
  method MovePair(row: seq<byte>, dst: array<byte>, to: nat, width: nat) returns (mask: nat)
    requires to + |row| <= dst.Length && width <= |row| <= 2 * width
    modifies dst
    ensures dst[..] == Splice(old(dst[..]), to, row)
    ensures mask == 0 <==> IsAscii(row)
  {
    var at := |row| - width;
    var first := MoveWord(row[..width], dst, to);
    var last := MoveWord(row[at..], dst, to + at);
    SpliceBothEnds(old(dst[..]), to, row, width);
    PairMask(row[..width], row[at..]);
    OverlapCovers(row, width);
    mask := And(Or(first, last), HighBitMask(width));
  }

  lemma OverlapCovers(s: seq<byte>, width: nat)
    requires width <= |s| <= 2 * width
    ensures IsAscii(s) <==> IsAscii(s[..width]) && IsAscii(s[|s| - width..])
  {
    if IsAscii(s[..width]) && IsAscii(s[|s| - width..]) {
      forall i | 0 <= i < |s| ensures s[i] < 0x80 {
        if i < width { assert s[i] == s[..width][i]; }
        else { assert s[i] == s[|s| - width..][i - (|s| - width)]; }
      }
    }
  }

  lemma AsciiConcat(a: seq<byte>, b: seq<byte>)
    ensures IsAscii(a + b) <==> IsAscii(a) && IsAscii(b)
  {
    if IsAscii(a + b) {
      forall i | 0 <= i < |a| ensures a[i] < 0x80 { assert a[i] == (a + b)[i]; }
      forall i | 0 <= i < |b| ensures b[i] < 0x80 { assert b[i] == (a + b)[|a| + i]; }
    }
  }

  /** `copy_small_varbytes_value_ascii_mask`: rows of at most 16 bytes. Three
      bytes go as a pair of two and one; other sizes as one word or two ends. */
  method CopySmallAsciiMask(row: seq<byte>, dst: array<byte>, to: nat) returns (mask: nat)
    requires to + |row| <= dst.Length && |row| <= 16
    modifies dst
    ensures dst[..] == Splice(old(dst[..]), to, row)
    ensures mask == 0 <==> IsAscii(row)
  {
    var len := |row|;
    if len == 0 {
      assert row == [];
      return 0;
    } else if len == 3 {
      var first := MoveWord(row[..2], dst, to);
      var last := MoveWord(row[2..], dst, to + 2);
      SpliceNext(old(dst[..]), to, row[..2], row[2..]);
      assert row == row[..2] + row[2..];
      WordMask(row[..2]);
      WordMask(row[2..]);
      AsciiConcat(row[..2], row[2..]);
      var m1, m2 := And(first, HighBitMask(2)), And(last, HighBitMask(1));
      OrIsZero(m1, m2);
      return Or(m1, m2);
    } else if len == 1 || len == 2 || len == 4 || len == 8 {
      var w := MoveWord(row, dst, to);
      WordMask(row);
      return And(w, HighBitMask(len));
    } else if len <= 7 {
      mask := MovePair(row, dst, to, 4);
    } else {
      mask := MovePair(row, dst, to, 8);
    }
  }

  /** `ascii_high_bit_mask`: eight bytes at a time, then byte by byte. */
  method ScanAsciiMask(row: seq<byte>) returns (mask: nat)
    ensures mask == 0 <==> IsAscii(row)
  {
    mask := 0;
    var offset := 0;
    while offset + 8 <= |row|
      invariant offset <= |row| && (mask == 0 <==> IsAscii(row[..offset]))
    {
      mask := AddMask(row, offset, 8, LeNat(row[offset..offset + 8]), mask);
      offset := offset + 8;
    }
    while offset < |row|
      invariant offset <= |row| && (mask == 0 <==> IsAscii(row[..offset]))
    {
      mask := AddMask(row, offset, 1, LeNat(row[offset..offset + 1]), mask);
      offset := offset + 1;
    }
    assert row[..offset] == row;
  }

  /** `mask |= word & HIGH_BITS` for the word loaded from the `n` bytes at `offset`. */
  function AddMask(row: seq<byte>, offset: nat, n: nat, w: nat, mask: nat): (r: nat)
    requires offset + n <= |row| && w == LeNat(row[offset..offset + n])
    requires mask == 0 <==> IsAscii(row[..offset])
    ensures r == 0 <==> IsAscii(row[..offset + n])
  {
    var next := row[offset..offset + n];
    WordMask(next);
    assert row[..offset + n] == row[..offset] + next;
    AsciiConcat(row[..offset], next);
    OrIsZero(mask, And(w, HighBitMask(n)));
    Or(mask, And(w, HighBitMask(n)))
  }

  /** `copy_varbytes_value_ascii_mask`: an exact copy whose mask is zero exactly
      when the whole row is ASCII, whatever the row's length. */
  method CopyAsciiMask(row: seq<byte>, dst: array<byte>, to: nat) returns (mask: nat)
    requires to + |row| <= dst.Length
    modifies dst
    ensures dst[..] == Splice(old(dst[..]), to, row)
    ensures mask == 0 <==> IsAscii(row)
  {
    if |row| <= 16 {
      mask := CopySmallAsciiMask(row, dst, to);
    } else if |row| <= 64 {
      mask := CopyMediumAsciiMask(row, dst, to);
    } else {
      CopyPlain(row, dst, to);
      mask := ScanAsciiMask(row);
    }
  }

  lemma SpliceGrow(d: seq<byte>, to: nat, row: seq<byte>, offset: nat, n: nat)
    requires to + |row| <= |d| && offset + n <= |row|
    ensures Splice(Splice(d, to, row[..offset]), to + offset, row[offset..offset + n])
            == Splice(d, to, row[..offset + n])
  {
    assert row[..offset + n] == row[..offset] + row[offset..offset + n];
    SpliceNext(d, to, row[..offset], row[offset..offset + n]);
  }

  /** The whole words of a 17..64 byte row. */
  method CopyWords(row: seq<byte>, dst: array<byte>, to: nat) returns (mask: nat, offset: nat)
    requires to + |row| <= dst.Length
    modifies dst
    ensures offset <= |row| < offset + 8
    ensures dst[..] == Splice(old(dst[..]), to, row[..offset])
    ensures mask == 0 <==> IsAscii(row[..offset])
  {
    mask, offset := 0, 0;
    assert row[..0] == [];
    while offset + 8 <= |row|
      invariant offset <= |row| && (mask == 0 <==> IsAscii(row[..offset]))
      invariant dst[..] == Splice(old(dst[..]), to, row[..offset])
    {
      var w := MoveWord(row[offset..offset + 8], dst, to + offset);
      SpliceGrow(old(dst[..]), to, row, offset, 8);
      mask := AddMask(row, offset, 8, w, mask);
      offset := offset + 8;
    }
  }

  /** The 17..64 byte case: whole words first, then the small copy for the tail. */
  method CopyMediumAsciiMask(row: seq<byte>, dst: array<byte>, to: nat) returns (mask: nat)
    requires to + |row| <= dst.Length
    modifies dst
    ensures dst[..] == Splice(old(dst[..]), to, row)
    ensures mask == 0 <==> IsAscii(row)
  {
    var offset;
    mask, offset := CopyWords(row, dst, to);
    assert row == row[..offset] + row[offset..];
    if offset < |row| {
      var tail := CopySmallAsciiMask(row[offset..], dst, to + offset);
      SpliceNext(old(dst[..]), to, row[..offset], row[offset..]);
      AsciiConcat(row[..offset], row[offset..]);
      OrIsZero(mask, tail);
      mask := Or(mask, tail);
    } else {
      assert row[..offset] == row;
    }
  }
}
