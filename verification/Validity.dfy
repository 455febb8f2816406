/** Null bitmaps (a set bit means null, COVE side) and validity bitmaps (a set
    bit means valid, Arrow side), with the incremental Arrow builder. */
module Validity {
  import opened Machine
  import opened Bits
  import opened LittleEndian

  /** A COVE null bitmap over `rowCount` rows. */
  datatype Bitmap = Bitmap(bytes: seq<byte>, rowCount: nat)

  function BitmapIsNull(bm: Bitmap, row: nat): Result<bool> {
    if row >= bm.rowCount || row / 8 >= |bm.bytes| then Err(OffsetRange)
    else Ok(Bit(bm.bytes[row / 8], row % 8))
  }

  /** `null_count()? > 0`, with no bitmap meaning no nulls. */
  function HasNulls(validity: Option<Bitmap>): Result<bool> {
    match validity
    case None => Ok(false)
    case Some(bm) =>
      if |bm.bytes| < (bm.rowCount + 7) / 8 then Err(BufferTooShort)
      else Ok(exists row: nat | row < bm.rowCount :: Bit(bm.bytes[row / 8], row % 8))
  }

  function PackFrom(bits: seq<bool>): (w: nat)
    ensures w < Pow2(|bits|)
  {
    if bits == [] then 0 else (if bits[0] then 1 else 0) + 2 * PackFrom(bits[1..])
  }

  /** `bitpacked_len` */
  function PackedLen(n: nat): nat {
    (n + 7) / 8
  }

  function PackByte(bits: seq<bool>, j: nat): byte
    requires j < PackedLen(|bits|)
  {
    var chunk := bits[8 * j..Min(8 * j + 8, |bits|)];
    ChunkFitsByte(chunk);
    PackFrom(chunk)
  }

  /** LSB-first packing: bit i lands in byte i / 8 at position i % 8. */
  function PackBits(bits: seq<bool>): (bytes: seq<byte>)
    ensures |bytes| == PackedLen(|bits|)
  {
    seq(PackedLen(|bits|), j requires 0 <= j < PackedLen(|bits|) => PackByte(bits, j))
  }

  lemma ChunkFitsByte(chunk: seq<bool>)
    requires |chunk| <= 8
    ensures PackFrom(chunk) < 256
  {
    Widths();
    Pow2Monotone(|chunk|, 8);
  }

  lemma {:induction false} Pow2Monotone(a: nat, b: nat)
    requires a <= b
    ensures Pow2(a) <= Pow2(b)
    decreases b
  {
    if a < b { Pow2Monotone(a, b - 1); }
  }

  lemma {:induction false} PackFromBit(bits: seq<bool>, i: nat)
    ensures Bit(PackFrom(bits), i) <==> i < |bits| && bits[i]
    decreases |bits|
  {
    if bits == [] {
      ZeroHasNoBits(i);
    } else if i > 0 {
      PackFromBit(bits[1..], i - 1);
    }
  }

  /** `bytes` holds exactly `bits`, with every padding bit clear. */
  ghost predicate PackedAs(bytes: seq<byte>, bits: seq<bool>) {
    && |bytes| == PackedLen(|bits|)
    && forall j: nat, k: nat :: j < |bytes| && k < 8 ==>
         (Bit(bytes[j], k) <==> 8 * j + k < |bits| && bits[8 * j + k])
  }

  lemma PackBitsPacked(bits: seq<bool>)
    ensures PackedAs(PackBits(bits), bits)
  {
    forall j: nat, k: nat | j < PackedLen(|bits|) && k < 8
      ensures Bit(PackBits(bits)[j], k) <==> 8 * j + k < |bits| && bits[8 * j + k]
    {
      PackFromBit(bits[8 * j..Min(8 * j + 8, |bits|)], k);
    }
  }

  /** Reading bit i of the packed form gives back the i-th flag. */
  lemma PackedBit(bits: seq<bool>, i: nat)
    requires i < |bits|
    ensures i / 8 < |PackBits(bits)| && Bit(PackBits(bits)[i / 8], i % 8) == bits[i]
  {
    PackBitsPacked(bits);
    assert i == 8 * (i / 8) + i % 8;
  }

  /** The packed form is the only byte string that holds the flags. */
  lemma PackedUnique(bytes: seq<byte>, bits: seq<bool>)
    requires PackedAs(bytes, bits)
    ensures bytes == PackBits(bits)
  {
    PackBitsPacked(bits);
    Widths();
    forall j: nat | j < |bytes| ensures bytes[j] == PackBits(bits)[j] {
      forall k: nat | k < 8 ensures Bit(bytes[j], k) == Bit(PackBits(bits)[j], k) {}
      SameBitsSameWord(bytes[j], PackBits(bits)[j], 8);
    }
  }

  lemma OrFitsByte(b: byte, k: nat)
    requires k < 8
    ensures Or(b, Pow2(k)) < 256
  {
    Widths();
    forall i: nat | 8 <= i ensures !Bit(Or(b, Pow2(k)), i) {
      BitOr(b, Pow2(k), i);
      BitPow2(k, i);
      SmallHasNoHighBits(b, 8, i);
    }
    NoHighBitsIsSmall(Or(b, Pow2(k)), 8);
  }

  /** `set_packed_bit`: `bytes[index / 8] |= 1 << (index % 8)` */
  function SetPackedBit(bytes: seq<byte>, index: nat): seq<byte>
    requires index / 8 < |bytes|
  {
    OrFitsByte(bytes[index / 8], index % 8);
    bytes[index / 8 := Or(bytes[index / 8], Pow2(index % 8))]
  }

  lemma SetPackedBitSets(bytes: seq<byte>, bits: seq<bool>, i: nat)
    requires PackedAs(bytes, bits) && i < |bits|
    ensures PackedAs(SetPackedBit(bytes, i), bits[i := true])
  {
    var after := SetPackedBit(bytes, i);
    forall j: nat, k: nat | j < |after| && k < 8
      ensures Bit(after[j], k) <==> 8 * j + k < |bits| && bits[i := true][8 * j + k]
    {
      if j == i / 8 {
        BitOr(bytes[j], Pow2(i % 8), k);
        BitPow2(i % 8, k);
      }
    }
  }

  function Zeros(n: nat): (s: seq<byte>)
    ensures |s| == n && forall i :: 0 <= i < n ==> s[i] == 0
  {
    seq(n, _ => 0)
  }

  function Falses(n: nat): (s: seq<bool>)
    ensures |s| == n && forall i :: 0 <= i < n ==> !s[i]
  {
    seq(n, _ => false)
  }

  lemma ZerosPackFalses(n: nat)
    ensures PackedAs(Zeros(PackedLen(n)), Falses(n))
  {
    forall k: nat ensures !Bit(0, k) { ZeroHasNoBits(k); }
  }

  /** An Arrow null buffer: packed validity bits, their count, and the null count. */
  datatype NullBuffer = NullBuffer(bytes: seq<byte>, len: nat, nullCount: nat)

  function CountFalse(valid: seq<bool>): (n: nat)
    ensures n == 0 <==> forall i :: 0 <= i < |valid| ==> valid[i]
  {
    if valid == [] then 0
    else
      var rest := valid[..|valid| - 1];
      assert forall i :: 0 <= i < |rest| ==> rest[i] == valid[i];
      CountFalse(rest) + if valid[|valid| - 1] then 0 else 1
  }

  /** The null buffer that describes these validity flags: none when all are valid. */
  function NullsOf(valid: seq<bool>): Option<NullBuffer> {
    if CountFalse(valid) == 0 then None
    else Some(NullBuffer(PackBits(valid), |valid|, CountFalse(valid)))
  }

  class ArrowValidityBuilder {
    var bytes: seq<byte>
    const len: nat
    var pos: nat
    var nullCount: nat
    ghost var appended: seq<bool>

    ghost predicate Valid()
      reads this
    {
      && pos == |appended| <= len
      && nullCount == CountFalse(appended)
      && PackedAs(bytes, appended + Falses(len - pos))
    }

    constructor (n: nat)
      ensures Valid() && len == n && appended == []
    {
      bytes := Zeros(PackedLen(n));
      len, pos, nullCount, appended := n, 0, 0, [];
      ZerosPackFalses(n);
      assert [] + Falses(n) == Falses(n);
    }

    method Append(isValid: bool)
      requires Valid() && pos < len
      modifies this
      ensures Valid() && appended == old(appended) + [isValid]
    {
      ghost var before := appended + Falses(len - pos);
      ghost var after := appended + [isValid] + Falses(len - pos - 1);
      if isValid {
        SetPackedBitSets(bytes, before, pos);
        assert after == before[pos := true];
        bytes := SetPackedBit(bytes, pos);
      } else {
        assert after == before;
        nullCount := nullCount + 1;
      }
      appended := appended + [isValid];
      assert appended[..|appended| - 1] == old(appended);
      pos := pos + 1;
    }

    method Finish() returns (nulls: Option<NullBuffer>)
      requires Valid() && pos == len
      ensures nulls == NullsOf(appended)
    {
      if nullCount == 0 { return None; }
      assert appended + Falses(0) == appended;
      PackedUnique(bytes, appended);
      return Some(NullBuffer(bytes, len, nullCount));
    }
  }
}
