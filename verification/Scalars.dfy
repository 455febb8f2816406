/** Flat materialised columns: the values the converter keeps in memory, the page
    bytes it writes for a range of rows, and how a reader gets the rows back. */
module Scalars {
  import opened Machine
  import opened Bits
  import opened LittleEndian
  import opened VarBytes

  /** `CovePhysicalKind` for scalar columns. */
  datatype Kind = BooleanKind | FileCodeKind | NumCodeKind | VarBytesKind | FixedBytesKind(width: nat)

  type u32 = x: int | 0 <= x <= 0xFFFF_FFFF
  type u64 = x: int | 0 <= x <= 0xFFFF_FFFF_FFFF_FFFF

  /** One scalar value. */
  datatype Scalar = Code(code: u64) | Bytes(bytes: seq<byte>)

  datatype MaterializedValues =
    | Booleans(flags: seq<byte>)
    | FileCodes(codes: seq<u32>)
    | NumCodes(nums: seq<u64>)
    | VarByteRows(rows: seq<seq<byte>>)
    | FixedByteRows(width: nat, fixed: seq<seq<byte>>)

  function KindOf(v: MaterializedValues): Kind {
    match v
    case Booleans(_) => BooleanKind
    case FileCodes(_) => FileCodeKind
    case NumCodes(_) => NumCodeKind
    case VarByteRows(_) => VarBytesKind
    case FixedByteRows(width, _) => FixedBytesKind(width)
  }

  function RowCount(v: MaterializedValues): nat {
    match v
    case Booleans(s) => |s|
    case FileCodes(s) => |s|
    case NumCodes(s) => |s|
    case VarByteRows(s) => |s|
    case FixedByteRows(_, s) => |s|
  }

  function ScalarAt(v: MaterializedValues, row: nat): Scalar
    requires row < RowCount(v)
  {
    match v
    case Booleans(s) => Code(s[row])
    case FileCodes(s) => Code(s[row])
    case NumCodes(s) => Code(s[row])
    case VarByteRows(s) => Bytes(s[row])
    case FixedByteRows(_, s) => Bytes(s[row])
  }

  /** Every listed row lies below `n`. */
  predicate Within(order: seq<nat>, n: nat) {
    forall i :: 0 <= i < |order| ==> order[i] < n
  }

  /** `reorder_copy` and `reorder_clone` */
  function Pick<T>(s: seq<T>, order: seq<nat>): (r: seq<T>)
    requires Within(order, |s|)
    ensures |r| == |order| && forall i :: 0 <= i < |r| ==> r[i] == s[order[i]]
  {
    seq(|order|, i requires 0 <= i < |order| => s[order[i]])
  }

  function ReorderValues(v: MaterializedValues, order: seq<nat>): (r: MaterializedValues)
    requires Within(order, RowCount(v))
    ensures KindOf(r) == KindOf(v) && RowCount(r) == |order|
    ensures forall i :: 0 <= i < |order| ==> ScalarAt(r, i) == ScalarAt(v, order[i])
  {
    match v
    case Booleans(s) => Booleans(Pick(s, order))
    case FileCodes(s) => FileCodes(Pick(s, order))
    case NumCodes(s) => NumCodes(Pick(s, order))
    case VarByteRows(s) => VarByteRows(Pick(s, order))
    case FixedByteRows(width, s) => FixedByteRows(width, Pick(s, order))
  }

  /** The page bytes of one row, or why it cannot be written. */
  function EncodeScalar(kind: Kind, s: Scalar): Result<seq<byte>> {
    match (kind, s)
    case (BooleanKind, Code(b)) => Ok([b % 256])
    case (FileCodeKind, Code(c)) => Ok(LeBytes(c, 4))
    case (NumCodeKind, Code(n)) => Ok(LeBytes(n, 8))
    case (VarBytesKind, Bytes(b)) =>
      if |b| > U32_MAX then Err(ArithOverflow) else Ok(LeBytes(|b|, 4) + b)
    case (FixedBytesKind(width), Bytes(b)) => if |b| != width then Err(BadSchema) else Ok(b)
    case _ => Err(BadSchema)
  }

  /** The concatenated page bytes of `len` rows from `start`. */
  function Encoded(v: MaterializedValues, start: nat, len: nat): Result<seq<byte>>
    requires start + len <= RowCount(v)
    decreases len
  {
    if len == 0 then Ok([])
    else
      match EncodeScalar(KindOf(v), ScalarAt(v, start))
      case Err(e) => Err(e)
      case Ok(first) =>
        match Encoded(v, start + 1, len - 1)
        case Err(e) => Err(e)
        case Ok(rest) => Ok(first + rest)
  }

  /** Every row in the range can be written. */
  ghost predicate Encodable(v: MaterializedValues, start: nat, len: nat)
    requires start + len <= RowCount(v)
  {
    forall i :: start <= i < start + len ==> EncodeScalar(KindOf(v), ScalarAt(v, i)).Ok?
  }

  function Append(front: seq<byte>, rest: Result<seq<byte>>): Result<seq<byte>> {
    match rest
    case Err(e) => Err(e)
    case Ok(bytes) => Ok(front + bytes)
  }

  /** `encode_rows`: one growing output buffer over the slice. */
  method EncodeRows(v: MaterializedValues, start: nat, len: nat) returns (r: Result<seq<byte>>)
    requires start + len <= RowCount(v)
    ensures r == Encoded(v, start, len)
  {
    var out: seq<byte> := [];
    AppendNothing(Encoded(v, start, len));
    for i := 0 to len
      invariant Encoded(v, start, len) == Append(out, Encoded(v, start + i, len - i))
    {
      var row :- EncodeScalar(KindOf(v), ScalarAt(v, start + i));
      AppendMore(out, row, Encoded(v, start + i + 1, len - i - 1));
      out := out + row;
    }
    assert out + [] == out;
    return Ok(out);
  }

  lemma AppendNothing(rest: Result<seq<byte>>)
    ensures Append([], rest) == rest
  {
    if rest.Ok? { assert [] + rest.value == rest.value; }
  }

  lemma AppendMore(out: seq<byte>, row: seq<byte>, rest: Result<seq<byte>>)
    ensures Append(out, Append(row, rest)) == Append(out + row, rest)
  {
    if rest.Ok? { assert out + (row + rest.value) == (out + row) + rest.value; }
  }

  lemma {:induction false} EncodedIffEncodable(v: MaterializedValues, start: nat, len: nat)
    requires start + len <= RowCount(v)
    ensures Encoded(v, start, len).Ok? <==> Encodable(v, start, len)
    decreases len
  {
    if len > 0 { EncodedIffEncodable(v, start + 1, len - 1); }
  }

  /** How a reader splits `n` rows off a page: u32 prefixes for VarBytes, fixed
      widths otherwise. */
  function DecodeRow(kind: Kind, data: seq<byte>): Result<(Scalar, seq<byte>)> {
    match kind
    case VarBytesKind =>
      (match ReadU32Range(data, 0)
       case Err(e) => Err(e)
       case Ok(range) => Ok((Bytes(data[range.start..range.end]), data[range.end..])))
    case BooleanKind => if |data| < 1 then Err(OffsetRange) else Ok((Code(data[0]), data[1..]))
    case FileCodeKind =>
      if |data| < 4 then Err(OffsetRange)
      else
        U32Range(data[..4]);
        Ok((Code(LeNat(data[..4])), data[4..]))
    case NumCodeKind =>
      if |data| < 8 then Err(OffsetRange)
      else
        Widths();
        LeBytesOfNat(data[..8]);
        Ok((Code(LeNat(data[..8])), data[8..]))
    case FixedBytesKind(width) =>
      if |data| < width then Err(OffsetRange) else Ok((Bytes(data[..width]), data[width..]))
  }

  function DecodeRows(kind: Kind, data: seq<byte>, n: nat): (r: Result<seq<Scalar>>)
    ensures r.Ok? ==> |r.value| == n
    decreases n
  {
    if n == 0 then if data == [] then Ok([]) else Err(PageCorrupt)
    else
      match DecodeRow(kind, data)
      case Err(e) => Err(e)
      case Ok((first, rest)) =>
        match DecodeRows(kind, rest, n - 1)
        case Err(e) => Err(e)
        case Ok(more) => Ok([first] + more)
  }

  lemma DecodeEncoded(kind: Kind, s: Scalar, rest: seq<byte>)
    requires EncodeScalar(kind, s).Ok?
    requires kind == BooleanKind ==> s.code < 256
    requires kind == FileCodeKind ==> s.code <= U32_MAX
    ensures DecodeRow(kind, EncodeScalar(kind, s).value + rest) == Ok((s, rest))
  {
    var row := EncodeScalar(kind, s).value;
    assert (row + rest)[|row|..] == rest && (row + rest)[..|row|] == row;
    match kind
    case BooleanKind =>
    case FileCodeKind => U32RoundTrip(s.code);
    case NumCodeKind => U64RoundTrip(s.code);
    case FixedBytesKind(_) =>
    case VarBytesKind =>
      U32RoundTrip(|s.bytes|);
      assert (row + rest)[0..4] == LeBytes(|s.bytes|, 4);
      assert (row + rest)[4..4 + |s.bytes|] == s.bytes;
  }

  lemma CodesFit(v: MaterializedValues, row: nat)
    requires row < RowCount(v)
    ensures KindOf(v) == BooleanKind ==> ScalarAt(v, row).Code? && ScalarAt(v, row).code < 256
    ensures KindOf(v) == FileCodeKind ==> ScalarAt(v, row).Code? && ScalarAt(v, row).code <= U32_MAX
  {
  }

  /** The rows of a range. */
  function ScalarsOf(v: MaterializedValues, start: nat, len: nat): (r: seq<Scalar>)
    requires start + len <= RowCount(v)
    ensures |r| == len
  {
    seq(len, i requires 0 <= i < len => ScalarAt(v, start + i))
  }

  lemma ScalarsOfStep(v: MaterializedValues, start: nat, len: nat)
    requires 0 < len && start + len <= RowCount(v)
    ensures ScalarsOf(v, start, len) == [ScalarAt(v, start)] + ScalarsOf(v, start + 1, len - 1)
  {
  }

  /** Write then read is the identity: the page of a row range decodes, with
      nothing left over, to exactly those rows. */
  lemma {:induction false} PageRoundTrip(v: MaterializedValues, start: nat, len: nat)
    requires start + len <= RowCount(v) && Encoded(v, start, len).Ok?
    ensures DecodeRows(KindOf(v), Encoded(v, start, len).value, len) == Ok(ScalarsOf(v, start, len))
    decreases len
  {
    if len > 0 {
      CodesFit(v, start);
      ScalarsOfStep(v, start, len);
      hide EncodeScalar, DecodeRow, ScalarAt, KindOf, ScalarsOf;
      var rest := Encoded(v, start + 1, len - 1).value;
      DecodeEncoded(KindOf(v), ScalarAt(v, start), rest);
      PageRoundTrip(v, start + 1, len - 1);
    }
  }
}
