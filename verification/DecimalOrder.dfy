/** Decimal128 columns are clustered by their raw little-endian bytes: exactly when
    that order is the numeric one. */
module DecimalOrder {
  import opened Machine
  import opened Bits
  import opened LittleEndian
  import opened Scalars
  import opened Nested
  import opened RowOrder

  /** The lowest and the highest byte at which two values differ. */
  function LowestDifference(a: seq<byte>, b: seq<byte>): (i: nat)
    requires |a| == |b| && a != b
    ensures i < |a| && a[i] != b[i]
  {
    if a[0] != b[0] then 0
    else
      assert a == [a[0]] + a[1..] && b == [b[0]] + b[1..];
      1 + LowestDifference(a[1..], b[1..])
  }

  function HighestDifference(a: seq<byte>, b: seq<byte>): (i: nat)
    requires |a| == |b| && a != b
    ensures i < |a| && a[i] != b[i] && forall j :: i < j < |a| ==> a[j] == b[j]
  {
    if a[1..] == b[1..] then
      assert a == [a[0]] + a[1..] && b == [b[0]] + b[1..];
      assert forall j :: 0 < j < |a| ==> a[j] == a[1..][j - 1] && b[j] == b[1..][j - 1];
      0
    else
      assert forall j :: 0 < j < |a| ==> a[j] == a[1..][j - 1] && b[j] == b[1..][j - 1];
      1 + HighestDifference(a[1..], b[1..])
  }

  /** The weight of byte i: the last byte carries the sign. */
  function SignedByte(s: seq<byte>, i: nat): int
    requires i < |s|
  {
    if i == |s| - 1 && s[i] >= 128 then (s[i] as int) - 256 else s[i]
  }

  lemma {:induction false} LowestDecides(a: seq<byte>, b: seq<byte>)
    requires |a| == |b| && a != b
    ensures var i := LowestDifference(a, b); CompareBytes(a, b) == CompareInt(a[i], b[i])
    decreases |a|
  {
    if a[0] == b[0] {
      assert a == [a[0]] + a[1..] && b == [b[0]] + b[1..];
      LowestDecides(a[1..], b[1..]);
    }
  }

  lemma {:induction false} HighestDecidesUnsigned(a: seq<byte>, b: seq<byte>)
    requires |a| == |b| && a != b
    ensures var i := HighestDifference(a, b); CompareInt(LeNat(a), LeNat(b)) == CompareInt(a[i], b[i])
    decreases |a|
  {
    if a[1..] != b[1..] { HighestDecidesUnsigned(a[1..], b[1..]); }
  }

  /** The value with its sign bit flipped, which turns signed order into unsigned order. */
  function Biased(s: seq<byte>): (r: seq<byte>)
    requires s != []
    ensures |r| == |s|
  {
    s[..|s| - 1] + [FlipSign(s[|s| - 1])]
  }

  function FlipSign(b: byte): byte {
    if b < 128 then b + 128 else b - 128
  }

  lemma {:induction false} LeNatSnoc(s: seq<byte>, b: byte)
    ensures LeNat(s + [b]) == LeNat(s) + Pow2(8 * |s|) * b
    decreases |s|
  {
    if s == [] {
      assert s + [b] == [b] && [b][1..] == [];
    } else {
      assert (s + [b])[1..] == s[1..] + [b];
      LeNatSnoc(s[1..], b);
      Pow2Byte(|s|);
      Distribute(LeNat(s[1..]), Pow2(8 * (|s| - 1)), b);
    }
  }

  lemma Distribute(v: nat, p: nat, b: nat)
    ensures 256 * (v + p * b) == 256 * v + (256 * p) * b
  {
  }

  lemma SignedIsBiased(s: seq<byte>)
    requires s != []
    ensures SignedLe(s) == LeNat(Biased(s)) - 128 * Pow2(8 * (|s| - 1))
  {
    hide *;
    var front, last := s[..|s| - 1], s[|s| - 1];
    assert s == front + [last];
    BiasedIs(front, last);
    LeNatSnoc(front, last);
    LeNatSnoc(front, FlipSign(last));
    LeBytesOfNat(front);
    Pow2Byte(|s|);
    SignedLeIs(s);
    BiasArithmetic(LeNat(front), Pow2(8 * |front|), last);
  }

  lemma BiasedIs(front: seq<byte>, last: byte)
    ensures Biased(front + [last]) == front + [FlipSign(last)]
  {
  }

  lemma SignedLeIs(s: seq<byte>)
    ensures SignedLe(s) == if 2 * LeNat(s) < Pow2(8 * |s|) then LeNat(s) else LeNat(s) - Pow2(8 * |s|)
  {
  }

  lemma BiasArithmetic(f: nat, p: nat, b: byte)
    requires f < p
    ensures (if 2 * (f + p * b) < 256 * p then f + p * b else f + p * b - 256 * p) == f + p * FlipSign(b) - 128 * p
  {
    TopByte(f, p, b);
  }

  lemma TopByte(f: nat, p: nat, b: byte)
    requires f < p
    ensures 2 * (f + p * b) < 256 * p <==> b < 128
    ensures p * FlipSign(b) == if b < 128 then p * b + 128 * p else p * b - 128 * p
  {
    if b < 128 {
      Steps(b, 127, p);
    } else {
      Steps(128, b, p);
    }
  }

  lemma Steps(x: nat, y: nat, p: nat)
    requires x <= y
    ensures p * x <= p * y
  {
  }

  lemma BiasKeepsDifference(a: seq<byte>, b: seq<byte>)
    requires |a| == |b| && a != b
    ensures Biased(a) != Biased(b) && HighestDifference(Biased(a), Biased(b)) == HighestDifference(a, b)
    ensures var i := HighestDifference(a, b);
            CompareInt(Biased(a)[i], Biased(b)[i]) == CompareInt(SignedByte(a, i), SignedByte(b, i))
  {
    hide HighestDifference;
    HighestUnique(Biased(a), Biased(b), HighestDifference(a, b));
  }

  lemma HighestUnique(a: seq<byte>, b: seq<byte>, i: nat)
    requires |a| == |b| && i < |a| && a[i] != b[i] && forall j :: i < j < |a| ==> a[j] == b[j]
    ensures a != b && HighestDifference(a, b) == i
  {
    hide HighestDifference;
    assert a[HighestDifference(a, b)] != b[HighestDifference(a, b)];
  }

  /** Signed numeric order is decided by the highest differing byte. */
  lemma HighestDecides(a: seq<byte>, b: seq<byte>)
    requires |a| == |b| && a != b
    ensures var i := HighestDifference(a, b);
            CompareInt(SignedLe(a), SignedLe(b)) == CompareInt(SignedByte(a, i), SignedByte(b, i))
  {
    SignedIsBiased(a);
    SignedIsBiased(b);
    BiasKeepsDifference(a, b);
    HighestDecidesUnsigned(Biased(a), Biased(b));
    hide SignedLe, LeNat, Biased, HighestDifference, SignedByte;
  }

  /** What has to hold of two different values: their lowest and their highest
      differing byte, the sign byte as signed, compare the same way. */
  predicate BytesAgree(a: seq<byte>, b: seq<byte>)
    requires |a| == |b|
  {
    a == b ||
    var low, high := LowestDifference(a, b), HighestDifference(a, b);
    CompareInt(a[low], b[low]) == CompareInt(SignedByte(a, high), SignedByte(b, high))
  }

  /** Raw byte order is numeric order for exactly these pairs. */
  lemma NumericOrderIff(a: seq<byte>, b: seq<byte>)
    requires |a| == |b|
    ensures CompareBytes(a, b) == CompareInt(SignedLe(a), SignedLe(b)) <==> BytesAgree(a, b)
  {
    if a == b {
      BytesFlip(a, b);
    } else {
      LowestDecides(a, b);
      HighestDecides(a, b);
    }
  }

  function DecimalAt(c: ConvertedColumn, row: nat): seq<byte>
    requires ColumnOk(c) && IsDecimal(c) && row < RowsOf(c)
  {
    c.data.vals.fixed[row]
  }

  ghost predicate IsDecimal(c: ConvertedColumn)
    requires ColumnOk(c)
  {
    && !c.nested && c.logical == Decimal128 && c.data.vals.FixedByteRows?
    && forall i :: 0 <= i < |c.data.vals.fixed| ==> |c.data.vals.fixed[i]| == 16
  }

  /** A Decimal128 column is clustered numerically exactly when all pairs of its
      present values agree in this sense. */
  lemma DecimalColumnIff(c: ConvertedColumn)
    requires ColumnOk(c) && IsDecimal(c)
    ensures (forall x: nat, y: nat :: x < RowsOf(c) && y < RowsOf(c) && !c.data.nulls[x] && !c.data.nulls[y] ==>
               CompareRows(c, x, y) == CompareInt(SignedLe(DecimalAt(c, x)), SignedLe(DecimalAt(c, y))))
            <==> (forall x: nat, y: nat :: x < RowsOf(c) && y < RowsOf(c) && !c.data.nulls[x] && !c.data.nulls[y] ==>
                    BytesAgree(DecimalAt(c, x), DecimalAt(c, y)))
  {
    forall x: nat, y: nat | x < RowsOf(c) && y < RowsOf(c) && !c.data.nulls[x] && !c.data.nulls[y]
      ensures CompareRows(c, x, y) == CompareInt(SignedLe(DecimalAt(c, x)), SignedLe(DecimalAt(c, y)))
              <==> BytesAgree(DecimalAt(c, x), DecimalAt(c, y))
    {
      hide CompareBytes, SignedLe, BytesAgree;
      NumericOrderIff(DecimalAt(c, x), DecimalAt(c, y));
    }
    hide *;
  }

  /** Values that differ in one byte below the sign byte always agree; 256 and 1 do not. */
  lemma OneByteAgrees(a: seq<byte>, i: nat, b: byte)
    requires i < |a| - 1
    ensures BytesAgree(a, a[i := b])
  {
    var c := a[i := b];
    if a[i] != b {
      HighestUnique(a, c, i);
      var low := LowestDifference(a, c);
      assert low == i;
    }
  }

  lemma DecimalOrderIsNotNumeric()
    ensures var a, b := [0, 1] + seq(14, _ => 0), [1] + seq(15, _ => 0);
            && SignedLe(a) == 256 && SignedLe(b) == 1 && CompareBytes(a, b) == Less && !BytesAgree(a, b)
  {
    var a: seq<byte>, b: seq<byte> := [0, 1] + seq(14, _ => 0), [1] + seq(15, _ => 0);
    assert a[1..] == [1] + seq(14, _ => 0) && b[1..] == seq(15, _ => 0);
    assert a[1..][1..] == seq(14, _ => 0);
    ZeroBytes(14);
    ZeroBytes(15);
    LeBytesOfNat(a);
    Pow2Byte(16);
    assert Pow2(8 * 15) > 1 by { Pow2Byte(15); }
    NumericOrderIff(a, b);
  }

  lemma {:induction false} ZeroBytes(n: nat)
    ensures LeNat(seq(n, _ => 0)) == 0
    decreases n
  {
    if n > 0 {
      assert seq(n, _ => 0)[1..] == seq(n - 1, _ => 0);
      ZeroBytes(n - 1);
    }
  }
}
