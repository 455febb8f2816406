/** Little-endian integers, as `to_le_bytes` and `from_le_bytes` lay them out. */
module LittleEndian {
  import opened Machine
  import opened Bits

  function LeNat(s: seq<byte>): nat {
    if s == [] then 0 else s[0] + 256 * LeNat(s[1..])
  }

  /** `i128::from_le_bytes` */
  function SignedLe(bytes: seq<byte>): int {
    var v := LeNat(bytes);
    if 2 * v < Pow2(8 * |bytes|) then v else v - Pow2(8 * |bytes|)
  }

  function LeBytes(v: nat, n: nat): (s: seq<byte>)
    ensures |s| == n
  {
    if n == 0 then [] else [v % 256] + LeBytes(v / 256, n - 1)
  }

  lemma {:induction false} LeNatOfBytes(v: nat, n: nat)
    requires v < Pow2(8 * n)
    ensures LeNat(LeBytes(v, n)) == v
    decreases n
  {
    if n > 0 {
      Pow2Byte(n);
      LeNatOfBytes(v / 256, n - 1);
      assert LeBytes(v, n)[1..] == LeBytes(v / 256, n - 1);
    }
  }

  lemma {:induction false} LeBytesOfNat(s: seq<byte>)
    ensures LeBytes(LeNat(s), |s|) == s
    ensures LeNat(s) < Pow2(8 * |s|)
    decreases |s|
  {
    if s != [] {
      LeBytesOfNat(s[1..]);
      Pow2Byte(|s|);
    }
  }

  lemma Pow2Byte(n: nat)
    requires n > 0
    ensures Pow2(8 * n) == 256 * Pow2(8 * (n - 1))
  {
    Pow2Add(8, 8 * (n - 1));
    assert Pow2(8) == 256;
  }

  lemma {:induction false} Pow2Add(a: nat, b: nat)
    ensures Pow2(a + b) == Pow2(a) * Pow2(b)
    decreases a
  {
    if a > 0 {
      Pow2Add(a - 1, b);
      var x, y := Pow2(a - 1), Pow2(b);
      assert 2 * (x * y) == (2 * x) * y;
    }
  }

  lemma Widths()
    ensures Pow2(8) == 256 && Pow2(16) == 0x1_0000
    ensures Pow2(32) == 0x1_0000_0000 && Pow2(64) == 0x1_0000_0000_0000_0000
  {
    Pow2Byte(1); Pow2Byte(2); Pow2Byte(3); Pow2Byte(4);
    Pow2Byte(5); Pow2Byte(6); Pow2Byte(7); Pow2Byte(8);
  }

  /** A u32 written with `to_le_bytes` reads back as itself. */
  lemma U32RoundTrip(v: nat)
    requires v <= U32_MAX
    ensures LeNat(LeBytes(v, 4)) == v
  {
    Widths();
    LeNatOfBytes(v, 4);
  }

  lemma U64RoundTrip(v: nat)
    requires v <= U64_MAX
    ensures LeNat(LeBytes(v, 8)) == v
  {
    Widths();
    LeNatOfBytes(v, 8);
  }

  lemma U32Range(s: seq<byte>)
    requires |s| == 4
    ensures LeNat(s) <= U32_MAX
  {
    Widths();
    LeBytesOfNat(s);
  }

  /** The word loaded from a byte slice has, at bit i, bit i % 8 of byte i / 8. */
  lemma {:induction false} LeNatBit(s: seq<byte>, i: nat)
    ensures Bit(LeNat(s), i) <==> i / 8 < |s| && Bit(s[i / 8], i % 8)
    decreases |s|
  {
    if s == [] {
      ZeroHasNoBits(i);
    } else {
      Widths();
      BitSplit(s[0], LeNat(s[1..]), 8, i);
      if i >= 8 {
        LeNatBit(s[1..], i - 8);
        assert i / 8 == (i - 8) / 8 + 1 && i % 8 == (i - 8) % 8;
      }
    }
  }

  /** Bit 7 of a byte is the ASCII high bit. */
  lemma HighBitOfByte(b: byte)
    ensures Bit(b, 7) <==> b >= 128
    ensures forall i: nat :: Bit(128, i) <==> i == 7
  {
    Widths();
    assert Pow2(7) == 128;
    if b >= 128 {
      BitSplit(b - 128, 1, 7, 7);
      assert Pow2(7) * 1 == 128;
    } else {
      SmallHasNoHighBits(b, 7, 7);
    }
    forall i: nat ensures Bit(128, i) <==> i == 7 { BitPow2(7, i); }
  }
}
