/** Bitwise arithmetic on unsigned machine words, written on natural numbers so
    that a word is just the sum of its bits. */
module Bits {

  function Pow2(n: nat): (p: nat)
    ensures p > 0
  {
    if n == 0 then 1 else 2 * Pow2(n - 1)
  }

  /** Bit `i` of `w`, counted from the least significant bit. */
  predicate Bit(w: nat, i: nat)
    decreases i
  {
    if i == 0 then w % 2 == 1 else Bit(w / 2, i - 1)
  }

  function And(a: nat, b: nat): nat
    decreases a
  {
    if a == 0 || b == 0 then 0
    else (if a % 2 == 1 && b % 2 == 1 then 1 else 0) + 2 * And(a / 2, b / 2)
  }

  function Or(a: nat, b: nat): nat
    decreases a + b
  {
    if a == 0 then b
    else if b == 0 then a
    else (if a % 2 == 1 || b % 2 == 1 then 1 else 0) + 2 * Or(a / 2, b / 2)
  }

  function TrailingZeros(w: nat): nat
    requires w > 0
  {
    if w % 2 == 1 then 0 else 1 + TrailingZeros(w / 2)
  }

  /** The position of the highest set bit: `63 - leading_zeros` for a u64. */
  function HighestBit(w: nat): nat
    requires w > 0
  {
    if w == 1 then 0 else 1 + HighestBit(w / 2)
  }

  function CountOnes(w: nat): nat {
    if w == 0 then 0 else w % 2 + CountOnes(w / 2)
  }

  lemma {:induction false} ZeroHasNoBits(i: nat)
    ensures !Bit(0, i)
  {
    if i > 0 { ZeroHasNoBits(i - 1); }
  }

  lemma {:induction false} BitAnd(a: nat, b: nat, i: nat)
    ensures Bit(And(a, b), i) <==> Bit(a, i) && Bit(b, i)
    decreases i
  {
    if a == 0 || b == 0 {
      ZeroHasNoBits(i);
    } else if i > 0 {
      assert And(a, b) / 2 == And(a / 2, b / 2);
      BitAnd(a / 2, b / 2, i - 1);
    }
  }

  lemma OrHalves(a: nat, b: nat)
    requires a > 0 && b > 0
    ensures Or(a, b) / 2 == Or(a / 2, b / 2)
  {
  }

  lemma {:induction false} BitOr(a: nat, b: nat, i: nat)
    ensures Bit(Or(a, b), i) <==> Bit(a, i) || Bit(b, i)
    decreases i
  {
    if a == 0 || b == 0 {
      ZeroHasNoBits(i);
    } else if i > 0 {
      OrHalves(a, b);
      hide Or;
      BitOr(a / 2, b / 2, i - 1);
    }
  }

  /** Left shift moves every bit up. */
  lemma {:induction false} BitShift(a: nat, k: nat, i: nat)
    ensures Bit(a * Pow2(k), i) <==> i >= k && Bit(a, i - k)
    decreases k
  {
    if k > 0 {
      assert a * Pow2(k) == 2 * (a * Pow2(k - 1));
      if i > 0 {
        assert a * Pow2(k) / 2 == a * Pow2(k - 1);
        BitShift(a, k - 1, i - 1);
      }
    }
  }

  lemma BitPow2(k: nat, i: nat)
    ensures Bit(Pow2(k), i) <==> i == k
  {
    BitShift(1, k, i);
    if i > k { ZeroHasNoBits(i - k - 1); }
  }

  /** Words below 2^n have no bit at or above n. */
  lemma {:induction false} SmallHasNoHighBits(w: nat, n: nat, i: nat)
    requires w < Pow2(n) && n <= i
    ensures !Bit(w, i)
    decreases n
  {
    if n == 0 {
      ZeroHasNoBits(i);
    } else {
      SmallHasNoHighBits(w / 2, n - 1, i - 1);
    }
  }

  /** Two words below 2^n with the same bits are the same word. */
  lemma {:induction false} SameBitsSameWord(a: nat, b: nat, n: nat)
    requires a < Pow2(n) && b < Pow2(n)
    requires forall i: nat :: i < n ==> Bit(a, i) == Bit(b, i)
    ensures a == b
    decreases n
  {
    if n > 0 {
      forall i: nat | i < n - 1 ensures Bit(a / 2, i) == Bit(b / 2, i) {
        assert Bit(a, i + 1) == Bit(b, i + 1);
      }
      SameBitsSameWord(a / 2, b / 2, n - 1);
      assert Bit(a, 0) == Bit(b, 0);
    }
  }

  /** A word whose bits at and above n are all clear is below 2^n. */
  lemma {:induction false} NoHighBitsIsSmall(w: nat, n: nat)
    requires forall i: nat :: n <= i ==> !Bit(w, i)
    ensures w < Pow2(n)
    decreases n, w
  {
    if n == 0 {
      if w > 0 { assert Bit(w, HighestBit(w)) by { HighestBitIsSet(w); } }
    } else {
      forall i: nat | n - 1 <= i ensures !Bit(w / 2, i) {
        assert !Bit(w, i + 1);
      }
      NoHighBitsIsSmall(w / 2, n - 1);
    }
  }

  lemma {:induction false} HighestBitIsSet(w: nat)
    requires w > 0
    ensures Bit(w, HighestBit(w))
    ensures forall i: nat :: HighestBit(w) < i ==> !Bit(w, i)
    decreases w
  {
    if w == 1 {
      forall i: nat | 0 < i ensures !Bit(w, i) { ZeroHasNoBits(i - 1); }
    } else {
      HighestBitIsSet(w / 2);
      forall i: nat | HighestBit(w) < i ensures !Bit(w, i) {
        assert !Bit(w / 2, i - 1);
      }
    }
  }

  lemma {:induction false} TrailingZerosIsLowest(w: nat)
    requires w > 0
    ensures Bit(w, TrailingZeros(w))
    ensures forall i: nat :: i < TrailingZeros(w) ==> !Bit(w, i)
    decreases w
  {
    if w % 2 == 0 {
      TrailingZerosIsLowest(w / 2);
      forall i: nat | i < TrailingZeros(w) ensures !Bit(w, i) {
        if i > 0 { assert !Bit(w / 2, i - 1); }
      }
    }
  }

  /** `word & (word - 1)` clears exactly the lowest set bit. */
  lemma {:induction false} ClearLowestBit(w: nat, i: nat)
    requires w > 0
    ensures Bit(And(w, w - 1), i) <==> Bit(w, i) && i != TrailingZeros(w)
    ensures And(w, w - 1) < w
    decreases w
  {
    if w % 2 == 1 {
      AndWithPredecessorOfOdd(w);
      if i > 0 { assert (w - 1) / 2 == w / 2; }
    } else {
      assert (w - 1) / 2 == w / 2 - 1;
      assert And(w, w - 1) == 2 * And(w / 2, w / 2 - 1);
      ClearLowestBit(w / 2, if i > 0 then i - 1 else 0);
    }
  }

  lemma {:induction false} AndSelf(a: nat)
    ensures And(a, a) == a
  {
    if a > 0 { AndSelf(a / 2); }
  }

  lemma AndWithPredecessorOfOdd(w: nat)
    requires w % 2 == 1
    ensures And(w, w - 1) == w - 1
  {
    if w > 1 {
      assert (w - 1) / 2 == w / 2;
      AndSelf(w / 2);
    }
  }

  /** The number of set bits drops by one when the lowest set bit is cleared. */
  lemma {:induction false} CountOnesClear(w: nat)
    requires w > 0
    ensures CountOnes(w) == 1 + CountOnes(And(w, w - 1))
    decreases w
  {
    if w % 2 == 1 {
      AndWithPredecessorOfOdd(w);
      assert (w - 1) / 2 == w / 2;
    } else {
      assert (w - 1) / 2 == w / 2 - 1;
      assert And(w, w - 1) == 2 * And(w / 2, w / 2 - 1);
      CountOnesClear(w / 2);
    }
  }

  /** The low mask `(1 << n) - 1` keeps exactly the bits below n. */
  lemma {:induction false} BitLowMask(n: nat, i: nat)
    ensures Bit(Pow2(n) - 1, i) <==> i < n
    decreases n
  {
    if n == 0 {
      ZeroHasNoBits(i);
    } else if i > 0 {
      assert (Pow2(n) - 1) / 2 == Pow2(n - 1) - 1;
      BitLowMask(n - 1, i - 1);
    }
  }

  lemma HalfOfSplit(a: nat, b: nat, k: nat)
    requires k > 0
    ensures (a + Pow2(k) * b) / 2 == a / 2 + Pow2(k - 1) * b
    ensures (a + Pow2(k) * b) % 2 == a % 2
  {
    assert Pow2(k) * b == 2 * (Pow2(k - 1) * b);
  }

  /** A word cut at bit k: the low part keeps its bits, the high part is shifted. */
  lemma {:induction false} BitSplit(a: nat, b: nat, k: nat, i: nat)
    requires a < Pow2(k)
    ensures Bit(a + Pow2(k) * b, i) <==> if i < k then Bit(a, i) else Bit(b, i - k)
    decreases k
  {
    if k > 0 {
      HalfOfSplit(a, b, k);
      if i > 0 { BitSplit(a / 2, b, k - 1, i - 1); }
    }
  }

  lemma NoBitsIsZero(w: nat)
    requires forall i: nat :: !Bit(w, i)
    ensures w == 0
  {
    if w > 0 { HighestBitIsSet(w); }
  }

  lemma {:induction false} OrIsZero(a: nat, b: nat)
    ensures Or(a, b) == 0 <==> a == 0 && b == 0
    decreases a + b
  {
    if a > 0 && b > 0 { OrIsZero(a / 2, b / 2); }
  }

  /** `|` of flags is at most one exactly when every flag is. */
  lemma OrAtMostOne(a: nat, b: nat)
    ensures Or(a, b) <= 1 <==> a <= 1 && b <= 1
  {
    if a > 0 && b > 0 { OrIsZero(a / 2, b / 2); }
  }
}
