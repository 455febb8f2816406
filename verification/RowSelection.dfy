/** Page-local row selections: all rows, a row list, or a bitset of 64-bit words. */
module RowSelection {
  import opened Machine
  import opened Bits
  import opened LittleEndian

  datatype Selection =
    | All
    | Rows(rows: seq<nat>)
    | Bitset(words: seq<word>, len: nat)

  /** `len.div_ceil(64)` */
  function WordCount(len: nat): nat {
    (len + 63) / 64
  }

  /** `mask_selection_tail` */
  function MaskTail(w: word, len: nat): nat {
    if len % 64 == 0 then w else And(w, Pow2(len % 64) - 1)
  }

  function MaskedWord(words: seq<word>, len: nat, k: nat): nat
    requires k < WordCount(len) <= |words|
  {
    if k + 1 == WordCount(len) then MaskTail(words[k], len) else words[k]
  }

  /** Bit `row` of the bitset, below its declared length. */
  predicate RowSelected(words: seq<word>, len: nat, row: nat)
    requires WordCount(len) <= |words|
  {
    row < len && Bit(words[row / 64], row % 64)
  }

  /** The rows that trailing-zero iteration visits inside one word. */
  function WordRows(w: nat, base: nat): seq<nat>
    decreases w
  {
    if w == 0 then []
    else
      ClearLowestBit(w, 0);
      [base + TrailingZeros(w)] + WordRows(And(w, w - 1), base)
  }

  function BitsetRowsFrom(words: seq<word>, len: nat, k: nat): seq<nat>
    requires k <= WordCount(len) <= |words|
    decreases WordCount(len) - k
  {
    if k == WordCount(len) then []
    else WordRows(MaskedWord(words, len, k), 64 * k) + BitsetRowsFrom(words, len, k + 1)
  }

  function BitsetRows(words: seq<word>, len: nat): seq<nat>
    requires WordCount(len) <= |words|
  {
    BitsetRowsFrom(words, len, 0)
  }

  /** A word's rows are its set bits. */
  lemma {:induction false} WordRowsMember(w: nat, base: nat, x: nat)
    ensures x in WordRows(w, base) <==> x >= base && Bit(w, x - base)
    decreases w
  {
    if w == 0 {
      if x >= base { ZeroHasNoBits(x - base); }
    } else {
      var rest := And(w, w - 1);
      WordRowsStep(w, base);
      WordRowsMember(rest, base, x);
      TrailingZerosIsLowest(w);
      if x >= base { ClearLowestBit(w, x - base); }
    }
  }

  lemma {:induction false} WordRowsAscend(w: nat, base: nat)
    ensures Ascending(WordRows(w, base))
    ensures |WordRows(w, base)| == CountOnes(w)
    decreases w
  {
    if w > 0 {
      var rest, first := And(w, w - 1), base + TrailingZeros(w);
      WordRowsStep(w, base);
      CountOnesClear(w);
      WordRowsAscend(rest, base);
      forall x: nat | x in WordRows(rest, base) ensures first < x {
        WordRowsMember(rest, base, x);
        ClearLowestBit(w, x - base);
        TrailingZerosIsLowest(w);
      }
      PrependAscending(first, WordRows(rest, base));
    }
  }

  lemma PrependAscending(first: nat, rest: seq<nat>)
    requires Ascending(rest) && forall x: nat :: x in rest ==> first < x
    ensures Ascending([first] + rest)
  {
    forall j | 0 <= j < |rest| ensures first < rest[j] { assert rest[j] in rest; }
  }

  lemma WordRowsStep(w: nat, base: nat)
    requires w > 0
    ensures And(w, w - 1) < w
    ensures WordRows(w, base) == [base + TrailingZeros(w)] + WordRows(And(w, w - 1), base)
  {
    ClearLowestBit(w, 0);
  }

  lemma RowPosition(k: nat, i: nat)
    requires i < 64
    ensures (64 * k + i) / 64 == k && (64 * k + i) % 64 == i
  {
  }

  lemma MaskTailBit(w: word, len: nat, i: nat)
    requires len % 64 != 0
    ensures Bit(MaskTail(w, len), i) <==> Bit(w, i) && i < len % 64
  {
    BitAnd(w, Pow2(len % 64) - 1, i);
    BitLowMask(len % 64, i);
  }

  lemma WordHas64Bits(w: word, i: nat)
    requires i >= 64
    ensures !Bit(w, i)
  {
    Widths();
    SmallHasNoHighBits(w, 64, i);
  }

  lemma MaskedWordBits(words: seq<word>, len: nat, k: nat, i: nat)
    requires k < WordCount(len) <= |words|
    ensures Bit(MaskedWord(words, len, k), i) <==> i < 64 && RowSelected(words, len, 64 * k + i)
  {
    var last := k + 1 == WordCount(len) && len % 64 != 0;
    if i >= 64 {
      WordHas64Bits(words[k], i);
      if last { MaskTailBit(words[k], len, i); }
    } else {
      RowPosition(k, i);
      if last {
        MaskTailBit(words[k], len, i);
        assert 64 * k + i < len <==> i < len % 64;
      } else {
        assert 64 * k + i < len;
      }
    }
  }

  /** Bitset iteration visits exactly the set bits below `len`, each once and in
      ascending order; tail bits and surplus words are ignored. */
  lemma {:induction false} BitsetRowsExact(words: seq<word>, len: nat, k: nat)
    requires k <= WordCount(len) <= |words|
    ensures Ascending(BitsetRowsFrom(words, len, k))
    ensures forall x: nat :: x in BitsetRowsFrom(words, len, k)
              <==> x >= 64 * k && RowSelected(words, len, x)
    decreases WordCount(len) - k
  {
    if k < WordCount(len) {
      var w := MaskedWord(words, len, k);
      var here, rest := WordRows(w, 64 * k), BitsetRowsFrom(words, len, k + 1);
      WordRowsAscend(w, 64 * k);
      BitsetRowsExact(words, len, k + 1);
      forall x: nat
        ensures x in here <==> 64 * k <= x < 64 * k + 64 && RowSelected(words, len, x)
      {
        WordRowsMember(w, 64 * k, x);
        if x >= 64 * k { MaskedWordBits(words, len, k, x - 64 * k); }
      }
      var all := BitsetRowsFrom(words, len, k);
      assert all == here + rest;
      forall i, j | 0 <= i < j < |all| ensures all[i] < all[j] {
        if i < |here| <= j {
          assert here[i] in here && rest[j - |here|] in rest;
        }
      }
    }
  }

  lemma BitsetRowInRange(words: seq<word>, len: nat, i: nat)
    requires WordCount(len) <= |words| && i < |BitsetRows(words, len)|
    ensures RowSelected(words, len, BitsetRows(words, len)[i])
  {
    BitsetRowsExact(words, len, 0);
    assert BitsetRows(words, len)[i] in BitsetRows(words, len);
  }

  lemma BitsetRowsEmpty(words: seq<word>, len: nat)
    requires WordCount(len) <= |words|
    ensures BitsetRows(words, len) == [] <==> forall x: nat :: !RowSelected(words, len, x)
  {
    BitsetRowsExact(words, len, 0);
    var rows := BitsetRows(words, len);
    assert |rows| > 0 ==> rows[0] in rows;
  }

  /** The rows a selection visits on a page of `n` rows, or why it is refused. */
  function Visited(sel: Selection, n: nat): Result<seq<nat>> {
    match sel
    case All => Ok(Identity(n))
    case Rows(rows) =>
      if forall i :: 0 <= i < |rows| ==> rows[i] < n then Ok(rows) else Err(OffsetRange)
    case Bitset(words, len) =>
      if len != n then Err(OffsetRange)
      else if |words| < WordCount(len) then Err(BufferTooShort)
      else Ok(BitsetRows(words, len))
  }

  /** `count_bitset_rows` */
  method CountBitsetRows(words: seq<word>, len: nat) returns (r: Result<nat>)
    ensures r.Ok? <==> WordCount(len) <= |words|
    ensures r.Ok? ==> r.value == |BitsetRows(words, len)|
  {
    var wordLen := WordCount(len);
    if |words| < wordLen { return Err(BufferTooShort); }
    var count := 0;
    for k := 0 to wordLen
      invariant count + |BitsetRowsFrom(words, len, k)| == |BitsetRows(words, len)|
    {
      WordRowsAscend(MaskedWord(words, len, k), 64 * k);
      count := count + CountOnes(MaskedWord(words, len, k));
    }
    return Ok(count);
  }

  /** `selected_len` */
  method SelectedLen(sel: Selection, n: nat) returns (r: Result<nat>)
    ensures Visited(sel, n).Ok? ==> r == Ok(|Visited(sel, n).value|)
    ensures sel.Bitset? && Visited(sel, n).Err? ==> r.Err?
    ensures sel.Rows? ==> r == Ok(|sel.rows|)
  {
    match sel
    case All => r := Ok(n);
    case Rows(rows) => r := Ok(|rows|);
    case Bitset(words, len) =>
      if len != n { return Err(OffsetRange); }
      r := CountBitsetRows(words, len);
  }

  /** `for_each_row`: the visit sequence of the trailing-zero loop. */
  method ForEachRow(sel: Selection, n: nat) returns (r: Result<seq<nat>>)
    ensures r == Visited(sel, n)
  {
    match sel
    case All => r := Ok(Identity(n));
    case Rows(rows) =>
      for i := 0 to |rows|
        invariant forall j :: 0 <= j < i ==> rows[j] < n
      {
        if rows[i] >= n { return Err(OffsetRange); }
      }
      r := Ok(rows);
    case Bitset(words, len) =>
      if len != n { return Err(OffsetRange); }
      if |words| < WordCount(len) { return Err(BufferTooShort); }
      var rows := VisitBitset(words, len);
      r := Ok(rows);
  }

  /** Iteration state before word `k`: `seen` is all but the rows of the words from `k` on. */
  ghost predicate AtWord(words: seq<word>, len: nat, k: nat, seen: seq<nat>)
    requires k <= WordCount(len) <= |words|
  {
    seen + BitsetRowsFrom(words, len, k) == BitsetRows(words, len)
  }

  /** Iteration state inside word `k`, with the bits of `w` still to visit. */
  ghost predicate InWord(words: seq<word>, len: nat, k: nat, w: nat, seen: seq<nat>)
    requires k < WordCount(len) <= |words|
  {
    seen + (WordRows(w, 64 * k) + BitsetRowsFrom(words, len, k + 1)) == BitsetRows(words, len)
  }

  lemma EnterWord(words: seq<word>, len: nat, k: nat, seen: seq<nat>)
    requires k < WordCount(len) <= |words| && AtWord(words, len, k, seen)
    ensures InWord(words, len, k, MaskedWord(words, len, k), seen)
  {
  }

  lemma VisitBit(words: seq<word>, len: nat, k: nat, w: nat, seen: seq<nat>)
    requires k < WordCount(len) <= |words| && InWord(words, len, k, w, seen) && w > 0
    ensures And(w, w - 1) < w
    ensures InWord(words, len, k, And(w, w - 1), seen + [64 * k + TrailingZeros(w)])
    ensures |seen| < |BitsetRows(words, len)|
    ensures seen + [64 * k + TrailingZeros(w)] == BitsetRows(words, len)[..|seen| + 1]
  {
    var row, here, rest := 64 * k + TrailingZeros(w), WordRows(w, 64 * k), WordRows(And(w, w - 1), 64 * k);
    assert here == [row] + rest && And(w, w - 1) < w by { WordRowsStep(w, 64 * k); }
    var tail, all := BitsetRowsFrom(words, len, k + 1), BitsetRows(words, len);
    assert seen + (here + tail) == all;
    SplitHead(seen, row, rest, tail, all);
  }

  lemma SplitHead(seen: seq<nat>, row: nat, rest: seq<nat>, tail: seq<nat>, all: seq<nat>)
    requires seen + (([row] + rest) + tail) == all
    ensures (seen + [row]) + (rest + tail) == all
    ensures |seen| < |all| && all[|seen|] == row && seen + [row] == all[..|seen| + 1]
  {
  }

  lemma LeaveWord(words: seq<word>, len: nat, k: nat, seen: seq<nat>)
    requires k < WordCount(len) <= |words| && InWord(words, len, k, 0, seen)
    ensures AtWord(words, len, k + 1, seen)
  {
    assert [] + BitsetRowsFrom(words, len, k + 1) == BitsetRowsFrom(words, len, k + 1);
  }

  /** The bitset arm of `for_each_row`: take the lowest set bit, then clear it. */
  method VisitBitset(words: seq<word>, len: nat) returns (rows: seq<nat>)
    requires WordCount(len) <= |words|
    ensures rows == BitsetRows(words, len)
  {
    rows := [];
    for k := 0 to WordCount(len)
      invariant AtWord(words, len, k, rows)
    {
      var w := MaskedWord(words, len, k);
      EnterWord(words, len, k, rows);
      while w != 0
        invariant InWord(words, len, k, w, rows)
        decreases w
      {
        VisitBit(words, len, k, w, rows);
        rows := rows + [64 * k + TrailingZeros(w)];
        w := And(w, w - 1);
      }
      LeaveWord(words, len, k, rows);
    }
  }

  /** `is_all_rows`: true exactly when the selection visits 0, 1, ..., n - 1. */
  method IsAllRows(sel: Selection, n: nat) returns (r: Result<bool>)
    ensures r.Ok? && r.value ==> Visited(sel, n) == Ok(Identity(n))
    ensures Visited(sel, n) == Ok(Identity(n)) ==> r == Ok(true)
    ensures r.Err? ==> Visited(sel, n).Err?
  {
    match sel
    case All => r := Ok(true);
    case Rows(rows) =>
      if |rows| != n { return Ok(false); }
      for i := 0 to n
        invariant forall j :: 0 <= j < i ==> rows[j] == j
      {
        if rows[i] != i { return Ok(false); }
      }
      assert rows == Identity(n);
      r := Ok(true);
    case Bitset(words, len) =>
      if len != n { return Err(OffsetRange); }
      var count :- CountBitsetRows(words, len);
      BitsetRowsExact(words, len, 0);
      var rows := BitsetRows(words, len);
      forall i | 0 <= i < |rows| ensures rows[i] < n { assert rows[i] in rows; }
      AscendingBelow(rows, n);
      r := Ok(count == len);
  }

  /** `last_selected_bitset_row`: the largest selected row, scanning words from the end. */
  method LastSelectedRow(words: seq<word>, len: nat) returns (r: Option<nat>)
    requires WordCount(len) <= |words|
    ensures r.None? <==> BitsetRows(words, len) == []
    ensures r.Some? ==> RowSelected(words, len, r.value)
    ensures r.Some? ==> forall x: nat :: RowSelected(words, len, x) ==> x <= r.value
  {
    BitsetRowsEmpty(words, len);
    var k := WordCount(len);
    while k > 0
      invariant k <= WordCount(len)
      invariant forall x: nat :: x >= 64 * k ==> !RowSelected(words, len, x)
    {
      k := k - 1;
      var w := MaskedWord(words, len, k);
      forall i: nat
        ensures Bit(w, i) <==> i < 64 && RowSelected(words, len, 64 * k + i)
      {
        MaskedWordBits(words, len, k, i);
      }
      if w != 0 {
        HighestBitIsSet(w);
        var row := 64 * k + HighestBit(w);
        forall x: nat | RowSelected(words, len, x) ensures x <= row {
          if x >= 64 * k {
            assert x < 64 * k + 64;
            assert Bit(w, x - 64 * k) by { assert x == 64 * k + (x - 64 * k); }
          }
        }
        return Some(row);
      }
      forall x: nat | x >= 64 * k ensures !RowSelected(words, len, x) {
        if x < 64 * k + 64 {
          ZeroHasNoBits(x - 64 * k);
          assert x == 64 * k + (x - 64 * k);
        }
      }
    }
    return None;
  }
}
