/** Index keys of a column's rows, the rows that hold a key, and sorted key sets. */
module Keys {
  import opened Machine
  import opened Scalars
  import opened Nested
  import opened RowOrder

  /** `key_kind`: only flat Boolean, FileCode and NumCode columns have keys. */
  predicate Keyable(c: ConvertedColumn) {
    !c.nested && c.data.ScalarCol? && (c.data.vals.Booleans? || c.data.vals.FileCodes? || c.data.vals.NumCodes?)
  }

  /** `key_u64`: none for null rows and columns without keys. */
  function KeyAt(c: ConvertedColumn, row: nat): (r: Option<u64>)
    requires ColumnOk(c) && row < RowsOf(c)
    ensures r.Some? <==> Keyable(c) && !c.data.nulls[row]
  {
    if c.nested || c.data.nulls[row] then None
    else
      match c.data.vals
      case Booleans(s) => Some(if s[row] != 0 then 1 else 0)
      case FileCodes(s) => Some(s[row])
      case NumCodes(s) => Some(s[row])
      case _ => None
  }

  /** The non-null rows of a range that hold a key, in ascending order. */
  function RowsWithKey(c: ConvertedColumn, lo: nat, hi: nat, key: u64): seq<nat>
    requires ColumnOk(c) && lo <= hi <= RowsOf(c)
    decreases hi
  {
    if lo == hi then []
    else RowsWithKey(c, lo, hi - 1, key) + if KeyAt(c, hi - 1) == Some(key) then [hi - 1] else []
  }

  lemma {:induction false} RowsWithKeyExact(c: ConvertedColumn, lo: nat, hi: nat, key: u64)
    requires ColumnOk(c) && lo <= hi <= RowsOf(c)
    ensures Ascending(RowsWithKey(c, lo, hi, key))
    ensures forall row: nat :: row in RowsWithKey(c, lo, hi, key) <==> lo <= row < hi && KeyAt(c, row) == Some(key)
    decreases hi
  {
    if lo < hi {
      RowsWithKeyExact(c, lo, hi - 1, key);
      var front := RowsWithKey(c, lo, hi - 1, key);
      if KeyAt(c, hi - 1) == Some(key) {
        var all := front + [hi - 1];
        forall i, j | 0 <= i < j < |all| ensures all[i] < all[j] {
          if j == |front| { assert front[i] in front; }
        }
      }
    }
  }

  lemma {:induction false} RowsWithKeySplits(c: ConvertedColumn, lo: nat, mid: nat, hi: nat, key: u64)
    requires ColumnOk(c) && lo <= mid <= hi <= RowsOf(c)
    ensures RowsWithKey(c, lo, hi, key) == RowsWithKey(c, lo, mid, key) + RowsWithKey(c, mid, hi, key)
    decreases hi
  {
    if mid < hi { RowsWithKeySplits(c, lo, mid, hi - 1, key); }
  }

  /** The keys of a range of rows. */
  function KeySet(c: ConvertedColumn, lo: nat, hi: nat): (r: set<u64>)
    requires ColumnOk(c) && lo <= hi <= RowsOf(c)
    ensures forall key: u64 :: key in r <==> RowsWithKey(c, lo, hi, key) != []
    decreases hi
  {
    if lo == hi then {}
    else KeySet(c, lo, hi - 1) + match KeyAt(c, hi - 1) case None => {} case Some(key) => {key}
  }

  // ---- sorted sets ----

  predicate IsLeast(s: set<u64>, m: u64) {
    m in s && forall x :: x in s ==> m <= x
  }

  lemma LeastWith(s: set<u64>, y: u64, m: u64)
    requires y in s && IsLeast(s - {y}, m)
    ensures IsLeast(s, if m <= y then m else y)
  {
    forall x | x in s ensures (if m <= y then m else y) <= x {
      if x != y { assert x in s - {y}; }
    }
  }

  lemma LeastAlone(y: u64)
    ensures IsLeast({y}, y)
  {
  }

  lemma {:induction false} MinExists(s: set<u64>)
    requires s != {}
    ensures exists m: u64 :: IsLeast(s, m)
    decreases |s|
  {
    hide IsLeast;
    var y :| y in s;
    if s == {y} {
      LeastAlone(y);
    } else {
      assert s == s - {y} + {y};
      MinExists(s - {y});
      var m: u64 :| IsLeast(s - {y}, m);
      LeastWith(s, y, m);
    }
  }

  function Least(s: set<u64>): (m: u64)
    requires s != {}
    ensures m in s && forall x :: x in s ==> m <= x
  {
    MinExists(s);
    var m: u64 :| IsLeast(s, m);
    m
  }

  /** A `BTreeSet` iterated: its elements in ascending order. */
  function Sorted(s: set<u64>): seq<u64>
    decreases |s|
  {
    if s == {} then [] else [Least(s)] + Sorted(s - {Least(s)})
  }

  lemma {:induction false} SortedExact(s: set<u64>)
    ensures Ascending(Sorted(s)) && |Sorted(s)| == |s|
    ensures forall x: u64 :: x in Sorted(s) <==> x in s
    decreases |s|
  {
    if s != {} {
      var m := Least(s);
      SortedExact(s - {m});
      var rest := Sorted(s - {m});
      forall i, j | 0 <= i < j < |Sorted(s)| ensures Sorted(s)[i] < Sorted(s)[j] {
        if i == 0 { assert rest[j - 1] in s - {m}; }
      }
    }
  }

  /** `column_unique_keys` collects into a set; a row without a key empties the result. */
  method UniqueKeys(c: ConvertedColumn) returns (keys: seq<u64>)
    requires ColumnOk(c)
    ensures keys == Sorted(KeySet(c, 0, RowsOf(c)))
  {
    var found: set<u64> := {};
    for row := 0 to RowsOf(c)
      invariant found == KeySet(c, 0, row)
    {
      if c.data.nulls[row] { continue; }
      var key := KeyAt(c, row);
      if key.None? {
        NoKeys(c, RowsOf(c));
        return [];
      }
      found := found + {key.value};
    }
    return Sorted(found);
  }

  lemma {:induction false} NoKeys(c: ConvertedColumn, hi: nat)
    requires ColumnOk(c) && hi <= RowsOf(c) && !Keyable(c)
    ensures KeySet(c, 0, hi) == {}
    decreases hi
  {
    if hi > 0 { NoKeys(c, hi - 1); }
  }

  /** The exact set neither over- nor under-includes: strictly ascending, and a key
      is in it if and only if some non-null row holds it. */
  lemma ExactSetAgreesWithScan(c: ConvertedColumn, key: u64)
    requires ColumnOk(c)
    ensures Ascending(Sorted(KeySet(c, 0, RowsOf(c))))
    ensures key in Sorted(KeySet(c, 0, RowsOf(c))) <==>
            exists row: nat :: row < RowsOf(c) && KeyAt(c, row) == Some(key)
  {
    SortedExact(KeySet(c, 0, RowsOf(c)));
    RowsWithKeyExact(c, 0, RowsOf(c), key);
    var rows := RowsWithKey(c, 0, RowsOf(c), key);
    if rows != [] { assert rows[0] in rows; }
  }
}
