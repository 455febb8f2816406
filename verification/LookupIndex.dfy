/** The lookup index: for every key the references of exactly the rows a scan finds. */
module LookupIndex {
  import opened Machine
  import opened Scalars
  import opened Nested
  import opened RowOrder
  import opened Segments
  import opened Keys

  datatype LookupEntry = LookupEntry(key: u64, rows: seq<RowRef>)

  datatype Lookup = Lookup(unique: bool, entries: seq<LookupEntry>)

  function Refs(rows: seq<nat>, step: nat, morsel: nat): (r: seq<RowRef>)
    requires step > 0 && morsel > 0
    ensures |r| == |rows|
  {
    seq(|rows|, i requires 0 <= i < |rows| => RowRefOf(rows[i], step, morsel))
  }

  /** Every keyed row's position in its morsel fits u16, and non-null rows have keys. */
  ghost predicate Indexable(c: ConvertedColumn, step: nat, morsel: nat, n: nat)
    requires ColumnOk(c) && n <= RowsOf(c) && step > 0 && morsel > 0
  {
    forall row: nat :: row < n ==> RowIndexable(c, step, morsel, row)
  }

  /** The map after the first `n` rows: each key's references, in row order. */
  ghost predicate Indexed(c: ConvertedColumn, step: nat, morsel: nat, n: nat, byKey: map<u64, seq<RowRef>>)
    requires ColumnOk(c) && n <= RowsOf(c) && step > 0 && morsel > 0
  {
    && byKey.Keys == KeySet(c, 0, n)
    && forall key :: key in byKey ==> byKey[key] == Refs(RowsWithKey(c, 0, n, key), step, morsel)
  }

  lemma IndexStep(c: ConvertedColumn, step: nat, morsel: nat, n: nat, byKey: map<u64, seq<RowRef>>)
    requires ColumnOk(c) && n < RowsOf(c) && step > 0 && morsel > 0 && Indexed(c, step, morsel, n, byKey)
    ensures KeyAt(c, n).None? ==> Indexed(c, step, morsel, n + 1, byKey)
    ensures KeyAt(c, n).Some? ==>
              var key := KeyAt(c, n).value;
              var rows := if key in byKey then byKey[key] else [];
              Indexed(c, step, morsel, n + 1, byKey[key := rows + [RowRefOf(n, step, morsel)]])
  {
    hide KeyAt, RowRefOf, ColumnOk;
    forall key: u64
      ensures KeyAt(c, n) != Some(key) ==> RowsWithKey(c, 0, n + 1, key) == RowsWithKey(c, 0, n, key)
      ensures KeyAt(c, n) == Some(key) ==>
                Refs(RowsWithKey(c, 0, n + 1, key), step, morsel)
                == Refs(RowsWithKey(c, 0, n, key), step, morsel) + [RowRefOf(n, step, morsel)]
    {
    }
  }

  function EntriesOf(byKey: map<u64, seq<RowRef>>): (r: seq<LookupEntry>)
  {
    var keys := Sorted(byKey.Keys);
    SortedExact(byKey.Keys);
    seq(|keys|, i requires 0 <= i < |keys| => LookupEntry(keys[i], byKey[keys[i]]))
  }

  /** The index a scan of the column prescribes. */
  ghost predicate AgreesWithScan(index: Lookup, c: ConvertedColumn, step: nat, morsel: nat)
    requires ColumnOk(c) && step > 0 && morsel > 0
  {
    && (forall i, j :: 0 <= i < j < |index.entries| ==> index.entries[i].key < index.entries[j].key)
    && (forall i :: 0 <= i < |index.entries| ==>
          var e := index.entries[i];
          e.rows == Refs(RowsWithKey(c, 0, RowsOf(c), e.key), step, morsel) && e.rows != [])
    && (forall row: nat :: row < RowsOf(c) && KeyAt(c, row).Some? ==>
          exists i :: 0 <= i < |index.entries| && index.entries[i].key == KeyAt(c, row).value)
    && (index.unique <==> NoRepeats(c))
  }

  /** No two rows hold the same key. */
  ghost predicate NoRepeats(c: ConvertedColumn)
    requires ColumnOk(c)
  {
    forall a: nat, b: nat :: a < b < RowsOf(c) && KeyAt(c, a).Some? ==> KeyAt(c, a) != KeyAt(c, b)
  }

  predicate AllSingle(byKey: map<u64, seq<RowRef>>) {
    forall key :: key in byKey ==> |byKey[key]| == 1
  }

  lemma RepeatedKey(c: ConvertedColumn, n: nat, key: u64)
    requires ColumnOk(c) && n == RowsOf(c) && |RowsWithKey(c, 0, n, key)| > 1
    ensures !NoRepeats(c)
  {
    var rows := RowsWithKey(c, 0, n, key);
    RowsWithKeyExact(c, 0, n, key);
    assert rows[0] in rows && rows[1] in rows && rows[0] < rows[1];
  }

  lemma UniqueIff(c: ConvertedColumn, step: nat, morsel: nat, byKey: map<u64, seq<RowRef>>)
    requires ColumnOk(c) && step > 0 && morsel > 0 && Indexed(c, step, morsel, RowsOf(c), byKey)
    ensures AllSingle(byKey) <==> NoRepeats(c)
  {
    var n := RowsOf(c);
    if AllSingle(byKey) {
      forall a: nat, b: nat | a < b < n && KeyAt(c, a).Some? ensures KeyAt(c, a) != KeyAt(c, b) {
        var key := KeyAt(c, a).value;
        RowsWithKeyExact(c, 0, n, key);
        var rows := RowsWithKey(c, 0, n, key);
        assert a in rows;
        assert |rows| == |byKey[key]| == 1;
        assert rows == [a];
      }
    }
    if NoRepeats(c) {
      forall key | key in byKey ensures |byKey[key]| == 1 {
        if |RowsWithKey(c, 0, n, key)| > 1 {
          RepeatedKey(c, n, key);
          assert false;
        }
      }
    }
  }

  lemma EntriesAgree(c: ConvertedColumn, step: nat, morsel: nat, byKey: map<u64, seq<RowRef>>, i: nat)
    requires ColumnOk(c) && step > 0 && morsel > 0 && Indexed(c, step, morsel, RowsOf(c), byKey)
    requires i < |EntriesOf(byKey)|
    ensures var e := EntriesOf(byKey)[i];
            e.rows == Refs(RowsWithKey(c, 0, RowsOf(c), e.key), step, morsel) && e.rows != []
  {
    SortedExact(byKey.Keys);
    var key := Sorted(byKey.Keys)[i];
    assert key in Sorted(byKey.Keys);
  }

  lemma EntryExists(c: ConvertedColumn, step: nat, morsel: nat, byKey: map<u64, seq<RowRef>>, row: nat)
    requires ColumnOk(c) && step > 0 && morsel > 0 && Indexed(c, step, morsel, RowsOf(c), byKey)
    requires row < RowsOf(c) && KeyAt(c, row).Some?
    ensures exists i :: 0 <= i < |EntriesOf(byKey)| && EntriesOf(byKey)[i].key == KeyAt(c, row).value
  {
    var key, keys := KeyAt(c, row).value, Sorted(byKey.Keys);
    RowsWithKeyExact(c, 0, RowsOf(c), key);
    SortedExact(byKey.Keys);
    assert row in RowsWithKey(c, 0, RowsOf(c), key);
    assert key in keys;
    var i :| 0 <= i < |keys| && keys[i] == key;
    assert EntriesOf(byKey)[i].key == key;
  }

  lemma EntriesAscend(byKey: map<u64, seq<RowRef>>)
    ensures forall i, j :: 0 <= i < j < |EntriesOf(byKey)| ==> EntriesOf(byKey)[i].key < EntriesOf(byKey)[j].key
  {
    SortedExact(byKey.Keys);
    hide Sorted;
  }

  lemma IndexAgrees(c: ConvertedColumn, step: nat, morsel: nat, byKey: map<u64, seq<RowRef>>)
    requires ColumnOk(c) && step > 0 && morsel > 0 && Indexed(c, step, morsel, RowsOf(c), byKey)
    ensures AgreesWithScan(Lookup(AllSingle(byKey), EntriesOf(byKey)), c, step, morsel)
  {
    UniqueIff(c, step, morsel, byKey);
    EntriesAscend(byKey);
    hide KeyAt, ColumnOk, RowsWithKey, Refs, EntriesOf, Indexed, NoRepeats, AllSingle;
    forall i | 0 <= i < |EntriesOf(byKey)|
      ensures var e := EntriesOf(byKey)[i];
              e.rows == Refs(RowsWithKey(c, 0, RowsOf(c), e.key), step, morsel) && e.rows != []
    {
      EntriesAgree(c, step, morsel, byKey, i);
    }
    forall row: nat | row < RowsOf(c) && KeyAt(c, row).Some?
      ensures exists i :: 0 <= i < |EntriesOf(byKey)| && EntriesOf(byKey)[i].key == KeyAt(c, row).value
    {
      EntryExists(c, step, morsel, byKey, row);
    }
  }

  /** `build_lookup_index`, over the segments the converter cut. The index agrees with
      a full scan, and building fails exactly when some row cannot be referenced. */
  method BuildLookupIndex(c: ConvertedColumn, step: nat, morsel: nat) returns (r: Result<Lookup>)
    requires ColumnOk(c) && step > 0 && morsel > 0
    ensures r.Ok? <==> Indexable(c, step, morsel, RowsOf(c))
    ensures r.Ok? ==> AgreesWithScan(r.value, c, step, morsel)
  {
    var segments := SegmentsOf(RowsOf(c), step);
    var byKey: map<u64, seq<RowRef>> := map[];
    IndexStarts(c, step, morsel);
    hide Indexed, Indexable, AgreesWithScan, SegmentsOf, RowRefOf, KeyAt, ColumnOk, EntriesOf, AllSingle;
    for row := 0 to RowsOf(c)
      invariant Indexed(c, step, morsel, row, byKey) && Indexable(c, step, morsel, row)
    {
      IndexStep(c, step, morsel, row, byKey);
      IndexableStep(c, step, morsel, row);
      if c.data.nulls[row] { continue; }
      var key := KeyAt(c, row);
      if key.None? { return Err(BadSchema); }
      SegmentsPartition(RowsOf(c), step, row, 0);
      SegmentsPartition(RowsOf(c), step, row, row / step);
      var position := SegmentPosition(row, segments);
      PositionIsRef(RowsOf(c), step, morsel, row, position.value);
      var rowInSegment := row - position.value.rowStart;
      var morselId := rowInSegment / morsel;
      if morselId > U32_MAX { return Err(ArithOverflow); }
      var rowInMorsel := rowInSegment % morsel;
      if rowInMorsel > U16_MAX { return Err(BadSchema); }
      var rows := if key.value in byKey then byKey[key.value] else [];
      var ref := RowRef(position.value.id, morselId, rowInMorsel);
      byKey := byKey[key.value := rows + [ref]];
    }
    IndexAgrees(c, step, morsel, byKey);
    return Ok(Lookup(AllSingle(byKey), EntriesOf(byKey)));
  }

  lemma IndexStarts(c: ConvertedColumn, step: nat, morsel: nat)
    requires ColumnOk(c) && step > 0 && morsel > 0
    ensures Indexed(c, step, morsel, 0, map[]) && Indexable(c, step, morsel, 0)
  {
    assert KeySet(c, 0, 0) == {};
  }

  ghost predicate RowIndexable(c: ConvertedColumn, step: nat, morsel: nat, row: nat)
    requires ColumnOk(c) && row < RowsOf(c) && step > 0 && morsel > 0
  {
    c.data.nulls[row] ||
    (&& KeyAt(c, row).Some? && RowRefOf(row, step, morsel).morselId <= U32_MAX
     && RowRefOf(row, step, morsel).rowInMorsel <= U16_MAX)
  }

  lemma IndexableStep(c: ConvertedColumn, step: nat, morsel: nat, row: nat)
    requires ColumnOk(c) && row < RowsOf(c) && step > 0 && morsel > 0 && Indexable(c, step, morsel, row)
    ensures c.data.nulls[row] ==> KeyAt(c, row).None? && Indexable(c, step, morsel, row + 1)
    ensures !c.data.nulls[row] ==>
              var ref := RowRefOf(row, step, morsel);
              && (KeyAt(c, row).None? || ref.morselId > U32_MAX || ref.rowInMorsel > U16_MAX ==>
                    !Indexable(c, step, morsel, RowsOf(c)))
              && (KeyAt(c, row).Some? && ref.morselId <= U32_MAX && ref.rowInMorsel <= U16_MAX ==>
                    Indexable(c, step, morsel, row + 1))
  {
    hide RowRefOf;
    assert Indexable(c, step, morsel, RowsOf(c)) ==> RowIndexable(c, step, morsel, row);
  }

  /** The row at position 2^16 of a morsel cannot be referenced, so a column with a key
      there has no index. */
  lemma LateRowIsUnindexable(c: ConvertedColumn, step: nat, morsel: nat)
    requires ColumnOk(c) && step > U16_MAX + 1 && morsel > U16_MAX + 1
    requires RowsOf(c) > U16_MAX + 1 && !c.data.nulls[U16_MAX + 1]
    ensures !Indexable(c, step, morsel, RowsOf(c))
  {
    var row: nat := U16_MAX + 1;
    assert row % step == row && row % morsel == row;
    assert !RowIndexable(c, step, morsel, row);
  }

  lemma PositionIsRef(total: nat, step: nat, morsel: nat, row: nat, s: SegmentLayout)
    requires step > 0 && morsel > 0 && row < total && s in SegmentsOf(total, step) && Covers(s, row)
    ensures var x := row - s.rowStart; RowRef(s.id, x / morsel, x % morsel) == RowRefOf(row, step, morsel)
  {
    TheSegment(total, step, row, s);
  }

  lemma TheSegment(total: nat, step: nat, row: nat, s: SegmentLayout)
    requires step > 0 && row < total && s in SegmentsOf(total, step) && Covers(s, row)
    ensures s.id == row / step && s.rowStart == row - row % step
  {
    var i :| 0 <= i < |SegmentsOf(total, step)| && SegmentsOf(total, step)[i] == s;
    SegmentsPartition(total, step, row, i);
  }

  /** Looking a key up finds a row's reference if and only if the row holds the key. */
  lemma LookupFindsRow(index: Lookup, c: ConvertedColumn, step: nat, morsel: nat, key: u64, row: nat)
    requires ColumnOk(c) && step > 0 && morsel > 0 && AgreesWithScan(index, c, step, morsel) && row < RowsOf(c)
    ensures (exists i :: 0 <= i < |index.entries| && index.entries[i].key == key
                         && RowRefOf(row, step, morsel) in index.entries[i].rows)
            <==> KeyAt(c, row) == Some(key)
  {
    RowsWithKeyExact(c, 0, RowsOf(c), key);
    var rows := RowsWithKey(c, 0, RowsOf(c), key);
    if KeyAt(c, row) == Some(key) {
      assert row in rows;
      var j :| 0 <= j < |rows| && rows[j] == row;
      var i :| 0 <= i < |index.entries| && index.entries[i].key == key;
      assert index.entries[i].rows[j] == RowRefOf(row, step, morsel);
    }
    forall i | 0 <= i < |index.entries| && index.entries[i].key == key
               && RowRefOf(row, step, morsel) in index.entries[i].rows
      ensures KeyAt(c, row) == Some(key)
    {
      var j :| 0 <= j < |rows| && index.entries[i].rows[j] == RowRefOf(row, step, morsel);
      RowRefsDistinct(rows[j], row, step, morsel);
      assert rows[j] in rows;
    }
  }
}
