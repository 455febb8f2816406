/** Stable clustering: one permutation for every column of the table. */
module Clustering {
  import opened Machine
  import opened Scalars
  import opened Nested
  import opened NestedReorder
  import opened RowOrder
  import opened StableSort

  datatype Policy = PreserveSourceOrder | StableClusterDeclaredColumns

  datatype Note = NothingDeclared | NotEnabled | NoClusterColumns | Applied(names: seq<string>)

  /** The position of the first column of that name. */
  function Position(columns: seq<ConvertedColumn>, name: string): (r: Option<nat>)
    ensures r.Some? ==>
      r.value < |columns| && columns[r.value].name == name
      && forall i :: 0 <= i < r.value ==> columns[i].name != name
    ensures r.None? ==> forall i :: 0 <= i < |columns| ==> columns[i].name != name
  {
    if columns == [] then None
    else if columns[0].name == name then Some(0)
    else
      match Position(columns[1..], name)
      case None => None
      case Some(i) => Some(i + 1)
  }

  function ClusterIndices(columns: seq<ConvertedColumn>, names: seq<string>): (r: Result<seq<nat>>)
    ensures r.Ok? ==> |r.value| == |names| && IndicesOk(columns, r.value)
    ensures r.Err? <==> exists k :: 0 <= k < |names| && Position(columns, names[k]).None?
  {
    if names == [] then Ok([])
    else
      var front := names[..|names| - 1];
      match ClusterIndices(columns, front)
      case Err(e) =>
        assert forall k :: 0 <= k < |front| ==> front[k] == names[k];
        Err(e)
      case Ok(indices) =>
        match Position(columns, names[|names| - 1])
        case None => Err(BadSchema)
        case Some(i) =>
          assert forall k :: 0 <= k < |front| ==> front[k] == names[k];
          Ok(indices + [i])
  }

  function Before(columns: seq<ConvertedColumn>, n: nat, indices: seq<nat>): (nat, nat) -> bool
    requires Table(columns, n) && IndicesOk(columns, indices)
  {
    (x: nat, y: nat) => x < n && y < n && ClusterCompare(columns, n, indices, x, y) == Less
  }

  lemma BeforeStrict(columns: seq<ConvertedColumn>, n: nat, indices: seq<nat>)
    requires Table(columns, n) && IndicesOk(columns, indices)
    ensures StrictTotal(Before(columns, n, indices), n)
  {
    var before := Before(columns, n, indices);
    forall x: nat, y: nat | x < n && y < n ensures before(x, y) <==> x != y && !before(y, x) {
      ClusterOrderTotal(columns, n, indices, x, y, y);
      hide ClusterCompare;
    }
    forall x: nat, y: nat, z: nat | x < n && y < n && z < n && before(x, y) && before(y, z) ensures before(x, z) {
      ClusterOrderTotal(columns, n, indices, x, y, z);
      hide ClusterCompare;
    }
  }

  /** The row order the sort produces. */
  function ClusterOrder(columns: seq<ConvertedColumn>, n: nat, indices: seq<nat>): (order: seq<nat>)
    requires Table(columns, n) && IndicesOk(columns, indices)
    ensures IsPermutation(order, n) && |order| == n && Within(order, n)
  {
    BeforeStrict(columns, n, indices);
    SortRowsSorts(Before(columns, n, indices), n, n);
    PermutationFacts(SortRows(Before(columns, n, indices), n), n);
    SortRows(Before(columns, n, indices), n)
  }

  /** Sorted by the declared columns, nulls first, equal rows in source order. */
  ghost predicate StablySorted(columns: seq<ConvertedColumn>, n: nat, indices: seq<nat>, order: seq<nat>)
    requires Table(columns, n) && IndicesOk(columns, indices) && Within(order, n)
  {
    forall i, j :: 0 <= i < j < |order| ==>
      var o := LexCompare(columns, n, indices, 0, order[i], order[j]);
      o == Less || (o == Equal && order[i] < order[j])
  }

  /** The order is stably sorted, and no other permutation of the rows is. */
  lemma ClusterOrderUnique(columns: seq<ConvertedColumn>, n: nat, indices: seq<nat>, order: seq<nat>)
    requires Table(columns, n) && IndicesOk(columns, indices) && Within(order, n)
    ensures order == ClusterOrder(columns, n, indices) <==>
            IsPermutation(order, n) && StablySorted(columns, n, indices, order)
  {
    var before := Before(columns, n, indices);
    BeforeStrict(columns, n, indices);
    SortRowsSorts(before, n, n);
    SortedIff(columns, n, indices, order);
    if IsPermutation(order, n) && StablySorted(columns, n, indices, order) {
      SortedUnique(before, n, order, ClusterOrder(columns, n, indices));
    }
  }

  lemma SortedIff(columns: seq<ConvertedColumn>, n: nat, indices: seq<nat>, order: seq<nat>)
    requires Table(columns, n) && IndicesOk(columns, indices) && Within(order, n)
    ensures Sorted(Before(columns, n, indices), order) <==> StablySorted(columns, n, indices, order)
  {
    hide LexCompare;
    var before := Before(columns, n, indices);
    forall i, j | 0 <= i < j < |order|
      ensures before(order[i], order[j]) <==>
              var o := LexCompare(columns, n, indices, 0, order[i], order[j]);
              o == Less || (o == Equal && order[i] < order[j])
    {
    }
  }

  // ---- reordering the table ----

  function ReorderedColumn(c: ConvertedColumn, n: nat, order: seq<nat>): (r: ConvertedColumn)
    requires ColumnOk(c) && RowsOf(c) == n && IsPermutation(order, n)
  {
    PermutationNeverFails(c.data, order);
    c.(data := Reordered(c.data, order).value)
  }

  function ReorderedTable(columns: seq<ConvertedColumn>, n: nat, order: seq<nat>): (r: seq<ConvertedColumn>)
    requires Table(columns, n) && IsPermutation(order, n)
    ensures |r| == |columns|
  {
    seq(|columns|, i requires 0 <= i < |columns| => ReorderedColumn(columns[i], n, order))
  }

  function Clustered(columns: seq<ConvertedColumn>, n: nat, indices: seq<nat>): (r: seq<ConvertedColumn>)
    requires Table(columns, n) && IndicesOk(columns, indices)
    ensures |r| == |columns|
  {
    ReorderedTable(columns, n, ClusterOrder(columns, n, indices))
  }

  /** One row across all columns. */
  function RowTuple(columns: seq<ConvertedColumn>, n: nat, row: nat): seq<Value>
    requires Table(columns, n) && row < n
  {
    seq(|columns|, i requires 0 <= i < |columns| => RowValue(columns[i].data, row))
  }

  function Tuples(columns: seq<ConvertedColumn>, n: nat): (r: seq<seq<Value>>)
    requires Table(columns, n)
    ensures |r| == n
  {
    seq(n, row requires 0 <= row < n => RowTuple(columns, n, row))
  }

  lemma ReorderedColumnDenotes(c: ConvertedColumn, n: nat, order: seq<nat>)
    requires ColumnOk(c) && RowsOf(c) == n && IsPermutation(order, n)
    ensures Within(order, n) && |order| == n
    ensures var d := ReorderedColumn(c, n, order);
            && ColumnOk(d) && RowsOf(d) == n && d.name == c.name
            && forall i :: 0 <= i < n ==> RowValue(d.data, i) == RowValue(c.data, order[i])
  {
    PermutationFacts(order, n);
    PermutationNeverFails(c.data, order);
    ReorderDenotes(c.data, order);
  }

  /** Every column, flat or nested, gets the same permutation: the row tuples are
      the old ones in cluster order, none lost and none repeated. */
  lemma ClusteredDenotes(columns: seq<ConvertedColumn>, n: nat, indices: seq<nat>)
    requires Table(columns, n) && IndicesOk(columns, indices)
    ensures Table(Clustered(columns, n, indices), n) && IndicesOk(Clustered(columns, n, indices), indices)
    ensures Tuples(Clustered(columns, n, indices), n) == Pick(Tuples(columns, n), ClusterOrder(columns, n, indices))
    ensures multiset(Tuples(Clustered(columns, n, indices), n)) == multiset(Tuples(columns, n))
  {
    var order := ClusterOrder(columns, n, indices);
    var after := Clustered(columns, n, indices);
    hide ClusterOrder;
    forall i | 0 <= i < |after| ensures ColumnOk(after[i]) && RowsOf(after[i]) == n
      ensures forall row :: 0 <= row < n ==> RowValue(after[i].data, row) == RowValue(columns[i].data, order[row])
    {
      ReorderedColumnDenotes(columns[i], n, order);
    }
    assert Table(after, n);
    hide ReorderedColumn, RowValue, ColumnOk;
    forall row | 0 <= row < n ensures RowTuple(after, n, row) == RowTuple(columns, n, order[row]) {}
    assert Tuples(after, n) == Pick(Tuples(columns, n), order);
    PickMultiset(Tuples(columns, n), order, Identity(n));
    assert Pick(Tuples(columns, n), Identity(n)) == Tuples(columns, n);
  }

  // ---- the table after clustering ----

  lemma FlatRowsMove(c: ConvertedColumn, n: nat, order: seq<nat>, i: nat, j: nat)
    requires ColumnOk(c) && RowsOf(c) == n && IsPermutation(order, n) && i < j < n
    ensures |order| == n && Within(order, n)
    ensures ColumnOk(ReorderedColumn(c, n, order)) && RowsOf(ReorderedColumn(c, n, order)) == n
    ensures c.nested ==> CompareRows(ReorderedColumn(c, n, order), i, j) == Less
    ensures !c.nested ==> CompareRows(ReorderedColumn(c, n, order), i, j) == CompareRows(c, order[i], order[j])
  {
    ReorderedColumnDenotes(c, n, order);
    if !c.nested {
      hide NumKey, CompareBytes;
      assert Reordered(c.data, order) == Ok(ScalarCol(Pick(c.data.nulls, order), ReorderValues(c.data.vals, order)));
    }
  }

  /** Rows in cluster order still compare in order once they have been moved. */
  lemma {:induction false} MovedRowsInOrder(columns: seq<ConvertedColumn>, n: nat, indices: seq<nat>, order: seq<nat>,
                                            k: nat, i: nat, j: nat)
    requires Table(columns, n) && IndicesOk(columns, indices) && IsPermutation(order, n) && i < j < n && k <= |indices|
    requires |order| == n && Within(order, n)
    requires Table(ReorderedTable(columns, n, order), n)
    requires LexCompare(columns, n, indices, k, order[i], order[j]) != Greater
    ensures LexCompare(ReorderedTable(columns, n, order), n, indices, k, i, j) != Greater
    decreases |indices| - k
  {
    if k < |indices| {
      FlatRowsMove(columns[indices[k]], n, order, i, j);
      var o := CompareRows(columns[indices[k]], order[i], order[j]);
      hide CompareRows, ReorderedColumn;
      if o == Equal { MovedRowsInOrder(columns, n, indices, order, k + 1, i, j); }
    }
  }

  /** The clustered table is sorted as it stands. */
  lemma ClusteredIsSorted(columns: seq<ConvertedColumn>, n: nat, indices: seq<nat>)
    requires Table(columns, n) && IndicesOk(columns, indices)
    ensures Table(Clustered(columns, n, indices), n) && IndicesOk(Clustered(columns, n, indices), indices)
    ensures ClusterOrder(Clustered(columns, n, indices), n, indices) == Identity(n)
  {
    var order, after := ClusterOrder(columns, n, indices), Clustered(columns, n, indices);
    ClusteredDenotes(columns, n, indices);
    ClusterOrderUnique(columns, n, indices, order);
    hide LexCompare, ClusterOrder, ReorderedTable;
    forall i, j | 0 <= i < j < n ensures LexCompare(after, n, indices, 0, i, j) != Greater {
      assert LexCompare(columns, n, indices, 0, order[i], order[j]) != Greater;
      MovedRowsInOrder(columns, n, indices, order, 0, i, j);
    }
    ClusterOrderUnique(after, n, indices, Identity(n));
  }

  lemma {:induction false} ReorderByIdentity(c: Column)
    requires WellFormed(c)
    ensures Reordered(c, Identity(Rows(c))) == Ok(c)
    decreases c
  {
    var order := Identity(Rows(c));
    assert Pick(c.nulls, order) == c.nulls;
    match c
    case ScalarCol(_, vals) =>
      match vals {
        case Booleans(s) => assert Pick(s, order) == s;
        case FileCodes(s) => assert Pick(s, order) == s;
        case NumCodes(s) => assert Pick(s, order) == s;
        case VarByteRows(s) => assert Pick(s, order) == s;
        case FixedByteRows(_, s) => assert Pick(s, order) == s;
      }
    case StructCol(_, fields) =>
      forall k | 0 <= k < |fields| ensures Reordered(fields[k], order) == Ok(fields[k]) {
        ReorderByIdentity(fields[k]);
      }
      assert ReorderedFields(c, order, |fields|).Ok?;
      assert ReorderedFields(c, order, |fields|).value == fields;
    case ListCol(_, _, offsets, child) =>
      IdentityOffsets(offsets, Rows(c), Rows(child));
      ReorderByIdentity(child);
    case MapCol(_, offsets, keys, values, canonical) =>
      IdentityOffsets(offsets, Rows(c), Rows(keys));
      ReorderByIdentity(keys);
      ReorderByIdentity(values);
      assert Pick(canonical, Identity(Rows(keys))) == canonical;
  }

  lemma IdentityOffsets(offsets: seq<nat>, n: nat, childRows: nat)
    requires OffsetsOk(offsets, n, childRows)
    ensures ChildRows(offsets, Identity(n)) == Identity(childRows)
    ensures NewOffsets(offsets, Identity(n)) == offsets
  {
    ChildRowsOfAll(offsets, n);
    PrefixOffsets(offsets, n);
    assert offsets[..n + 1] == offsets;
  }

  lemma {:induction false} PrefixOffsets(offsets: seq<nat>, k: nat)
    requires |offsets| > 0 && Monotone(offsets) && offsets[0] == 0 && k < |offsets|
    ensures Within(Identity(k), |offsets| - 1) && NewOffsets(offsets, Identity(k)) == offsets[..k + 1]
    decreases k
  {
    if k > 0 {
      PrefixOffsets(offsets, k - 1);
      ChildRowsOfAll(offsets, k - 1);
      assert Identity(k) == Identity(k - 1) + [k - 1] && Within(Identity(k), |offsets| - 1);
      assert offsets[..k] + [offsets[k]] == offsets[..k + 1];
      hide NewOffsets, ChildRows, Identity;
      ChildRowsSnoc(offsets, Identity(k - 1), k - 1);
    }
  }

  /** Clustering twice is clustering once. */
  lemma ClusteringIdempotent(columns: seq<ConvertedColumn>, n: nat, indices: seq<nat>)
    requires Table(columns, n) && IndicesOk(columns, indices)
    ensures var once := Clustered(columns, n, indices);
            && Table(once, n) && IndicesOk(once, indices) && Clustered(once, n, indices) == once
  {
    ClusteredIsSorted(columns, n, indices);
    var once := Clustered(columns, n, indices);
    forall i | 0 <= i < |once| ensures ReorderedColumn(once[i], n, Identity(n)) == once[i] {
      assert ColumnOk(once[i]) && RowsOf(once[i]) == n;
      ReorderByIdentity(once[i].data);
    }
    hide ReorderedColumn, ClusterOrder;
    assert Clustered(once, n, indices) == ReorderedTable(once, n, Identity(n));
  }

  // ---- the converter's step ----

  /** `apply_stable_clustering`: looks every declared column up first, then reorders
      all columns in place; only an unknown name can fail, before any change. */
  method ApplyStableClustering(columns: array<ConvertedColumn>, policy: Policy, names: seq<string>)
    returns (r: Result<Note>)
    requires columns.Length > 0 ==> Table(columns[..], RowsOf(columns[0]))
    modifies columns
    ensures var before := old(columns[..]);
            if policy.PreserveSourceOrder? || names == [] then
              && columns[..] == before
              && r == Ok(if policy.PreserveSourceOrder? then (if names == [] then NothingDeclared else NotEnabled)
                         else NoClusterColumns)
            else
              match ClusterIndices(before, names)
              case Err(e) => r == Err(e) && columns[..] == before
              case Ok(indices) =>
                columns.Length > 0 && columns[..] == Clustered(before, RowsOf(before[0]), indices)
                && r == Ok(Applied(names))
  {
    if policy.PreserveSourceOrder? {
      return Ok(if names == [] then NothingDeclared else NotEnabled);
    }
    if names == [] { return Ok(NoClusterColumns); }
    ghost var before := columns[..];
    var indices :- ClusterIndices(columns[..], names);
    assert indices[0] < columns.Length;
    var n := RowsOf(columns[0]);
    // The library sort: by ClusterOrderUnique no correct sort can return anything else.
    var order := ClusterOrder(columns[..], n, indices);
    hide ClusterOrder, Table, ReorderedTable;
    ReorderColumns(columns, n, order);
    return Ok(Applied(names));
  }

  lemma ReorderStep(columns: seq<ConvertedColumn>, n: nat, order: seq<nat>, i: nat)
    requires Table(columns, n) && IsPermutation(order, n) && i < |columns|
    ensures WellFormed(columns[i].data) && Within(order, Rows(columns[i].data)) && Reordered(columns[i].data, order).Ok?
    ensures ReorderedTable(columns, n, order)[i] == columns[i].(data := Reordered(columns[i].data, order).value)
  {
    assert ColumnOk(columns[i]) && RowsOf(columns[i]) == n;
    PermutationNeverFails(columns[i].data, order);
  }

  /** The loop over the columns: each is replaced by itself in the new order. */
  method ReorderColumns(columns: array<ConvertedColumn>, n: nat, order: seq<nat>)
    requires Table(columns[..], n) && IsPermutation(order, n)
    modifies columns
    ensures columns[..] == ReorderedTable(old(columns[..]), n, order)
  {
    ghost var before := columns[..];
    ghost var after := ReorderedTable(before, n, order);
    for i := 0 to columns.Length
      invariant columns[..i] == after[..i] && columns[i..] == before[i..]
    {
      hide Reordered, WellFormed, Table, ReorderedTable;
      assert columns[i] == before[i];
      var c := columns[i];
      ReorderStep(before, n, order, i);
      var data := Reorder(c.data, order);
      columns[i] := c.(data := data.value);
      assert columns[i] == after[i];
      assert columns[..i + 1] == columns[..i] + [columns[i]];
    }
  }
}
