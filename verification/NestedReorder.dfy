/** Reordering nested columns: what every row denotes afterwards, that a
    permutation never fails, and that reorderings compose. */
module NestedReorder {
  import opened Machine
  import opened Scalars
  import opened Nested

  function Span(offsets: seq<nat>, row: nat): (s: seq<nat>)
    requires row + 1 < |offsets| && offsets[row] <= offsets[row + 1]
    ensures |s| == offsets[row + 1] - offsets[row]
    ensures forall i :: 0 <= i < |s| ==> s[i] == offsets[row] + i
  {
    seq(offsets[row + 1] - offsets[row], i => offsets[row] + i)
  }

  ghost predicate Monotone(offsets: seq<nat>) {
    forall i, j :: 0 <= i <= j < |offsets| ==> offsets[i] <= offsets[j]
  }

  /** The child rows of the listed rows, in the listed order. */
  function ChildRows(offsets: seq<nat>, order: seq<nat>): seq<nat>
    requires |offsets| > 0 && Monotone(offsets) && Within(order, |offsets| - 1)
  {
    if order == [] then []
    else ChildRows(offsets, order[..|order| - 1]) + Span(offsets, order[|order| - 1])
  }

  /** The offsets of the listed rows, counted from zero. */
  function NewOffsets(offsets: seq<nat>, order: seq<nat>): (r: seq<nat>)
    requires |offsets| > 0 && Monotone(offsets) && Within(order, |offsets| - 1)
    ensures |r| == |order| + 1
  {
    if order == [] then [0]
    else
      NewOffsets(offsets, order[..|order| - 1]) + [|ChildRows(offsets, order)|]
  }

  lemma ChildRowsSnoc(offsets: seq<nat>, order: seq<nat>, row: nat)
    requires |offsets| > 0 && Monotone(offsets) && Within(order + [row], |offsets| - 1)
    ensures Within(order, |offsets| - 1) && row < |offsets| - 1
    ensures ChildRows(offsets, order + [row]) == ChildRows(offsets, order) + Span(offsets, row)
    ensures NewOffsets(offsets, order + [row])
            == NewOffsets(offsets, order) + [|ChildRows(offsets, order)| + |Span(offsets, row)|]
  {
    var more := order + [row];
    assert more[|order|] == row && more[..|order|] == order;
    forall i | 0 <= i < |order| ensures order[i] < |offsets| - 1 { assert more[i] == order[i]; }
  }

  lemma Front(order: seq<nat>, n: nat)
    requires Within(order, n) && order != []
    ensures order == order[..|order| - 1] + [order[|order| - 1]]
    ensures Within(order[..|order| - 1], n)
  {
  }

  /** Where the rows of listed position i end up among the child rows. */
  lemma {:induction false} ChildRowsAt(offsets: seq<nat>, order: seq<nat>, i: nat)
    requires |offsets| > 0 && Monotone(offsets) && Within(order, |offsets| - 1) && i < |order|
    ensures var n := NewOffsets(offsets, order);
            && n[i] <= n[i + 1] <= |ChildRows(offsets, order)|
            && ChildRows(offsets, order)[n[i]..n[i + 1]] == Span(offsets, order[i])
            && n[0] == 0 && n[|order|] == |ChildRows(offsets, order)|
    decreases |order|
  {
    var front := order[..|order| - 1];
    Front(order, |offsets| - 1);
    ChildRowsSnoc(offsets, front, order[|order| - 1]);
    if i < |front| {
      ChildRowsAt(offsets, front, i);
    } else if front != [] {
      ChildRowsAt(offsets, front, |front| - 1);
    }
  }

  lemma {:induction false} ChildRowsOk(offsets: seq<nat>, order: seq<nat>, n: nat, childRows: nat)
    requires OffsetsOk(offsets, n, childRows) && Within(order, n)
    ensures Within(ChildRows(offsets, order), childRows)
    ensures |ChildRows(offsets, order)| <= U32_MAX ==>
              OffsetsOk(NewOffsets(offsets, order), |order|, |ChildRows(offsets, order)|)
    decreases |order|
  {
    if order != [] {
      var front := order[..|order| - 1];
      Front(order, n);
      ChildRowsSnoc(offsets, front, order[|order| - 1]);
      ChildRowsOk(offsets, front, n, childRows);
    }
  }

  /** The state of the loop over the listed rows after `k` of them. */
  ghost predicate OrderState(offsets: seq<nat>, order: seq<nat>, k: nat, newOffsets: seq<nat>, childOrder: seq<nat>) {
    && |offsets| > 0 && Monotone(offsets) && Within(order, |offsets| - 1) && k <= |order|
    && newOffsets == NewOffsets(offsets, order[..k]) && childOrder == ChildRows(offsets, order[..k])
  }

  lemma OrderStep(offsets: seq<nat>, order: seq<nat>, k: nat, newOffsets: seq<nat>, childOrder: seq<nat>)
    requires OrderState(offsets, order, k, newOffsets, childOrder) && k < |order|
    ensures order[k] + 1 < |offsets| && offsets[order[k]] <= offsets[order[k] + 1]
    ensures var more := childOrder + Span(offsets, order[k]);
            OrderState(offsets, order, k + 1, newOffsets + [|more|], more)
            && (|more| > U32_MAX ==> |ChildRows(offsets, order)| > U32_MAX)
  {
    assert order[..k + 1] == order[..k] + [order[k]];
    ChildRowsSnoc(offsets, order[..k], order[k]);
    ChildRowsGrow(offsets, order, k + 1);
  }

  lemma OrderEnds(offsets: seq<nat>, order: seq<nat>, newOffsets: seq<nat>, childOrder: seq<nat>)
    requires |offsets| > 0 && Monotone(offsets) && Within(order, |offsets| - 1)
    ensures OrderState(offsets, order, 0, [0], [])
    ensures OrderState(offsets, order, |order|, newOffsets, childOrder) ==>
              newOffsets == NewOffsets(offsets, order) && childOrder == ChildRows(offsets, order)
  {
    assert order[..|order|] == order;
  }

  /** `for child_row in start..end { child_order.push(child_row) }` */
  method PushSpan(childOrder: seq<nat>, offsets: seq<nat>, row: nat) returns (more: seq<nat>)
    requires row + 1 < |offsets| && offsets[row] <= offsets[row + 1]
    ensures more == childOrder + Span(offsets, row)
  {
    more := childOrder;
    for childRow := offsets[row] to offsets[row + 1]
      invariant more == childOrder + Span(offsets, row)[..childRow - offsets[row]]
    {
      more := more + [childRow];
    }
  }

  /** `reordered_child_order`: the loop over the listed rows, with its u32 check. */
  method ReorderedChildOrder(offsets: seq<nat>, order: seq<nat>) returns (r: Result<(seq<nat>, seq<nat>)>)
    requires |offsets| > 0 && Monotone(offsets) && Within(order, |offsets| - 1)
    ensures r.Ok? <==> |ChildRows(offsets, order)| <= U32_MAX
    ensures r.Ok? ==> r.value == (NewOffsets(offsets, order), ChildRows(offsets, order))
    ensures r.Err? ==> r.error == ArithOverflow
  {
    hide OrderState, ChildRows, NewOffsets, Monotone;
    var newOffsets: seq<nat>, childOrder: seq<nat>, nextOffset: nat := [0], [], 0;
    OrderEnds(offsets, order, newOffsets, childOrder);
    for k := 0 to |order|
      invariant OrderState(offsets, order, k, newOffsets, childOrder)
      invariant nextOffset == |childOrder| <= U32_MAX
    {
      var row := order[k];
      OrderStep(offsets, order, k, newOffsets, childOrder);
      childOrder := PushSpan(childOrder, offsets, row);
      if nextOffset + (offsets[row + 1] - offsets[row]) > U32_MAX { return Err(ArithOverflow); }
      nextOffset := nextOffset + (offsets[row + 1] - offsets[row]);
      newOffsets := newOffsets + [nextOffset];
    }
    OrderEnds(offsets, order, newOffsets, childOrder);
    return Ok((newOffsets, childOrder));
  }

  lemma {:induction false} ChildRowsGrow(offsets: seq<nat>, order: seq<nat>, k: nat)
    requires |offsets| > 0 && Monotone(offsets) && Within(order, |offsets| - 1) && k <= |order|
    ensures |ChildRows(offsets, order[..k])| <= |ChildRows(offsets, order)|
    decreases |order|
  {
    if k == |order| {
      assert order[..k] == order;
    } else {
      Front(order, |offsets| - 1);
      assert order[..|order| - 1][..k] == order[..k];
      ChildRowsGrow(offsets, order[..|order| - 1], k);
    }
  }

  /** The reordered column, or the overflow that some level runs into. */
  function Reordered(c: Column, order: seq<nat>): Result<Column>
    requires WellFormed(c) && Within(order, Rows(c))
    decreases c, 1, 0
  {
    var nulls := Pick(c.nulls, order);
    match c
    case ScalarCol(_, vals) => Ok(ScalarCol(nulls, ReorderValues(vals, order)))
    case StructCol(_, fields) =>
      (match ReorderedFields(c, order, |fields|)
       case Err(e) => Err(e)
       case Ok(done) => Ok(StructCol(nulls, done)))
    case ListCol(_, kind, offsets, child) =>
      ChildRowsOk(offsets, order, Rows(c), Rows(child));
      var rows := ChildRows(offsets, order);
      if |rows| > U32_MAX then Err(ArithOverflow)
      else
        (match Reordered(child, rows)
         case Err(e) => Err(e)
         case Ok(done) => Ok(ListCol(nulls, kind, NewOffsets(offsets, order), done)))
    case MapCol(_, offsets, keys, values, canonical) =>
      ChildRowsOk(offsets, order, Rows(c), Rows(keys));
      var rows := ChildRows(offsets, order);
      if |rows| > U32_MAX then Err(ArithOverflow)
      else
        (match Reordered(keys, rows)
         case Err(e) => Err(e)
         case Ok(newKeys) =>
           (match Reordered(values, rows)
            case Err(e) => Err(e)
            case Ok(newValues) =>
              Ok(MapCol(nulls, NewOffsets(offsets, order), newKeys, newValues, Pick(canonical, rows)))))
  }

  /** The first `k` fields of a struct, each reordered by the same rows. */
  function ReorderedFields(c: Column, order: seq<nat>, k: nat): (r: Result<seq<Column>>)
    requires WellFormed(c) && c.StructCol? && Within(order, Rows(c)) && k <= |c.fields|
    ensures r.Ok? ==> |r.value| == k
    ensures r.Ok? ==> forall i :: 0 <= i < k ==> Reordered(c.fields[i], order) == Ok(r.value[i])
    ensures r.Err? ==> exists i :: 0 <= i < k && Reordered(c.fields[i], order).Err?
    decreases c, 0, k
  {
    if k == 0 then Ok([])
    else
      match ReorderedFields(c, order, k - 1)
      case Err(e) => Err(e)
      case Ok(front) =>
        match Reordered(c.fields[k - 1], order)
        case Err(e) => Err(e)
        case Ok(last) => Ok(front + [last])
  }

  /** `d` is `c` with its rows listed by `order`. */
  ghost predicate ListsRows(d: Column, c: Column, order: seq<nat>) {
    && WellFormed(c) && Within(order, Rows(c)) && WellFormed(d) && Rows(d) == |order| && SameShape(d, c)
    && forall i :: 0 <= i < |order| ==> RowValue(d, i) == RowValue(c, order[i])
  }

  /** Listed positions from..to hold consecutive rows from `base`. */
  ghost predicate Stretch(rows: seq<nat>, from: nat, to: nat, base: nat) {
    from <= to <= |rows| && forall k :: from <= k < to ==> rows[k] == base + (k - from)
  }

  /** A stretch of consecutive listed rows denotes the stretch it lists. */
  lemma StretchMoves(d: Column, c: Column, rows: seq<nat>, from: nat, to: nat, base: nat)
    requires ListsRows(d, c, rows) && Stretch(rows, from, to, base) && base + (to - from) <= Rows(c)
    ensures RowValues(d, from, to - from) == RowValues(c, base, to - from)
  {
    forall k | from <= k < to ensures RowValue(d, k) == RowValue(c, base + (k - from)) {
      assert rows[k] == base + (k - from);
    }
  }

  /** The child rows of listed row i are one stretch of consecutive rows. */
  lemma ChildStretch(offsets: seq<nat>, order: seq<nat>, n: nat, childRows: nat, i: nat)
    requires OffsetsOk(offsets, n, childRows) && Within(order, n) && i < |order|
    ensures var no, rows := NewOffsets(offsets, order), ChildRows(offsets, order);
            && no[i] <= no[i + 1]
            && no[i + 1] - no[i] == offsets[order[i] + 1] - offsets[order[i]]
            && offsets[order[i] + 1] <= childRows
            && Stretch(rows, no[i], no[i + 1], offsets[order[i]])
  {
    ChildRowsAt(offsets, order, i);
    var no, rows := NewOffsets(offsets, order), ChildRows(offsets, order);
    var span := rows[no[i]..no[i + 1]];
    forall k | no[i] <= k < no[i + 1] ensures rows[k] == offsets[order[i]] + (k - no[i]) {
      assert span[k - no[i]] == rows[k];
    }
  }

  lemma PickStretch<T>(s: seq<T>, rows: seq<nat>, from: nat, to: nat, base: nat)
    requires Within(rows, |s|) && Stretch(rows, from, to, base) && base + (to - from) <= |s|
    ensures Pick(s, rows)[from..to] == s[base..base + (to - from)]
  {
  }

  lemma ListRowMoves(c: Column, d: Column, order: seq<nat>, i: nat)
    requires WellFormed(c) && c.ListCol? && Within(order, Rows(c)) && WellFormed(d) && d.ListCol?
    requires d.nulls == Pick(c.nulls, order) && d.offsets == NewOffsets(c.offsets, order)
    requires ListsRows(d.child, c.child, ChildRows(c.offsets, order)) && i < |order|
    ensures RowValue(d, i) == RowValue(c, order[i])
  {
    hide WellFormed, ListsRows, ChildRows, NewOffsets, RowValue;
    var row, no := order[i], d.offsets;
    assert row < Rows(c) && d.nulls[i] == c.nulls[row] && Rows(d) == |order|;
    hide *;
    ListOffsets(c);
    ChildStretch(c.offsets, order, Rows(c), Rows(c.child), i);
    StretchMoves(d.child, c.child, ChildRows(c.offsets, order), no[i], no[i + 1], c.offsets[row]);
    ListRow(c, row);
    ListRow(d, i);
  }

  /** Keys, values and canonical keys of a moved map row. */
  lemma MapPartsMove(c: Column, d: Column, rows: seq<nat>, from: nat, to: nat, base: nat, end: nat)
    requires WellFormed(c) && c.MapCol? && WellFormed(d) && d.MapCol?
    requires ListsRows(d.keys, c.keys, rows) && ListsRows(d.values, c.values, rows)
    requires Within(rows, |c.canonical|) && d.canonical == Pick(c.canonical, rows)
    requires Stretch(rows, from, to, base) && end == base + (to - from) <= Rows(c.keys)
    ensures to <= Rows(d.keys) && to <= Rows(d.values) && to <= |d.canonical|
    ensures end <= Rows(c.values) && end <= |c.canonical|
    ensures RowValues(d.keys, from, to - from) == RowValues(c.keys, base, end - base)
    ensures RowValues(d.values, from, to - from) == RowValues(c.values, base, end - base)
    ensures d.canonical[from..to] == c.canonical[base..end]
  {
    assert Rows(c.values) == Rows(c.keys) == |c.canonical| && |d.canonical| == |rows|;
    hide RowValue, RowValues, WellFormed, SameShape;
    StretchMoves(d.keys, c.keys, rows, from, to, base);
    StretchMoves(d.values, c.values, rows, from, to, base);
    PickStretch(c.canonical, rows, from, to, base);
  }

  lemma MapRowMoves(c: Column, d: Column, order: seq<nat>, i: nat)
    requires WellFormed(c) && c.MapCol? && Within(order, Rows(c)) && WellFormed(d) && d.MapCol?
    requires d.nulls == Pick(c.nulls, order) && d.offsets == NewOffsets(c.offsets, order)
    requires var rows := ChildRows(c.offsets, order);
             && ListsRows(d.keys, c.keys, rows) && ListsRows(d.values, c.values, rows)
             && Within(rows, |c.canonical|) && d.canonical == Pick(c.canonical, rows)
    requires i < |order|
    ensures RowValue(d, i) == RowValue(c, order[i])
  {
    hide ListsRows, ChildRows, NewOffsets, RowValue, WellFormed;
    MapOffsets(c);
    var row, rows, no := order[i], ChildRows(c.offsets, order), d.offsets;
    assert row < Rows(c) && d.nulls[i] == c.nulls[row] && Rows(d) == |order|;
    hide *;
    ChildStretch(c.offsets, order, Rows(c), Rows(c.keys), i);
    MapPartsMove(c, d, rows, no[i], no[i + 1], c.offsets[row], c.offsets[row + 1]);
    MapRow(c, row);
    MapRow(d, i);
  }

  /** Reordering any column of any depth by any in-range rows, when it succeeds,
      keeps the shape invariant and makes row i denote the old row order[i]. */
  lemma {:induction false} ReorderDenotes(c: Column, order: seq<nat>)
    requires WellFormed(c) && Within(order, Rows(c)) && Reordered(c, order).Ok?
    ensures ListsRows(Reordered(c, order).value, c, order)
    decreases c
  {
    var d := Reordered(c, order).value;
    match c
    case ScalarCol(_, _) =>
    case StructCol(_, fields) =>
      forall k | 0 <= k < |fields| ensures ListsRows(d.fields[k], fields[k], order) {
        ReorderDenotes(fields[k], order);
      }
      StructRowsMove(c, d, order);
    case ListCol(_, _, offsets, child) =>
      ChildRowsOk(offsets, order, Rows(c), Rows(child));
      ReorderDenotes(child, ChildRows(offsets, order));
      forall i | 0 <= i < |order| ensures RowValue(d, i) == RowValue(c, order[i]) {
        ListRowMoves(c, d, order, i);
      }
    case MapCol(_, offsets, keys, values, _) =>
      var rows := ChildRows(offsets, order);
      ChildRowsOk(offsets, order, Rows(c), Rows(keys));
      ReorderDenotes(keys, rows);
      ReorderDenotes(values, rows);
      forall i | 0 <= i < |order| ensures RowValue(d, i) == RowValue(c, order[i]) {
        MapRowMoves(c, d, order, i);
      }
  }

  lemma StructRowsMove(c: Column, d: Column, order: seq<nat>)
    requires WellFormed(c) && c.StructCol? && Within(order, Rows(c)) && d.StructCol?
    requires d.nulls == Pick(c.nulls, order) && |d.fields| == |c.fields|
    requires forall k :: 0 <= k < |c.fields| ==> ListsRows(d.fields[k], c.fields[k], order)
    ensures ListsRows(d, c, order)
  {
    forall i | 0 <= i < |order| ensures RowValue(d, i) == RowValue(c, order[i]) {
      StructRowMoves(c, d, order, i);
    }
  }

  lemma StructRowMoves(c: Column, d: Column, order: seq<nat>, i: nat)
    requires WellFormed(c) && c.StructCol? && Within(order, Rows(c)) && WellFormed(d) && d.StructCol?
    requires d.nulls == Pick(c.nulls, order) && |d.fields| == |c.fields| && i < |order|
    requires forall k :: 0 <= k < |c.fields| ==> ListsRows(d.fields[k], c.fields[k], order)
    ensures RowValue(d, i) == RowValue(c, order[i])
  {
    forall k | 0 <= k < |c.fields| ensures RowValue(d.fields[k], i) == RowValue(c.fields[k], order[i]) {
      assert ListsRows(d.fields[k], c.fields[k], order);
    }
  }

  /** Reorders a column level by level: null flags and scalars by the listed rows, lists and
      maps by the child rows those stand for. */
  method Reorder(c: Column, order: seq<nat>) returns (r: Result<Column>)
    requires WellFormed(c) && Within(order, Rows(c))
    ensures r == Reordered(c, order)
    decreases c
  {
    match c
    case ScalarCol(_, vals) =>
      r := Ok(ScalarCol(Pick(c.nulls, order), ReorderValues(vals, order)));
    case StructCol(_, fields) =>
      var done: seq<Column> := [];
      for k := 0 to |fields|
        invariant ReorderedFields(c, order, k) == Ok(done)
      {
        var field := Reorder(fields[k], order);
        if field.Err? {
          FieldsFail(c, order, k);
          return field;
        }
        done := done + [field.value];
      }
      r := Ok(StructCol(Pick(c.nulls, order), done));
    case ListCol(_, kind, offsets, child) =>
      var parts :- ReorderedChildOrder(offsets, order);
      ChildRowsOk(offsets, order, Rows(c), Rows(child));
      var newChild :- Reorder(child, parts.1);
      r := Ok(ListCol(Pick(c.nulls, order), kind, parts.0, newChild));
    case MapCol(_, offsets, keys, values, canonical) =>
      var parts :- ReorderedChildOrder(offsets, order);
      ChildRowsOk(offsets, order, Rows(c), Rows(keys));
      var newKeys := Reorder(keys, parts.1);
      var newValues :- Reorder(values, parts.1);
      r := Ok(MapCol(Pick(c.nulls, order), parts.0, newKeys.value, newValues, Pick(canonical, parts.1)));
  }

  lemma FieldsFail(c: Column, order: seq<nat>, k: nat)
    requires WellFormed(c) && c.StructCol? && Within(order, Rows(c)) && k < |c.fields|
    requires ReorderedFields(c, order, k).Ok? && Reordered(c.fields[k], order).Err?
    ensures Reordered(c, order) == Err(Reordered(c.fields[k], order).error)
  {
    FieldsFailFrom(c, order, k, |c.fields|);
  }

  lemma {:induction false} FieldsFailFrom(c: Column, order: seq<nat>, k: nat, n: nat)
    requires WellFormed(c) && c.StructCol? && Within(order, Rows(c)) && k < n <= |c.fields|
    requires ReorderedFields(c, order, k).Ok? && Reordered(c.fields[k], order).Err?
    ensures ReorderedFields(c, order, n) == Err(Reordered(c.fields[k], order).error)
    decreases n
  {
    hide Reordered;
    if n > k + 1 { FieldsFailFrom(c, order, k, n - 1); }
  }

  // ---- permutations never fail ----

  /** The listed rows are 0, 1, ..., n - 1 in some order. */
  ghost predicate IsPermutation(order: seq<nat>, n: nat) {
    multiset(order) == multiset(Identity(n))
  }

  lemma PermutationFacts(order: seq<nat>, n: nat)
    requires IsPermutation(order, n)
    ensures |order| == n && Within(order, n)
  {
    assert |multiset(order)| == |order| && |multiset(Identity(n))| == n;
    forall i | 0 <= i < |order| ensures order[i] < n {
      assert order[i] in multiset(order);
      assert order[i] in Identity(n);
    }
  }

  lemma {:induction false} ChildRowsConcat(offsets: seq<nat>, a: seq<nat>, b: seq<nat>)
    requires |offsets| > 0 && Monotone(offsets) && Within(a, |offsets| - 1) && Within(b, |offsets| - 1)
    ensures Within(a + b, |offsets| - 1)
    ensures ChildRows(offsets, a + b) == ChildRows(offsets, a) + ChildRows(offsets, b)
    decreases |b|
  {
    if b == [] {
      assert a + b == a;
    } else {
      var front, last := b[..|b| - 1], b[|b| - 1];
      Front(b, |offsets| - 1);
      ChildRowsConcat(offsets, a, front);
      assert a + b == (a + front) + [last] && Within((a + front) + [last], |offsets| - 1);
      hide *;
      ChildRowsSnoc(offsets, a + front, last);
      ChildRowsSnoc(offsets, front, last);
      Associate(ChildRows(offsets, a), ChildRows(offsets, front), Span(offsets, last));
    }
  }

  lemma Associate<T>(a: seq<T>, b: seq<T>, c: seq<T>)
    ensures a + (b + c) == (a + b) + c
  {
  }

  /** Listing the same rows in another order lists the same child rows in another order. */
  lemma {:induction false} ChildRowsMultiset(offsets: seq<nat>, a: seq<nat>, b: seq<nat>)
    requires |offsets| > 0 && Monotone(offsets) && Within(a, |offsets| - 1) && Within(b, |offsets| - 1)
    requires multiset(a) == multiset(b)
    ensures multiset(ChildRows(offsets, a)) == multiset(ChildRows(offsets, b))
    decreases |a|
  {
    if a == [] {
      assert |multiset(b)| == |b|;
    } else {
      hide ChildRows, Span;
      var front, last := a[..|a| - 1], a[|a| - 1];
      Front(a, |offsets| - 1);
      assert last in multiset(b);
      var j :| 0 <= j < |b| && b[j] == last;
      var rest := b[..j] + b[j + 1..];
      RemoveRow(offsets, b, j);
      RemoveRow(offsets, a, |front|);
      assert a[..|front|] + a[|front| + 1..] == front;
      ChildRowsMultiset(offsets, front, rest);
    }
  }

  /** Taking one listed row out takes its span of child rows out. */
  lemma RemoveRow(offsets: seq<nat>, b: seq<nat>, j: nat)
    requires |offsets| > 0 && Monotone(offsets) && Within(b, |offsets| - 1) && j < |b|
    ensures var rest := b[..j] + b[j + 1..];
            && Within(rest, |offsets| - 1) && multiset(rest) == multiset(b) - multiset{b[j]}
            && multiset(ChildRows(offsets, b)) == multiset(ChildRows(offsets, rest)) + multiset(Span(offsets, b[j]))
  {
    hide ChildRows, Span;
    var left, right, one := b[..j], b[j + 1..], [b[j]];
    assert b == left + (one + right);
    ChildRowsConcat(offsets, left, right);
    ChildRowsConcat(offsets, one, right);
    ChildRowsConcat(offsets, left, one + right);
    ChildRowsOfOne(offsets, b[j]);
  }

  lemma ChildRowsOfOne(offsets: seq<nat>, row: nat)
    requires |offsets| > 0 && Monotone(offsets) && row < |offsets| - 1
    ensures ChildRows(offsets, [row]) == Span(offsets, row)
  {
    ChildRowsSnoc(offsets, [], row);
    assert [] + [row] == [row] && ChildRows(offsets, []) + Span(offsets, row) == Span(offsets, row);
  }

  lemma {:induction false} ChildRowsOfAll(offsets: seq<nat>, k: nat)
    requires |offsets| > 0 && Monotone(offsets) && offsets[0] == 0 && k < |offsets|
    ensures Within(Identity(k), |offsets| - 1) && ChildRows(offsets, Identity(k)) == Identity(offsets[k])
    decreases k
  {
    if k > 0 {
      ChildRowsOfAll(offsets, k - 1);
      IdentitySpan(offsets, k - 1);
      assert Identity(k) == Identity(k - 1) + [k - 1] && Within(Identity(k), |offsets| - 1);
      hide *;
      ChildRowsSnoc(offsets, Identity(k - 1), k - 1);
    }
  }

  lemma IdentitySpan(offsets: seq<nat>, row: nat)
    requires row + 1 < |offsets| && offsets[row] <= offsets[row + 1]
    ensures Identity(offsets[row]) + Span(offsets, row) == Identity(offsets[row + 1])
  {
  }

  lemma ChildPermutation(offsets: seq<nat>, order: seq<nat>, n: nat, childRows: nat)
    requires OffsetsOk(offsets, n, childRows) && IsPermutation(order, n)
    ensures Within(order, n) && IsPermutation(ChildRows(offsets, order), childRows)
  {
    PermutationFacts(order, n);
    ChildRowsOfAll(offsets, n);
    ChildRowsMultiset(offsets, order, Identity(n));
  }

  /** A permutation can be applied to any well-formed column of any depth. */
  lemma {:induction false} PermutationNeverFails(c: Column, order: seq<nat>)
    requires WellFormed(c) && IsPermutation(order, Rows(c))
    ensures Within(order, Rows(c)) && Reordered(c, order).Ok?
    decreases c
  {
    PermutationFacts(order, Rows(c));
    match c
    case ScalarCol(_, _) =>
    case StructCol(_, fields) =>
      forall k | 0 <= k < |fields| ensures Reordered(fields[k], order).Ok? {
        PermutationNeverFails(fields[k], order);
      }
      assert ReorderedFields(c, order, |fields|).Ok?;
    case ListCol(_, _, offsets, child) =>
      ChildPermutation(offsets, order, Rows(c), Rows(child));
      PermutationFacts(ChildRows(offsets, order), Rows(child));
      PermutationNeverFails(child, ChildRows(offsets, order));
    case MapCol(_, offsets, keys, values, _) =>
      ChildPermutation(offsets, order, Rows(c), Rows(keys));
      PermutationFacts(ChildRows(offsets, order), Rows(keys));
      PermutationNeverFails(keys, ChildRows(offsets, order));
      PermutationNeverFails(values, ChildRows(offsets, order));
  }

  // ---- reorderings compose ----

  lemma PickPick<T>(s: seq<T>, p: seq<nat>, q: seq<nat>)
    requires Within(p, |s|) && Within(q, |p|)
    ensures Within(Pick(p, q), |s|) && Pick(Pick(s, p), q) == Pick(s, Pick(p, q))
  {
  }

  lemma PickConcat<T>(s: seq<T>, a: seq<nat>, b: seq<nat>)
    requires Within(a, |s|) && Within(b, |s|)
    ensures Within(a + b, |s|) && Pick(s, a + b) == Pick(s, a) + Pick(s, b)
  {
  }

  /** Offsets and child rows of a reordering of a reordering. */
  lemma {:induction false} OffsetsCompose(offsets: seq<nat>, n: nat, childRows: nat, p: seq<nat>, q: seq<nat>)
    requires OffsetsOk(offsets, n, childRows) && Within(p, n) && Within(q, |p|)
    requires |ChildRows(offsets, p)| <= U32_MAX
    ensures var no, rows := NewOffsets(offsets, p), ChildRows(offsets, p);
            && OffsetsOk(no, |p|, |rows|) && Within(rows, childRows)
            && Within(ChildRows(no, q), |rows|) && Within(Pick(p, q), n)
            && Pick(rows, ChildRows(no, q)) == ChildRows(offsets, Pick(p, q))
            && NewOffsets(no, q) == NewOffsets(offsets, Pick(p, q))
    decreases |q|
  {
    var no, rows := NewOffsets(offsets, p), ChildRows(offsets, p);
    ChildRowsOk(offsets, p, n, childRows);
    ChildRowsOk(no, q, |p|, |rows|);
    if q != [] {
      var front, last := q[..|q| - 1], q[|q| - 1];
      Front(q, |p|);
      OffsetsCompose(offsets, n, childRows, p, front);
      assert Pick(p, q) == Pick(p, front) + [p[last]];
      SpanComposes(offsets, p, last);
      ChildRowsOk(no, front, |p|, |rows|);
      assert OffsetsOk(no, |p|, |rows|) && Within(front + [last], |no| - 1) && |offsets| - 1 == n;
      assert Within(Pick(p, front) + [p[last]], n);
      SpanWithin(no, last);
      hide *;
      ChildRowsSnoc(no, front, last);
      ChildRowsSnoc(offsets, Pick(p, front), p[last]);
      PickConcat(rows, ChildRows(no, front), Span(no, last));
    }
  }

  lemma SpanWithin(no: seq<nat>, row: nat)
    requires row + 1 < |no| && Monotone(no)
    ensures Within(Span(no, row), no[|no| - 1])
  {
  }

  lemma SpanComposes(offsets: seq<nat>, p: seq<nat>, r: nat)
    requires |offsets| > 0 && Monotone(offsets) && Within(p, |offsets| - 1) && r < |p|
    ensures var no, rows := NewOffsets(offsets, p), ChildRows(offsets, p);
            && no[r] <= no[r + 1] && Within(Span(no, r), |rows|)
            && Pick(rows, Span(no, r)) == Span(offsets, p[r])
  {
    ChildRowsAt(offsets, p, r);
    var no, rows := NewOffsets(offsets, p), ChildRows(offsets, p);
    assert Pick(rows, Span(no, r)) == rows[no[r]..no[r + 1]];
  }

  /** Reordering by p and then by q is reordering once by their composition, and fails
      exactly when that does, with the same error. */
  lemma {:induction false} ReorderComposes(c: Column, p: seq<nat>, q: seq<nat>)
    requires WellFormed(c) && Within(p, Rows(c)) && Within(q, |p|) && Reordered(c, p).Ok?
    ensures var c1 := Reordered(c, p).value;
            && WellFormed(c1) && Rows(c1) == |p| && Within(Pick(p, q), Rows(c))
            && Reordered(c, Pick(p, q)) == Reordered(c1, q)
    decreases c
  {
    hide RowValue, ChildRows, NewOffsets, SameShape;
    ReorderDenotes(c, p);
    PickPick(c.nulls, p, q);
    var c1 := Reordered(c, p).value;
    match c
    case ScalarCol(_, vals) => ValuesCompose(vals, p, q);
    case StructCol(_, fields) =>
      forall k | 0 <= k < |fields|
        ensures Reordered(fields[k], p).Ok?
        ensures Reordered(fields[k], Pick(p, q)) == Reordered(c1.fields[k], q)
      {
        assert Reordered(fields[k], p) == Ok(c1.fields[k]);
        ReorderComposes(fields[k], p, q);
      }
      FieldsCompose(c, c1, p, q, |fields|);
    case ListCol(_, _, offsets, child) =>
      OffsetsCompose(offsets, Rows(c), Rows(child), p, q);
      ReorderComposes(child, ChildRows(offsets, p), ChildRows(c1.offsets, q));
      ListComposes(c, c1, p, q);
    case MapCol(_, offsets, keys, values, _) =>
      OffsetsCompose(offsets, Rows(c), Rows(keys), p, q);
      ReorderComposes(keys, ChildRows(offsets, p), ChildRows(c1.offsets, q));
      ReorderComposes(values, ChildRows(offsets, p), ChildRows(c1.offsets, q));
      MapComposes(c, c1, p, q);
  }

  lemma ListComposes(c: Column, c1: Column, p: seq<nat>, q: seq<nat>)
    requires WellFormed(c) && c.ListCol? && Within(p, Rows(c)) && Within(q, |p|)
    requires Reordered(c, p) == Ok(c1) && WellFormed(c1) && Rows(c1) == |p|
    requires Within(Pick(p, q), Rows(c))
    requires var rows, more := ChildRows(c.offsets, p), ChildRows(c1.offsets, q);
             && Within(more, |rows|) && Within(Pick(rows, more), Rows(c.child)) && Within(more, Rows(c1.child))
             && Reordered(c.child, Pick(rows, more)) == Reordered(c1.child, more)
    ensures Reordered(c, Pick(p, q)) == Reordered(c1, q)
  {
    hide ChildRows, NewOffsets, RowValue;
    PickPick(c.nulls, p, q);
    ListOffsets(c);
    OffsetsCompose(c.offsets, Rows(c), Rows(c.child), p, q);
  }

  lemma MapComposes(c: Column, c1: Column, p: seq<nat>, q: seq<nat>)
    requires WellFormed(c) && c.MapCol? && Within(p, Rows(c)) && Within(q, |p|)
    requires Reordered(c, p) == Ok(c1) && WellFormed(c1) && Rows(c1) == |p|
    requires Within(Pick(p, q), Rows(c))
    requires var rows, more := ChildRows(c.offsets, p), ChildRows(c1.offsets, q);
             && Within(rows, |c.canonical|) && Within(more, |rows|) && Within(Pick(rows, more), Rows(c.keys))
             && Within(more, Rows(c1.keys))
             && Reordered(c.keys, Pick(rows, more)) == Reordered(c1.keys, more)
             && Reordered(c.values, Pick(rows, more)) == Reordered(c1.values, more)
    ensures Reordered(c, Pick(p, q)) == Reordered(c1, q)
  {
    hide ChildRows, NewOffsets, RowValue;
    PickPick(c.nulls, p, q);
    MapOffsets(c);
    OffsetsCompose(c.offsets, Rows(c), Rows(c.keys), p, q);
    PickPick(c.canonical, ChildRows(c.offsets, p), ChildRows(c1.offsets, q));
  }

  lemma ValuesCompose(v: MaterializedValues, p: seq<nat>, q: seq<nat>)
    requires Within(p, RowCount(v)) && Within(q, |p|)
    ensures Within(Pick(p, q), RowCount(v))
    ensures ReorderValues(ReorderValues(v, p), q) == ReorderValues(v, Pick(p, q))
  {
    match v
    case Booleans(s) => PickPick(s, p, q);
    case FileCodes(s) => PickPick(s, p, q);
    case NumCodes(s) => PickPick(s, p, q);
    case VarByteRows(s) => PickPick(s, p, q);
    case FixedByteRows(_, s) => PickPick(s, p, q);
  }

  lemma {:induction false} FieldsCompose(c: Column, c1: Column, p: seq<nat>, q: seq<nat>, k: nat)
    requires WellFormed(c) && c.StructCol? && WellFormed(c1) && c1.StructCol?
    requires |c1.fields| == |c.fields| && k <= |c.fields|
    requires Within(q, Rows(c1)) && Within(q, |p|) && Within(Pick(p, q), Rows(c))
    requires forall i :: 0 <= i < k ==>
      Reordered(c.fields[i], Pick(p, q)) == Reordered(c1.fields[i], q)
    ensures ReorderedFields(c, Pick(p, q), k) == ReorderedFields(c1, q, k)
    decreases k
  {
    hide Reordered, WellFormed;
    if k > 0 { FieldsCompose(c, c1, p, q, k - 1); }
  }
}
