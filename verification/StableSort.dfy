/** Sorting row positions by a strict total order: what any correct sort must return. */
module StableSort {
  import opened Machine
  import opened Scalars
  import opened NestedReorder

  ghost predicate StrictTotal(before: (nat, nat) -> bool, n: nat) {
    && (forall x: nat, y: nat :: x < n && y < n ==> (before(x, y) <==> x != y && !before(y, x)))
    && (forall x: nat, y: nat, z: nat ::
          x < n && y < n && z < n && before(x, y) && before(y, z) ==> before(x, z))
  }

  ghost predicate Sorted(before: (nat, nat) -> bool, s: seq<nat>) {
    forall i, j :: 0 <= i < j < |s| ==> before(s[i], s[j])
  }

  function Insert(before: (nat, nat) -> bool, row: nat, s: seq<nat>): seq<nat> {
    if s == [] || before(row, s[0]) then [row] + s else [s[0]] + Insert(before, row, s[1..])
  }

  /** The rows 0 to k - 1 in order. */
  function SortRows(before: (nat, nat) -> bool, k: nat): seq<nat> {
    if k == 0 then [] else Insert(before, k - 1, SortRows(before, k - 1))
  }

  lemma {:induction false} InsertSorts(before: (nat, nat) -> bool, n: nat, row: nat, s: seq<nat>)
    requires StrictTotal(before, n) && row < n && Within(s, n) && row !in s && Sorted(before, s)
    ensures Sorted(before, Insert(before, row, s))
    ensures multiset(Insert(before, row, s)) == multiset(s) + multiset{row}
    decreases |s|
  {
    if s == [] || before(row, s[0]) {
      var r := [row] + s;
      forall i, j | 0 <= i < j < |r| ensures before(r[i], r[j]) {
        if i == 0 && j > 1 { assert before(s[0], s[j - 1]); }
      }
    } else {
      var tail := Insert(before, row, s[1..]);
      InsertSorts(before, n, row, s[1..]);
      assert s == [s[0]] + s[1..];
      assert before(s[0], row);
      forall x | x in tail ensures before(s[0], x) {
        assert x in multiset(tail);
        if x != row {
          assert x in s[1..];
          var j :| 0 <= j < |s[1..]| && s[1..][j] == x;
          assert before(s[0], s[j + 1]);
        }
      }
      HeadFirst(before, s[0], tail);
    }
  }

  lemma HeadFirst(before: (nat, nat) -> bool, first: nat, tail: seq<nat>)
    requires Sorted(before, tail) && forall x :: x in tail ==> before(first, x)
    ensures Sorted(before, [first] + tail)
  {
    var r := [first] + tail;
    forall i, j | 0 <= i < j < |r| ensures before(r[i], r[j]) {
      if i == 0 { assert r[j] in tail; }
    }
  }

  lemma {:induction false} SortRowsSorts(before: (nat, nat) -> bool, n: nat, k: nat)
    requires StrictTotal(before, n) && k <= n
    ensures Sorted(before, SortRows(before, k)) && IsPermutation(SortRows(before, k), k)
    decreases k
  {
    hide StrictTotal, Sorted, Insert, IsPermutation, Within;
    SortedNone(before);
    if k > 0 {
      SortRowsSorts(before, n, k - 1);
      var s := SortRows(before, k - 1);
      RowsBelow(s, k - 1, n);
      InsertSorts(before, n, k - 1, s);
      OneMoreRow(s, Insert(before, k - 1, s), k - 1);
    }
  }

  lemma SortedNone(before: (nat, nat) -> bool)
    ensures Sorted(before, []) && IsPermutation([], 0)
  {
    assert Identity(0) == [];
  }

  lemma RowsBelow(s: seq<nat>, k: nat, n: nat)
    requires IsPermutation(s, k) && k <= n
    ensures Within(s, n) && k !in s
  {
    PermutationFacts(s, k);
  }

  lemma OneMoreRow(s: seq<nat>, t: seq<nat>, row: nat)
    requires IsPermutation(s, row) && multiset(t) == multiset(s) + multiset{row}
    ensures IsPermutation(t, row + 1)
  {
    assert Identity(row + 1) == Identity(row) + [row];
  }

  lemma HeadIsFirst(before: (nat, nat) -> bool, s: seq<nat>, x: nat)
    requires Sorted(before, s) && x in s
    ensures s[0] == x || before(s[0], x)
  {
    var j :| 0 <= j < |s| && s[j] == x;
    if j > 0 { assert before(s[0], s[j]); }
  }

  lemma TailMultiset(s: seq<nat>)
    requires s != []
    ensures multiset(s[1..]) == multiset(s) - multiset{s[0]}
  {
    assert s == [s[0]] + s[1..];
  }

  lemma TailSorted(before: (nat, nat) -> bool, n: nat, s: seq<nat>)
    requires Sorted(before, s) && s != [] && Within(s, n)
    ensures Sorted(before, s[1..]) && Within(s[1..], n) && s[0] < n
  {
  }

  lemma HeadsNotBoth(before: (nat, nat) -> bool, n: nat, x: nat, y: nat)
    requires StrictTotal(before, n) && x < n && y < n && (x == y || before(x, y)) && (x == y || before(y, x))
    ensures x == y
  {
  }

  /** Only one arrangement of the same rows is sorted. */
  lemma {:induction false} SortedUnique(before: (nat, nat) -> bool, n: nat, s: seq<nat>, t: seq<nat>)
    requires StrictTotal(before, n) && Within(s, n) && Within(t, n)
    requires Sorted(before, s) && Sorted(before, t) && multiset(s) == multiset(t)
    ensures s == t
    decreases |s|
  {
    hide StrictTotal, Sorted, Within;
    assert |s| == |multiset(s)| == |multiset(t)| == |t|;
    if s != [] {
      assert s[0] in multiset(t) && t[0] in multiset(s);
      HeadIsFirst(before, s, t[0]);
      HeadIsFirst(before, t, s[0]);
      TailSorted(before, n, s);
      TailSorted(before, n, t);
      HeadsNotBoth(before, n, s[0], t[0]);
      TailMultiset(s);
      TailMultiset(t);
      SortedUnique(before, n, s[1..], t[1..]);
      assert s == [s[0]] + s[1..] && t == [t[0]] + t[1..];
    }
  }

  /** Taking one listed position out takes its element out. */
  lemma PickWithout<T>(s: seq<T>, b: seq<nat>, j: nat)
    requires Within(b, |s|) && j < |b|
    ensures var rest := b[..j] + b[j + 1..];
            && Within(rest, |s|) && multiset(rest) == multiset(b) - multiset{b[j]}
            && multiset(Pick(s, b)) == multiset(Pick(s, rest)) + multiset{s[b[j]]}
  {
    var left, right := b[..j], b[j + 1..];
    assert b == left + ([b[j]] + right);
    PickConcat(s, left, right);
    PickConcat(s, [b[j]], right);
    PickConcat(s, left, [b[j]] + right);
    assert Pick(s, [b[j]]) == [s[b[j]]];
  }

  /** Listing the same positions in another order lists the same elements. */
  lemma {:induction false} PickMultiset<T>(s: seq<T>, a: seq<nat>, b: seq<nat>)
    requires Within(a, |s|) && Within(b, |s|) && multiset(a) == multiset(b)
    ensures multiset(Pick(s, a)) == multiset(Pick(s, b))
    decreases |a|
  {
    hide Pick;
    assert |a| == |multiset(a)| == |multiset(b)| == |b|;
    if a == [] {
      assert Pick(s, a) == [] && Pick(s, b) == [];
    } else {
      assert a[0] in multiset(b);
      var j :| 0 <= j < |b| && b[j] == a[0];
      PickWithout(s, b, j);
      PickWithout(s, a, 0);
      PickMultiset(s, a[..0] + a[1..], b[..j] + b[j + 1..]);
    }
  }
}
