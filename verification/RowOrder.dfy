/** How the converter compares two rows: nulls first, then the column's own order,
    column by column, then source position. */
module RowOrder {
  import opened Machine
  import opened Bits
  import opened LittleEndian
  import opened Scalars
  import opened Nested

  datatype Ordering = Less | Equal | Greater

  function Flip(o: Ordering): Ordering {
    match o
    case Less => Greater
    case Equal => Equal
    case Greater => Less
  }

  function CompareInt(a: int, b: int): Ordering {
    if a < b then Less else if a == b then Equal else Greater
  }

  /** Byte strings compare lexicographically, a proper prefix first. */
  function CompareBytes(a: seq<byte>, b: seq<byte>): Ordering {
    if a == [] then if b == [] then Equal else Less
    else if b == [] then Greater
    else if a[0] == b[0] then CompareBytes(a[1..], b[1..])
    else CompareInt(a[0], b[0])
  }

  /** `CoveLogicalType`, as far as row order and sums depend on it. */
  datatype Logical =
    | Int8 | Int16 | Int32 | Int64 | UInt8 | UInt16 | UInt32 | UInt64
    | Float32 | Float64 | DateDays | TimestampMicros | TimestampNanos | Decimal128 | OtherLogical

  /** The low `bits` bits read as two's complement. */
  function LowSigned(code: u64, bits: nat): int {
    var low := code % Pow2(bits);
    if 2 * low < Pow2(bits) then low else low - Pow2(bits)
  }

  /** `total_cmp` orders floats by their bit patterns: negative patterns reversed,
      below all the others. */
  function FloatKey(bits: nat, width: nat): int
    requires width > 0
  {
    if bits < Pow2(width - 1) then bits else -1 - (bits - Pow2(width - 1))
  }

  /** `compare_numcode_rows`, as the integer it compares. */
  function NumKey(logical: Logical, fromFloat32: bool, code: u64): int {
    match logical
    case Int8 => LowSigned(code, 8)
    case Int16 => LowSigned(code, 16)
    case Int32 => LowSigned(code, 32)
    case Int64 => LowSigned(code, 64)
    case Float32 => if fromFloat32 then FloatKey(code % Pow2(32), 32) else code
    case Float64 => FloatKey(code, 64)
    case DateDays => LowSigned(code, 32)
    case TimestampMicros => LowSigned(code, 64)
    case TimestampNanos => LowSigned(code, 64)
    case _ => code
  }

  /** `ConvertedColumn`: a flat or a nested column with its name and type. */
  datatype ConvertedColumn = ConvertedColumn(name: string, nested: bool, logical: Logical, fromFloat32: bool,
                                             data: Column)

  ghost predicate ColumnOk(c: ConvertedColumn) {
    WellFormed(c.data) && (!c.nested ==> c.data.ScalarCol?)
  }

  function RowsOf(c: ConvertedColumn): nat {
    Rows(c.data)
  }

  /** `compare_rows_for_cluster`. A nested column compares row positions. */
  function CompareRows(c: ConvertedColumn, left: nat, right: nat): Ordering
    requires ColumnOk(c) && left < RowsOf(c) && right < RowsOf(c)
  {
    if c.nested then CompareInt(left, right)
    else if c.data.nulls[left] then if c.data.nulls[right] then Equal else Less
    else if c.data.nulls[right] then Greater
    else
      match c.data.vals
      case Booleans(s) => CompareInt(s[left], s[right])
      case FileCodes(s) => CompareInt(s[left], s[right])
      case NumCodes(s) => CompareInt(NumKey(c.logical, c.fromFloat32, s[left]),
                                     NumKey(c.logical, c.fromFloat32, s[right]))
      case VarByteRows(s) => CompareBytes(s[left], s[right])
      case FixedByteRows(_, s) => CompareBytes(s[left], s[right])
  }

  ghost predicate Table(columns: seq<ConvertedColumn>, n: nat) {
    forall i :: 0 <= i < |columns| ==> ColumnOk(columns[i]) && RowsOf(columns[i]) == n
  }

  ghost predicate IndicesOk(columns: seq<ConvertedColumn>, indices: seq<nat>) {
    forall k :: 0 <= k < |indices| ==> indices[k] < |columns|
  }

  /** The declared columns from the k-th on. */
  function LexCompare(columns: seq<ConvertedColumn>, n: nat, indices: seq<nat>, k: nat, left: nat, right: nat): Ordering
    requires Table(columns, n) && IndicesOk(columns, indices) && k <= |indices| && left < n && right < n
    decreases |indices| - k
  {
    if k == |indices| then Equal
    else
      var o := CompareRows(columns[indices[k]], left, right);
      if o != Equal then o else LexCompare(columns, n, indices, k + 1, left, right)
  }

  /** The closure given to `sort_by`: declared columns first, source position last. */
  function ClusterCompare(columns: seq<ConvertedColumn>, n: nat, indices: seq<nat>, left: nat, right: nat): Ordering
    requires Table(columns, n) && IndicesOk(columns, indices) && left < n && right < n
  {
    var o := LexCompare(columns, n, indices, 0, left, right);
    if o != Equal then o else CompareInt(left, right)
  }

  // ---- every comparison is a total preorder ----

  /** What a transitive comparison says of `ac`, given `ab` and `bc`. */
  ghost predicate Composes(ab: Ordering, bc: Ordering, ac: Ordering) {
    && (ab == Equal ==> ac == bc) && (bc == Equal ==> ac == ab) && (ab == bc ==> ac == ab)
  }

  lemma {:induction false} BytesFlip(a: seq<byte>, b: seq<byte>)
    ensures CompareBytes(b, a) == Flip(CompareBytes(a, b))
    ensures CompareBytes(a, b) == Equal <==> a == b
    decreases |a|
  {
    if a != [] && b != [] {
      BytesFlip(a[1..], b[1..]);
      assert a == [a[0]] + a[1..] && b == [b[0]] + b[1..];
    }
  }

  lemma {:induction false} BytesCompose(a: seq<byte>, b: seq<byte>, c: seq<byte>)
    ensures Composes(CompareBytes(a, b), CompareBytes(b, c), CompareBytes(a, c))
    decreases |a|
  {
    if a != [] && b != [] && c != [] { BytesCompose(a[1..], b[1..], c[1..]); }
  }

  lemma RowsFlip(c: ConvertedColumn, left: nat, right: nat)
    requires ColumnOk(c) && left < RowsOf(c) && right < RowsOf(c)
    ensures CompareRows(c, right, left) == Flip(CompareRows(c, left, right))
  {
    if c.data.ScalarCol? {
      match c.data.vals
      case VarByteRows(s) => BytesFlip(s[left], s[right]);
      case FixedByteRows(_, s) => BytesFlip(s[left], s[right]);
      case _ =>
    }
  }

  lemma RowsCompose(c: ConvertedColumn, x: nat, y: nat, z: nat)
    requires ColumnOk(c) && x < RowsOf(c) && y < RowsOf(c) && z < RowsOf(c)
    ensures Composes(CompareRows(c, x, y), CompareRows(c, y, z), CompareRows(c, x, z))
  {
    hide NumKey;
    if c.data.ScalarCol? {
      match c.data.vals
      case VarByteRows(s) => BytesCompose(s[x], s[y], s[z]);
      case FixedByteRows(_, s) => BytesCompose(s[x], s[y], s[z]);
      case _ =>
    }
  }

  lemma {:induction false} LexFlip(columns: seq<ConvertedColumn>, n: nat, indices: seq<nat>, k: nat, x: nat, y: nat)
    requires Table(columns, n) && IndicesOk(columns, indices) && k <= |indices| && x < n && y < n
    ensures LexCompare(columns, n, indices, k, y, x) == Flip(LexCompare(columns, n, indices, k, x, y))
    decreases |indices| - k
  {
    if k < |indices| {
      RowsFlip(columns[indices[k]], x, y);
      LexFlip(columns, n, indices, k + 1, x, y);
    }
  }

  lemma {:induction false} LexComposes(columns: seq<ConvertedColumn>, n: nat, indices: seq<nat>, k: nat, x: nat, y: nat,
                                       z: nat)
    requires Table(columns, n) && IndicesOk(columns, indices) && k <= |indices| && x < n && y < n && z < n
    ensures Composes(LexCompare(columns, n, indices, k, x, y), LexCompare(columns, n, indices, k, y, z),
                     LexCompare(columns, n, indices, k, x, z))
    decreases |indices| - k
  {
    if k < |indices| {
      RowsCompose(columns[indices[k]], x, y, z);
      LexComposes(columns, n, indices, k + 1, x, y, z);
      hide CompareRows;
    }
  }

  /** The cluster order is a strict total order on rows. */
  lemma ClusterOrderTotal(columns: seq<ConvertedColumn>, n: nat, indices: seq<nat>, x: nat, y: nat, z: nat)
    requires Table(columns, n) && IndicesOk(columns, indices) && x < n && y < n && z < n
    ensures ClusterCompare(columns, n, indices, y, x) == Flip(ClusterCompare(columns, n, indices, x, y))
    ensures ClusterCompare(columns, n, indices, x, y) == Equal <==> x == y
    ensures Composes(ClusterCompare(columns, n, indices, x, y), ClusterCompare(columns, n, indices, y, z),
                     ClusterCompare(columns, n, indices, x, z))
  {
    LexFlip(columns, n, indices, 0, x, y);
    LexFlip(columns, n, indices, 0, x, x);
    LexComposes(columns, n, indices, 0, x, y, z);
    hide LexCompare;
  }

  // ---- what the orders mean ----

  /** A signed source value is stored with `as u64`. */
  function AsU64(x: int): u64
    requires -0x8000_0000_0000_0000 <= x <= I64_MAX
  {
    if x >= 0 then x else x + 0x1_0000_0000_0000_0000
  }

  ghost predicate Fits(x: int, bits: nat)
    requires bits > 0
  {
    x < Pow2(bits - 1) && -x <= Pow2(bits - 1)
  }

  /** Signed columns, dates and timestamps are clustered by numeric value, negative
      values included. */
  lemma SignedOrderIsNumeric(x: int, bits: nat)
    requires bits == 8 || bits == 16 || bits == 32 || bits == 64
    requires Fits(x, bits)
    ensures -0x8000_0000_0000_0000 <= x <= I64_MAX && LowSigned(AsU64(x), bits) == x
  {
    Widths();
    HalfWidths();
    hide Pow2;
    var p := Pow2(bits);
    if x < 0 {
      assert 0x1_0000_0000_0000_0000 == p * Words(bits);
      ModOfNegative(x, p, Words(bits));
    } else {
      ModShift(x, p, 0);
    }
  }

  /** How many values of this width make up a u64. */
  function Words(bits: nat): nat {
    if bits == 8 then 0x100_0000_0000_0000 else if bits == 16 then 0x1_0000_0000_0000
    else if bits == 32 then 0x1_0000_0000 else 1
  }

  lemma ModOfNegative(x: int, p: nat, k: nat)
    requires p > 0 && k > 0 && x < 0 <= x + p
    ensures (x + p * k) % p == x + p
  {
    assert x + p * k == (x + p) + p * (k - 1);
    ModShift(x + p, p, k - 1);
  }

  lemma HalfWidths()
    ensures Pow2(7) == 0x80 && Pow2(15) == 0x8000 && Pow2(31) == 0x8000_0000 && Pow2(63) == 0x8000_0000_0000_0000
  {
    Widths();
    assert Pow2(8) == 2 * Pow2(7) && Pow2(16) == 2 * Pow2(15) && Pow2(32) == 2 * Pow2(31) && Pow2(64) == 2 * Pow2(63);
  }

  lemma ModShift(r: nat, p: nat, k: nat)
    requires r < p
    ensures (r + p * k) % p == r
  {
    var v := r + p * k;
    var q, m := v / p, v % p;
    assert v == p * q + m;
    if q > k {
      MulGrows(p, k, q);
    } else if q < k {
      MulGrows(p, q, k);
    }
  }

  lemma MulGrows(p: nat, a: nat, b: nat)
    requires a < b
    ensures p * b >= p * a + p
  {
    assert p * b == p * a + p * (b - a);
    assert p * (b - a) == p * (b - a - 1) + p;
    assert p * (b - a - 1) >= 0;
  }
}
