/** What identifies an imported training sample: its text id, its numeric id, and the
    key that decides its split. */
module SampleIdentity {
  import opened Machine
  import opened LittleEndian
  import opened CanonicalJson

  // ---- decimal text ----

  function Decimal(n: nat): seq<byte> {
    if n < 10 then [48 + n] else Decimal(n / 10) + [48 + n % 10]
  }

  predicate AllDigits(s: seq<byte>) {
    forall i :: 0 <= i < |s| ==> 48 <= s[i] < 58
  }

  function DecimalValue(s: seq<byte>): nat
    requires AllDigits(s)
  {
    if s == [] then 0 else 10 * DecimalValue(s[..|s| - 1]) + (s[|s| - 1] - 48)
  }

  lemma {:induction false} DecimalBack(n: nat)
    ensures AllDigits(Decimal(n)) && DecimalValue(Decimal(n)) == n
    decreases n
  {
    if n >= 10 {
      DecimalBack(n / 10);
      assert Decimal(n)[..|Decimal(n)| - 1] == Decimal(n / 10);
    } else {
      assert Decimal(n)[..0] == [];
    }
  }

  /** `{n:012}`: at least twelve digits. */
  function Padded(n: nat): seq<byte> {
    Zeros(12 - |Decimal(n)|) + Decimal(n)
  }

  function Zeros(k: int): seq<byte> {
    if k <= 0 then [] else [48] + Zeros(k - 1)
  }

  lemma {:induction false} ZerosAddNothing(k: int, s: seq<byte>)
    requires AllDigits(s)
    ensures AllDigits(Zeros(k) + s) && DecimalValue(Zeros(k) + s) == DecimalValue(s)
    decreases |s|, k
  {
    if s != [] {
      var front := s[..|s| - 1];
      ZerosAddNothing(k, front);
      assert (Zeros(k) + s)[..|Zeros(k) + s| - 1] == Zeros(k) + front;
    } else {
      ZerosAreZero(k);
      assert Zeros(k) + s == Zeros(k);
    }
  }

  lemma {:induction false} ZerosAreZero(k: int)
    ensures AllDigits(Zeros(k)) && DecimalValue(Zeros(k)) == 0
    decreases k
  {
    if k > 0 {
      ZerosAreZero(k - 1);
      ZerosEnd(k);
      assert Zeros(k)[..|Zeros(k)| - 1] == Zeros(k - 1);
    }
  }

  lemma {:induction false} ZerosEnd(k: int)
    requires k > 0
    ensures Zeros(k) == Zeros(k - 1) + [48]
    decreases k
  {
    if k > 1 { ZerosEnd(k - 1); }
  }

  // ---- rows ----

  /** `Value::get` on a row: none for a missing member or a row that is no object. */
  function Field(row: Json, name: seq<byte>): Option<Json> {
    if row.JObject? then Member(row.members, name) else None
  }

  function Member(members: seq<Pair<Json>>, name: seq<byte>): Option<Json> {
    if members == [] then None
    else if members[0].key == name then Some(members[0].value)
    else Member(members[1..], name)
  }

  const SAMPLE_ID: seq<byte> := [115, 97, 109, 112, 108, 101, 95, 105, 100]
  const ID: seq<byte> := [105, 100]
  const SAMPLE_DASH: seq<byte> := [115, 97, 109, 112, 108, 101, 45]

  /** The row's own text id: `sample_id` if there is such a member, else `id`; only a
      string counts. */
  function OwnId(row: Json): Option<seq<byte>> {
    var field := if Field(row, SAMPLE_ID).Some? then Field(row, SAMPLE_ID) else Field(row, ID);
    if field.Some? && field.value.JString? then Some(field.value.s) else None
  }

  /** `sample_id_text`: the row's own, or one made from its position. */
  function IdText(index: nat, row: Json): seq<byte> {
    match OwnId(row)
    case Some(text) => text
    case None => SAMPLE_DASH + Padded(index)
  }

  /** `Value::as_u64` */
  function AsU64(v: Json): Option<nat> {
    if v.JNumber? && v.text != [] && AllDigits(v.text) && DecimalValue(v.text) <= U64_MAX
    then Some(DecimalValue(v.text))
    else None
  }

  function NumberOf(row: Json): Option<nat> {
    match Field(row, SAMPLE_ID)
    case Some(v) => AsU64(v)
    case None => None
  }

  /** The first eight digest bytes as a little-endian integer. */
  function DigestWord(digest: seq<byte>): nat
    requires |digest| >= 8
  {
    LeNat(digest[..8])
  }

  /** `sample_id_u64` */
  function SampleId(text: seq<byte>, row: Json, sha: seq<byte> -> seq<byte>): nat
    requires |sha(text)| >= 8
  {
    match NumberOf(row)
    case Some(n) => Max(n, 1)
    case None => Max(DigestWord(sha(text)), 1)
  }

  /** What is hashed for the split: the row's canonical text for an id that looks
      generated, the id itself otherwise. */
  function SplitKey(text: seq<byte>, row: Json): seq<byte> {
    if SAMPLE_DASH <= text then CanonicalText(row) else text
  }

  const TRAIN_PPM: nat := 980000
  const VALIDATION_PPM: nat := 10000

  /** `deterministic_split`: train 1, validation 2, test 3. */
  function Split(text: seq<byte>, row: Json, sha: seq<byte> -> seq<byte>): nat
    requires |sha(SplitKey(text, row))| >= 8
  {
    var bucket := DigestWord(sha(SplitKey(text, row))) % 1000000;
    if bucket < TRAIN_PPM then 1 else if bucket < TRAIN_PPM + VALIDATION_PPM then 2 else 3
  }

  /** Rows without an own id have equal split keys exactly when they are equal up to
      member order, wherever they stand in the input. */
  lemma SplitKeyIdentifies(i: nat, j: nat, a: Json, b: Json)
    requires Proper(a) && Proper(b) && OwnId(a).None? && OwnId(b).None?
    ensures SplitKey(IdText(i, a), a) == SplitKey(IdText(j, b), b) <==> Same(a, b)
  {
    hide Same, CanonicalText, Proper, OwnId;
    CanonicalTextIdentifies(a, b);
    assert SAMPLE_DASH <= SAMPLE_DASH + Padded(i) && SAMPLE_DASH <= SAMPLE_DASH + Padded(j);
  }

  /** So a row keeps its split when its members are reordered or rows are inserted
      before it, and a row with an own id keeps it whatever else it holds. */
  lemma SplitIsStable(i: nat, j: nat, a: Json, b: Json, sha: seq<byte> -> seq<byte>)
    requires Proper(a) && Proper(b) && (forall x: seq<byte> :: |sha(x)| >= 8)
    requires OwnId(a) == OwnId(b)
    requires if OwnId(a).None? || SAMPLE_DASH <= OwnId(a).value then Same(a, b) else true
    ensures Split(IdText(i, a), a, sha) == Split(IdText(j, b), b, sha)
  {
    hide Same, CanonicalText, Proper, OwnId;
    CanonicalTextIdentifies(a, b);
    assert SAMPLE_DASH <= SAMPLE_DASH + Padded(i) && SAMPLE_DASH <= SAMPLE_DASH + Padded(j);
  }

  /** Made-up ids of different positions differ. */
  lemma GeneratedIdsDiffer(i: nat, j: nat, a: Json, b: Json)
    requires OwnId(a).None? && OwnId(b).None?
    ensures IdText(i, a) == IdText(j, b) <==> i == j
  {
    hide OwnId, Zeros, Decimal;
    if IdText(i, a) == IdText(j, b) {
      assert Padded(i) == IdText(i, a)[7..] && Padded(j) == IdText(j, b)[7..];
      DecimalBack(i);
      DecimalBack(j);
      ZerosAddNothing(12 - |Decimal(i)|, Decimal(i));
      ZerosAddNothing(12 - |Decimal(j)|, Decimal(j));
    }
  }

  // ---- the duplicate check ----

  ghost predicate TextsDistinct(rows: seq<Json>) {
    forall i, j :: 0 <= i < j < |rows| ==> IdText(i, rows[i]) != IdText(j, rows[j])
  }

  /** The import stops at the first text id seen before. */
  method ImportIds(rows: seq<Json>) returns (r: Result<seq<seq<byte>>>)
    ensures r.Ok? <==> TextsDistinct(rows)
    ensures r.Ok? ==> |r.value| == |rows| && forall i :: 0 <= i < |rows| ==> r.value[i] == IdText(i, rows[i])
  {
    hide IdText;
    var texts: seq<seq<byte>>, seen: set<seq<byte>> := [], {};
    for i := 0 to |rows|
      invariant |texts| == i && forall j :: 0 <= j < i ==> texts[j] == IdText(j, rows[j])
      invariant forall t :: t in seen <==> t in texts
      invariant TextsDistinct(rows[..i])
    {
      var text := IdText(i, rows[i]);
      if text in seen {
        ghost var j :| 0 <= j < i && texts[j] == text;
        assert !TextsDistinct(rows);
        return Err(BadSchema);
      }
      seen := seen + {text};
      texts := texts + [text];
    }
    assert rows[..|rows|] == rows;
    return Ok(texts);
  }

  /** The check looks at text ids only: rows numbered by `sample_id` always pass it,
      and two of them share a sample id exactly when their numbers do (0 counts as 1). */
  lemma NumberedRowsPass(rows: seq<Json>)
    requires forall i :: 0 <= i < |rows| ==> NumberOf(rows[i]).Some?
    ensures TextsDistinct(rows)
    ensures forall i, j, sha: seq<byte> -> seq<byte> ::
              0 <= i < |rows| && 0 <= j < |rows| && |sha(IdText(i, rows[i]))| >= 8 && |sha(IdText(j, rows[j]))| >= 8 ==>
                (SampleId(IdText(i, rows[i]), rows[i], sha) == SampleId(IdText(j, rows[j]), rows[j], sha)
                 <==> Max(NumberOf(rows[i]).value, 1) == Max(NumberOf(rows[j]).value, 1))
  {
    forall i, j | 0 <= i < j < |rows| ensures IdText(i, rows[i]) != IdText(j, rows[j]) {
      assert NumberOf(rows[i]).Some? && NumberOf(rows[j]).Some?;
      hide IdText, Member;
      GeneratedIdsDiffer(i, j, rows[i], rows[j]);
    }
  }
}
