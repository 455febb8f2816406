/** The page-local layout payloads of nested columns, byte by byte. */
module Layouts {
  import opened Machine
  import opened Bits
  import opened LittleEndian
  import opened Scalars

  /** `x as u32`, which truncates. */
  function AsU32(x: nat): u32 {
    x % 0x1_0000_0000
  }

  function U32s(xs: seq<u32>): (s: seq<byte>)
    ensures |s| == 4 * |xs|
  {
    if xs == [] then [] else LeBytes(xs[0], 4) + U32s(xs[1..])
  }

  function ReadU32s(bytes: seq<byte>, n: nat): (r: Result<(seq<u32>, seq<byte>)>)
    ensures r.Ok? ==> |r.value.0| == n
    ensures r.Ok? <==> 4 * n <= |bytes|
    ensures r.Ok? ==> |r.value.1| == |bytes| - 4 * n
    decreases n
  {
    if n == 0 then Ok(([], bytes))
    else if |bytes| < 4 then Err(BufferTooShort)
    else
      match ReadU32s(bytes[4..], n - 1)
      case Err(e) => Err(e)
      case Ok((xs, rest)) =>
        U32Range(bytes[..4]);
        Ok(([LeNat(bytes[..4])] + xs, rest))
  }

  lemma {:induction false} U32sRoundTrip(xs: seq<u32>, rest: seq<byte>)
    ensures ReadU32s(U32s(xs) + rest, |xs|) == Ok((xs, rest))
    decreases |xs|
  {
    var bytes := U32s(xs) + rest;
    if xs == [] {
      assert bytes == rest;
    } else {
      U32RoundTrip(xs[0]);
      U32sRoundTrip(xs[1..], rest);
      assert U32s(xs) == LeBytes(xs[0], 4) + U32s(xs[1..]);
      hide LeBytes, LeNat, U32s;
      assert bytes[..4] == LeBytes(xs[0], 4);
      assert bytes[4..] == U32s(xs[1..]) + rest;
      assert [xs[0]] + xs[1..] == xs;
    }
  }

  /** A u32 field at the front of a buffer. */
  function ReadU32(bytes: seq<byte>): Result<(u32, seq<byte>)> {
    if |bytes| < 4 then Err(BufferTooShort)
    else
      U32Range(bytes[..4]);
      Ok((LeNat(bytes[..4]), bytes[4..]))
  }

  lemma U32FieldRoundTrip(x: u32, rest: seq<byte>)
    ensures ReadU32(LeBytes(x, 4) + rest) == Ok((x, rest))
  {
    U32RoundTrip(x);
    var bytes := LeBytes(x, 4) + rest;
    assert bytes[..4] == LeBytes(x, 4) && bytes[4..] == rest;
  }

  /** List offsets: from zero, never decreasing, ending at the child row count
      (`ListLayout::validate_child_count`). */
  predicate ValidOffsets(offsets: seq<u32>, childRows: nat) {
    && |offsets| > 0 && offsets[0] == 0 && offsets[|offsets| - 1] == childRows
    && forall i :: 0 <= i && i + 1 < |offsets| ==> offsets[i] <= offsets[i + 1]
  }

  lemma {:induction false} ValidOffsetsMonotone(offsets: seq<u32>, childRows: nat, i: nat, j: nat)
    requires ValidOffsets(offsets, childRows) && i <= j < |offsets|
    ensures offsets[i] <= offsets[j] <= childRows
    decreases |offsets| - i
  {
    if i < j {
      ValidOffsetsMonotone(offsets, childRows, i + 1, j);
    } else if j + 1 < |offsets| {
      ValidOffsetsMonotone(offsets, childRows, j + 1, |offsets| - 1);
    }
  }

  datatype ListLayout = ListLayout(offsets: seq<u32>, childRows: u32)

  /** `ListLayoutPayload::encode` */
  function EncodeList(l: ListLayout): seq<byte> {
    LeBytes(l.childRows, 4) + (LeBytes(AsU32(|l.offsets|), 4) + U32s(l.offsets))
  }

  /** `ListLayoutPayload::parse` */
  function ParseList(bytes: seq<byte>): Result<ListLayout> {
    match ReadU32(bytes)
    case Err(e) => Err(e)
    case Ok((childRows, rest)) =>
      match ReadU32(rest)
      case Err(e) => Err(e)
      case Ok((count, body)) =>
        match ReadU32s(body, count)
        case Err(e) => Err(e)
        case Ok((offsets, tail)) =>
          if tail != [] then Err(PageCorrupt) else Ok(ListLayout(offsets, childRows))
  }

  /** A list layout survives writing and reading exactly when its offset count
      fits the u32 field it is cast to. */
  lemma ListRoundTrip(l: ListLayout)
    ensures |l.offsets| <= U32_MAX ==> ParseList(EncodeList(l)) == Ok(l)
    ensures |l.offsets| > U32_MAX ==> ParseList(EncodeList(l)).Err?
  {
    var count := AsU32(|l.offsets|);
    U32FieldRoundTrip(l.childRows, LeBytes(count, 4) + U32s(l.offsets));
    U32FieldRoundTrip(count, U32s(l.offsets));
    if |l.offsets| <= U32_MAX {
      U32sRoundTrip(l.offsets, []);
      assert U32s(l.offsets) + [] == U32s(l.offsets);
    }
  }

  datatype StructLayout = StructLayout(fieldRows: seq<u64>, declared: bool)

  function U64s(xs: seq<u64>): (s: seq<byte>)
    ensures |s| == 8 * |xs|
  {
    if xs == [] then [] else LeBytes(xs[0], 8) + U64s(xs[1..])
  }

  function ReadU64s(bytes: seq<byte>, n: nat): (r: Result<seq<u64>>)
    ensures r.Ok? ==> |r.value| == n
    decreases n
  {
    if n == 0 then if bytes == [] then Ok([]) else Err(PageCorrupt)
    else if |bytes| < 8 then Err(BufferTooShort)
    else
      match ReadU64s(bytes[8..], n - 1)
      case Err(e) => Err(e)
      case Ok(xs) =>
        Widths();
        LeBytesOfNat(bytes[..8]);
        Ok([LeNat(bytes[..8])] + xs)
  }

  lemma {:induction false} U64sRoundTrip(xs: seq<u64>)
    ensures ReadU64s(U64s(xs), |xs|) == Ok(xs)
    decreases |xs|
  {
    if xs != [] {
      U64RoundTrip(xs[0]);
      var bytes := U64s(xs);
      assert bytes[..8] == LeBytes(xs[0], 8) && bytes[8..] == U64s(xs[1..]);
      U64sRoundTrip(xs[1..]);
      assert [xs[0]] + xs[1..] == xs;
    }
  }

  /** `StructLayoutPayload::encode` */
  function EncodeStruct(l: StructLayout): seq<byte> {
    [if l.declared then 1 else 0, 0, 0, 0] + (LeBytes(AsU32(|l.fieldRows|), 4) + U64s(l.fieldRows))
  }

  /** `StructLayoutPayload::parse` */
  function ParseStruct(bytes: seq<byte>): Result<StructLayout> {
    if |bytes| < 8 then Err(BufferTooShort)
    else if bytes[1..4] != [0, 0, 0] || bytes[0] > 1 then Err(PageCorrupt)
    else
      match ReadU32(bytes[4..])
      case Err(e) => Err(e)
      case Ok((count, body)) =>
        match ReadU64s(body, count)
        case Err(e) => Err(e)
        case Ok(fieldRows) => Ok(StructLayout(fieldRows, bytes[0] == 1))
  }

  lemma StructRoundTrip(l: StructLayout)
    requires |l.fieldRows| <= U32_MAX
    ensures ParseStruct(EncodeStruct(l)) == Ok(l)
  {
    hide LeBytes, LeNat, U64s, ReadU64s, ReadU32;
    var bytes := EncodeStruct(l);
    assert bytes[1..4] == [0, 0, 0];
    assert bytes[4..] == LeBytes(AsU32(|l.fieldRows|), 4) + U64s(l.fieldRows);
    U32FieldRoundTrip(AsU32(|l.fieldRows|), U64s(l.fieldRows));
    U64sRoundTrip(l.fieldRows);
  }

  /** `StructLayout::validate_parent_row_count` */
  predicate ValidStruct(l: StructLayout, parentRows: nat) {
    l.declared && |l.fieldRows| > 0 && forall i :: 0 <= i < |l.fieldRows| ==> l.fieldRows[i] == parentRows
  }

  datatype MapLayout = MapLayout(offsets: seq<u32>, keyRows: u32, valueRows: u32, scalarKeys: bool,
                                 allowDuplicates: bool, canonical: seq<seq<byte>>)

  function KeyBytes(keys: seq<seq<byte>>): seq<byte> {
    if keys == [] then [] else LeBytes(AsU32(|keys[0]|), 4) + (keys[0] + KeyBytes(keys[1..]))
  }

  function ReadKeys(bytes: seq<byte>, n: nat): (r: Result<seq<seq<byte>>>)
    ensures r.Ok? ==> |r.value| == n
    decreases n
  {
    if n == 0 then if bytes == [] then Ok([]) else Err(PageCorrupt)
    else
      match ReadU32(bytes)
      case Err(e) => Err(e)
      case Ok((len, rest)) =>
        if len > |rest| then Err(OffsetRange)
        else
          match ReadKeys(rest[len..], n - 1)
          case Err(e) => Err(e)
          case Ok(keys) => Ok([rest[..len]] + keys)
  }

  ghost predicate KeysShort(keys: seq<seq<byte>>) {
    forall i :: 0 <= i < |keys| ==> |keys[i]| <= U32_MAX
  }

  lemma ReadKeysStep(bytes: seq<byte>, key: seq<byte>, more: seq<byte>, keys: seq<seq<byte>>)
    requires ReadU32(bytes) == Ok((|key|, key + more))
    requires ReadKeys(more, |keys|) == Ok(keys)
    ensures ReadKeys(bytes, |keys| + 1) == Ok([key] + keys)
  {
    hide LeNat, ReadU32;
    var rest := key + more;
    assert rest[..|key|] == key && rest[|key|..] == more;
  }

  lemma {:induction false} KeysRoundTrip(keys: seq<seq<byte>>)
    requires KeysShort(keys)
    ensures ReadKeys(KeyBytes(keys), |keys|) == Ok(keys)
    decreases |keys|
  {
    if keys == [] {
      assert KeyBytes(keys) == [];
    } else {
      FirstKey(keys);
      hide *;
      U32FieldRoundTrip(|keys[0]|, keys[0] + KeyBytes(keys[1..]));
      KeysRoundTrip(keys[1..]);
      ReadKeysStep(KeyBytes(keys), keys[0], KeyBytes(keys[1..]), keys[1..]);
    }
  }

  lemma FirstKey(keys: seq<seq<byte>>)
    requires KeysShort(keys) && keys != []
    ensures |keys[0]| <= 0xFFFF_FFFF && KeysShort(keys[1..]) && [keys[0]] + keys[1..] == keys
    ensures KeyBytes(keys) == LeBytes(|keys[0]|, 4) + (keys[0] + KeyBytes(keys[1..]))
  {
    assert KeyBytes(keys) == LeBytes(AsU32(|keys[0]|), 4) + (keys[0] + KeyBytes(keys[1..])) by { hide AsU32, LeBytes; }
    hide KeyBytes, LeBytes;
    AsU32Small(|keys[0]|);
  }

  lemma AsU32Small(x: nat)
    requires x <= U32_MAX
    ensures AsU32(x) == x
  {
  }

  function Flag(b: bool): byte {
    if b then 1 else 0
  }

  /** `MapLayoutPayload::encode` */
  function EncodeMap(l: MapLayout): seq<byte> {
    LeBytes(AsU32(|l.offsets|), 4) + (LeBytes(l.keyRows, 4) + (LeBytes(l.valueRows, 4)
      + ([Flag(l.scalarKeys), Flag(l.allowDuplicates), 0, 0] + (U32s(l.offsets) + KeyBytes(l.canonical)))))
  }

  /** `MapLayoutPayload::parse` */
  function ParseMap(bytes: seq<byte>): Result<MapLayout> {
    match ReadU32(bytes)
    case Err(e) => Err(e)
    case Ok((count, b1)) =>
      match ReadU32(b1)
      case Err(e) => Err(e)
      case Ok((keyRows, b2)) =>
        match ReadU32(b2)
        case Err(e) => Err(e)
        case Ok((valueRows, b3)) =>
          if |b3| < 4 then Err(BufferTooShort)
          else if b3[0] > 1 || b3[1] > 1 || b3[2..4] != [0, 0] then Err(PageCorrupt)
          else
            match ReadU32s(b3[4..], count)
            case Err(e) => Err(e)
            case Ok((offsets, b4)) =>
              match ReadKeys(b4, keyRows)
              case Err(e) => Err(e)
              case Ok(keys) => Ok(MapLayout(offsets, keyRows, valueRows, b3[0] == 1, b3[1] == 1, keys))
  }

  lemma {:induction false} ReadKeysShort(bytes: seq<byte>, n: nat)
    ensures ReadKeys(bytes, n).Ok? ==> KeysShort(ReadKeys(bytes, n).value)
    decreases n
  {
    if n > 0 && ReadKeys(bytes, n).Ok? {
      hide LeNat;
      var len, rest := ReadU32(bytes).value.0, ReadU32(bytes).value.1;
      ReadKeysShort(rest[len..], n - 1);
    }
  }

  /** Whatever parses has a count and key lengths that fit their fields. */
  lemma ParsedMapFits(bytes: seq<byte>)
    ensures var r := ParseMap(bytes);
            r.Ok? ==>
              && |r.value.offsets| <= U32_MAX && |r.value.canonical| == r.value.keyRows
              && KeysShort(r.value.canonical)
  {
    hide LeNat, ReadU32s, ReadKeys, KeysShort;
    if ParseMap(bytes).Ok? {
      var b3 := ReadU32(ReadU32(ReadU32(bytes).value.1).value.1).value.1;
      var b4 := ReadU32s(b3[4..], ReadU32(bytes).value.0).value.1;
      ReadKeysShort(b4, ParseMap(bytes).value.keyRows);
    }
  }

  /** A map layout reads back exactly when its counts and its key lengths fit their fields. */
  lemma MapRoundTrip(l: MapLayout)
    ensures ParseMap(EncodeMap(l)) == Ok(l)
            <==> |l.offsets| <= U32_MAX && |l.canonical| == l.keyRows && KeysShort(l.canonical)
  {
    hide EncodeMap, ParseMap, KeysShort;
    ParsedMapFits(EncodeMap(l));
    if |l.offsets| <= U32_MAX && |l.canonical| == l.keyRows && KeysShort(l.canonical) { MapReadsBack(l); }
  }

  lemma MapReadsBack(l: MapLayout)
    requires |l.offsets| <= U32_MAX && |l.canonical| == l.keyRows && KeysShort(l.canonical)
    ensures ParseMap(EncodeMap(l)) == Ok(l)
  {
    hide LeBytes, LeNat, U32s, ReadU32s, KeyBytes, ReadKeys, ReadU32, KeysShort;
    var body := U32s(l.offsets) + KeyBytes(l.canonical);
    var flags := [Flag(l.scalarKeys), Flag(l.allowDuplicates), 0, 0] + body;
    U32FieldRoundTrip(|l.offsets|, LeBytes(l.keyRows, 4) + (LeBytes(l.valueRows, 4) + flags));
    U32FieldRoundTrip(l.keyRows, LeBytes(l.valueRows, 4) + flags);
    U32FieldRoundTrip(l.valueRows, flags);
    assert flags[2..4] == [0, 0] && flags[4..] == body;
    U32sRoundTrip(l.offsets, KeyBytes(l.canonical));
    KeysRoundTrip(l.canonical);
  }

  predicate NoDuplicates(keys: seq<seq<byte>>) {
    forall i, j :: 0 <= i < j < |keys| ==> keys[i] != keys[j]
  }

  predicate RowKeysDistinct(offsets: seq<u32>, canonical: seq<seq<byte>>, i: nat)
    requires i + 1 < |offsets|
  {
    offsets[i] <= offsets[i + 1] <= |canonical| && NoDuplicates(canonical[offsets[i]..offsets[i + 1]])
  }

  /** `MapLayout::validate`: within one map value no key may repeat. */
  predicate ValidMap(l: MapLayout) {
    && l.scalarKeys && ValidOffsets(l.offsets, l.keyRows) && l.keyRows == l.valueRows
    && |l.canonical| == l.keyRows
    && (l.allowDuplicates || forall i :: 0 <= i < |l.offsets| - 1 ==> RowKeysDistinct(l.offsets, l.canonical, i))
  }
}
