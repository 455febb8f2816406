/** Canonical JSON text: objects by sorted key, no whitespace. Reading it back gives
    the value in normal form, so equal text means equal values up to member order. */
module CanonicalJson {
  import opened Machine
  import opened RowOrder

  datatype Pair<T> = Pair(key: seq<byte>, value: T)

  /** `serde_json::Value`; strings are UTF-8 bytes, numbers their printed text. */
  datatype Json =
    | JNull
    | JBool(b: bool)
    | JNumber(text: seq<byte>)
    | JString(s: seq<byte>)
    | JArray(items: seq<Json>)
    | JObject(members: seq<Pair<Json>>)

  // ---- sorted maps ----

  function Before(a: seq<byte>, b: seq<byte>): bool {
    CompareBytes(a, b) == Less
  }

  /** `BTreeMap::insert`: in key order, replacing an equal key. */
  function Insert<T>(sorted: seq<Pair<T>>, p: Pair<T>): seq<Pair<T>> {
    if sorted == [] || Before(p.key, sorted[0].key) then [p] + sorted
    else if p.key == sorted[0].key then [p] + sorted[1..]
    else [sorted[0]] + Insert(sorted[1..], p)
  }

  function SortPairs<T>(ps: seq<Pair<T>>): seq<Pair<T>> {
    if ps == [] then [] else Insert(SortPairs(ps[..|ps| - 1]), ps[|ps| - 1])
  }

  ghost predicate KeysAscend<T>(ps: seq<Pair<T>>) {
    forall i, j :: 0 <= i < j < |ps| ==> Before(ps[i].key, ps[j].key)
  }

  ghost predicate KeysDistinct<T>(ps: seq<Pair<T>>) {
    forall i, j :: 0 <= i < j < |ps| ==> ps[i].key != ps[j].key
  }

  lemma BeforeTrans(a: seq<byte>, b: seq<byte>, c: seq<byte>)
    ensures Before(a, b) && Before(b, c) ==> Before(a, c)
    ensures a == b || Before(a, b) || Before(b, a)
    ensures !(Before(a, b) && Before(b, a)) && !Before(a, a)
  {
    BytesCompose(a, b, c);
    BytesFlip(a, b);
    BytesFlip(a, a);
  }

  lemma {:induction false} InsertSorts<T(!new)>(sorted: seq<Pair<T>>, p: Pair<T>)
    requires KeysAscend(sorted) && forall i :: 0 <= i < |sorted| ==> sorted[i].key != p.key
    ensures KeysAscend(Insert(sorted, p)) && |Insert(sorted, p)| == |sorted| + 1
    ensures forall q :: q in Insert(sorted, p) <==> q == p || q in sorted
    decreases |sorted|
  {
    hide CompareBytes;
    if sorted == [] {
    } else if Before(p.key, sorted[0].key) {
      forall i | 0 <= i < |sorted| ensures Before(p.key, sorted[i].key) {
        BeforeTrans(p.key, sorted[0].key, sorted[i].key);
      }
    } else {
      BeforeTrans(sorted[0].key, p.key, p.key);
      InsertSorts(sorted[1..], p);
      var tail := Insert(sorted[1..], p);
      forall i | 0 <= i < |tail| ensures Before(sorted[0].key, tail[i].key) {
        assert tail[i] in tail;
        if tail[i] != p {
          var j :| 0 <= j < |sorted[1..]| && sorted[1..][j] == tail[i];
          assert sorted[j + 1] == tail[i];
        }
      }
      assert forall q :: q in sorted <==> q == sorted[0] || q in sorted[1..];
    }
  }

  /** Sorting keeps the members and puts the keys in strict order. */
  lemma {:induction false} SortSorts<T(!new)>(ps: seq<Pair<T>>)
    requires KeysDistinct(ps)
    ensures KeysAscend(SortPairs(ps)) && |SortPairs(ps)| == |ps|
    ensures forall q :: q in SortPairs(ps) <==> q in ps
    decreases |ps|
  {
    if ps != [] {
      var front, last := ps[..|ps| - 1], ps[|ps| - 1];
      SortSorts(front);
      var sorted := SortPairs(front);
      forall i | 0 <= i < |sorted| ensures sorted[i].key != last.key {
        assert sorted[i] in front;
      }
      InsertSorts(sorted, last);
      assert forall q :: q in ps <==> q == last || q in front;
    }
  }

  /** Key-ordered lists with the same members are the same list. */
  lemma {:induction false} AscendingSame<T(!new)>(a: seq<Pair<T>>, b: seq<Pair<T>>)
    requires KeysAscend(a) && KeysAscend(b) && forall q :: q in a <==> q in b
    ensures a == b
    decreases |a|
  {
    hide CompareBytes;
    assert |b| > 0 ==> b[0] in b;
    if a != [] {
      assert a[0] in b && b != [];
      assert b[0] in a;
      BeforeTrans(a[0].key, b[0].key, b[0].key);
      assert a[0] == b[0];
      forall q ensures q in a[1..] <==> q in b[1..] {
        BeforeTrans(a[0].key, a[0].key, a[0].key);
        assert q in a[1..] <==> q in a && q != a[0];
        assert q in b[1..] <==> q in b && q != b[0];
      }
      AscendingSame(a[1..], b[1..]);
      assert a == [a[0]] + a[1..] && b == [b[0]] + b[1..];
    }
  }

  function MapPairs<A, B>(ps: seq<Pair<A>>, f: A -> B): (r: seq<Pair<B>>)
    ensures |r| == |ps| && forall i :: 0 <= i < |ps| ==> r[i] == Pair(ps[i].key, f(ps[i].value))
  {
    seq(|ps|, i requires 0 <= i < |ps| => Pair(ps[i].key, f(ps[i].value)))
  }

  lemma {:induction false} InsertMaps<A, B>(sorted: seq<Pair<A>>, p: Pair<A>, f: A -> B)
    ensures Insert(MapPairs(sorted, f), Pair(p.key, f(p.value))) == MapPairs(Insert(sorted, p), f)
    decreases |sorted|
  {
    var q := Pair(p.key, f(p.value));
    if sorted == [] || Before(p.key, sorted[0].key) {
      assert MapPairs([p] + sorted, f) == [q] + MapPairs(sorted, f);
    } else {
      assert MapPairs(sorted, f)[1..] == MapPairs(sorted[1..], f);
      if p.key == sorted[0].key {
        assert MapPairs([p] + sorted[1..], f) == [q] + MapPairs(sorted[1..], f);
      } else {
        InsertMaps(sorted[1..], p, f);
        var more := Insert(sorted[1..], p);
        assert MapPairs([sorted[0]] + more, f) == [MapPairs(sorted, f)[0]] + MapPairs(more, f);
      }
    }
  }

  /** Sorting by key does not look at the values. */
  lemma {:induction false} SortMaps<A, B>(ps: seq<Pair<A>>, f: A -> B)
    ensures SortPairs(MapPairs(ps, f)) == MapPairs(SortPairs(ps), f)
    decreases |ps|
  {
    if ps == [] {
      assert MapPairs(ps, f) == [];
      assert SortPairs(ps) == [] && MapPairs<A, B>([], f) == [];
    } else {
      var front, last := ps[..|ps| - 1], ps[|ps| - 1];
      SortMaps(front, f);
      assert MapPairs(ps, f)[..|ps| - 1] == MapPairs(front, f);
      InsertMaps(SortPairs(front), last, f);
    }
  }

  // ---- printing ----

  function HexDigit(n: nat): byte
    requires n < 16
  {
    if n < 10 then 48 + n else 87 + n
  }

  function EscapeByte(b: byte): seq<byte> {
    if b == 34 then [92, 34]
    else if b == 92 then [92, 92]
    else if b == 8 then [92, 98]
    else if b == 9 then [92, 116]
    else if b == 10 then [92, 110]
    else if b == 12 then [92, 102]
    else if b == 13 then [92, 114]
    else if b < 32 then [92, 117, 48, 48, HexDigit(b / 16), HexDigit(b % 16)]
    else [b]
  }

  function Escape(s: seq<byte>): seq<byte> {
    if s == [] then [34] else EscapeByte(s[0]) + Escape(s[1..])
  }

  /** A string between quotes; the closing one ends the escape. */
  function Quote(s: seq<byte>): seq<byte> {
    [34] + Escape(s)
  }

  const NULL_TEXT: seq<byte> := [110, 117, 108, 108]
  const TRUE_TEXT: seq<byte> := [116, 114, 117, 101]
  const FALSE_TEXT: seq<byte> := [102, 97, 108, 115, 101]

  /** Items separated by commas, up to the closing bracket. */
  function JoinItems(texts: seq<seq<byte>>): seq<byte> {
    if texts == [] then [93]
    else texts[0] + (if |texts| == 1 then [93] else [44] + JoinItems(texts[1..]))
  }

  function JoinMembers(texts: seq<Pair<seq<byte>>>): seq<byte> {
    if texts == [] then [125]
    else
      Quote(texts[0].key) + ([58] + (texts[0].value + (if |texts| == 1 then [125] else [44] + JoinMembers(texts[1..]))))
  }

  /** `canonical_json`: children first, then object members through a sorted map. */
  function CanonicalText(v: Json): seq<byte> {
    match v
    case JNull => NULL_TEXT
    case JBool(b) => if b then TRUE_TEXT else FALSE_TEXT
    case JNumber(text) => text
    case JString(s) => Quote(s)
    case JArray(items) => [91] + JoinItems(CanonicalItems(items))
    case JObject(members) => [123] + JoinMembers(SortPairs(CanonicalMembers(members)))
  }

  function CanonicalItems(items: seq<Json>): (r: seq<seq<byte>>)
    ensures |r| == |items|
  {
    seq(|items|, i requires 0 <= i < |items| => CanonicalText(items[i]))
  }

  function CanonicalMembers(members: seq<Pair<Json>>): (r: seq<Pair<seq<byte>>>)
    ensures |r| == |members|
  {
    seq(|members|, i requires 0 <= i < |members| => Pair(members[i].key, CanonicalText(members[i].value)))
  }

  predicate NumberByte(b: byte) {
    48 <= b < 58 || b == 43 || b == 45 || b == 46 || b == 69 || b == 101
  }

  /** Numbers print as a non-empty run of number characters; keys are distinct. */
  ghost predicate Proper(v: Json) {
    match v
    case JNumber(text) => text != [] && forall i :: 0 <= i < |text| ==> NumberByte(text[i])
    case JArray(items) => forall i :: 0 <= i < |items| ==> Proper(items[i])
    case JObject(members) => KeysDistinct(members) && forall i :: 0 <= i < |members| ==> Proper(members[i].value)
    case _ => true
  }

  /** Every object's members in key order. */
  function Normal(v: Json): Json {
    match v
    case JArray(items) => JArray(NormalItems(items))
    case JObject(members) => JObject(SortPairs(NormalMembers(members)))
    case _ => v
  }

  function NormalItems(items: seq<Json>): (r: seq<Json>)
    ensures |r| == |items|
  {
    seq(|items|, i requires 0 <= i < |items| => Normal(items[i]))
  }

  function NormalMembers(members: seq<Pair<Json>>): (r: seq<Pair<Json>>)
    ensures |r| == |members|
  {
    seq(|members|, i requires 0 <= i < |members| => Pair(members[i].key, Normal(members[i].value)))
  }

  /** Plain printing, members as they come. */
  function Print(v: Json): seq<byte> {
    match v
    case JNull => NULL_TEXT
    case JBool(b) => if b then TRUE_TEXT else FALSE_TEXT
    case JNumber(text) => text
    case JString(s) => Quote(s)
    case JArray(items) => [91] + JoinItems(PrintItems(items))
    case JObject(members) => [123] + JoinMembers(PrintMembers(members))
  }

  function PrintItems(items: seq<Json>): (r: seq<seq<byte>>)
    ensures |r| == |items|
  {
    seq(|items|, i requires 0 <= i < |items| => Print(items[i]))
  }

  function PrintMembers(members: seq<Pair<Json>>): (r: seq<Pair<seq<byte>>>)
    ensures |r| == |members|
  {
    seq(|members|, i requires 0 <= i < |members| => Pair(members[i].key, Print(members[i].value)))
  }

  /** Canonical text is the plain text of the normal form. */
  lemma {:induction false} CanonicalIsNormalText(v: Json)
    ensures CanonicalText(v) == Print(Normal(v))
    decreases v
  {
    match v
    case JArray(items) =>
      forall i | 0 <= i < |items| ensures CanonicalText(items[i]) == Print(Normal(items[i])) {
        CanonicalIsNormalText(items[i]);
      }
      assert CanonicalItems(items) == PrintItems(NormalItems(items));
    case JObject(members) =>
      forall i | 0 <= i < |members| ensures CanonicalText(members[i].value) == Print(Normal(members[i].value)) {
        CanonicalIsNormalText(members[i].value);
      }
      MembersNormalText(members);
    case _ =>
  }

  lemma MembersNormalText(members: seq<Pair<Json>>)
    requires forall i :: 0 <= i < |members| ==> CanonicalText(members[i].value) == Print(Normal(members[i].value))
    ensures CanonicalText(JObject(members)) == Print(Normal(JObject(members)))
  {
    var normals := MapPairs(members, (x: Json) => Normal(x));
    var printer := (x: Json) => Print(x);
    assert normals == NormalMembers(members);
    assert MapPairs(normals, printer)
           == CanonicalMembers(members);
    SortMaps(normals, printer);
    var sorted := SortPairs(normals);
    assert MapPairs(sorted, printer)
           == PrintMembers(sorted);
  }

  // ---- reading ----

  function HexValue(b: byte): Option<nat> {
    if 48 <= b < 58 then Some(b - 48)
    else if 97 <= b < 103 then Some(b - 87)
    else if 65 <= b < 71 then Some(b - 55)
    else None
  }

  /** One character of a string, escaped or not. `\u` escapes are read up to U+007F;
      the printer writes no others. */
  function ReadChar(bytes: seq<byte>): (r: Option<(byte, seq<byte>)>)
    ensures r.Some? ==> |r.value.1| < |bytes|
  {
    if bytes == [] || bytes[0] < 32 || bytes[0] == 34 then None
    else if bytes[0] != 92 then Some((bytes[0], bytes[1..]))
    else if |bytes| < 2 then None
    else
      var c, rest := bytes[1], bytes[2..];
      if c == 34 || c == 92 || c == 47 then Some((c, rest))
      else if c == 98 then Some((8, rest))
      else if c == 116 then Some((9, rest))
      else if c == 110 then Some((10, rest))
      else if c == 102 then Some((12, rest))
      else if c == 114 then Some((13, rest))
      else if c == 117 && |bytes| >= 6 && bytes[2] == 48 && bytes[3] == 48
              && HexValue(bytes[4]).Some? && HexValue(bytes[5]).Some? && HexValue(bytes[4]).value < 8 then
        Some((16 * HexValue(bytes[4]).value + HexValue(bytes[5]).value, bytes[6..]))
      else None
  }

  /** The rest of a string, past its closing quote. */
  function ReadString(bytes: seq<byte>): (r: Option<(seq<byte>, seq<byte>)>)
    ensures r.Some? ==> |r.value.1| < |bytes|
    decreases |bytes|
  {
    if bytes != [] && bytes[0] == 34 then Some(([], bytes[1..]))
    else
      match ReadChar(bytes)
      case None => None
      case Some((c, rest)) =>
        match ReadString(rest)
        case None => None
        case Some((more, end)) => Some(([c] + more, end))
  }

  /** The longest run of number characters. */
  function ReadNumber(bytes: seq<byte>): (r: (seq<byte>, seq<byte>))
    ensures |r.1| <= |bytes| && (r.0 != [] ==> |r.1| < |bytes|)
  {
    if bytes == [] || !NumberByte(bytes[0]) then ([], bytes)
    else
      var more := ReadNumber(bytes[1..]);
      ([bytes[0]] + more.0, more.1)
  }

  function ReadValue(bytes: seq<byte>): (r: Option<(Json, seq<byte>)>)
    ensures r.Some? ==> |r.value.1| < |bytes|
    decreases |bytes|, 0
  {
    if bytes == [] then None
    else if NULL_TEXT <= bytes then Some((JNull, bytes[4..]))
    else if TRUE_TEXT <= bytes then Some((JBool(true), bytes[4..]))
    else if FALSE_TEXT <= bytes then Some((JBool(false), bytes[5..]))
    else if bytes[0] == 34 then
      match ReadString(bytes[1..])
      case None => None
      case Some((s, rest)) => Some((JString(s), rest))
    else if bytes[0] == 91 then
      if |bytes| > 1 && bytes[1] == 93 then Some((JArray([]), bytes[2..]))
      else
        match ReadItems(bytes[1..])
        case None => None
        case Some((items, rest)) => Some((JArray(items), rest))
    else if bytes[0] == 123 then
      if |bytes| > 1 && bytes[1] == 125 then Some((JObject([]), bytes[2..]))
      else
        match ReadMembers(bytes[1..])
        case None => None
        case Some((members, rest)) => Some((JObject(members), rest))
    else
      var (text, rest) := ReadNumber(bytes);
      if text == [] then None else Some((JNumber(text), rest))
  }

  /** One or more items, commas between them, then the closing bracket. */
  function ReadItems(bytes: seq<byte>): (r: Option<(seq<Json>, seq<byte>)>)
    ensures r.Some? ==> |r.value.1| < |bytes|
    decreases |bytes|, 1
  {
    match ReadValue(bytes)
    case None => None
    case Some((first, rest)) =>
      if rest == [] then None
      else if rest[0] == 93 then Some(([first], rest[1..]))
      else if rest[0] != 44 then None
      else
        match ReadItems(rest[1..])
        case None => None
        case Some((more, end)) => Some(([first] + more, end))
  }

  function ReadMembers(bytes: seq<byte>): (r: Option<(seq<Pair<Json>>, seq<byte>)>)
    ensures r.Some? ==> |r.value.1| < |bytes|
    decreases |bytes|, 1
  {
    if bytes == [] || bytes[0] != 34 then None
    else
      match ReadString(bytes[1..])
      case None => None
      case Some((key, rest)) =>
        if rest == [] || rest[0] != 58 then None
        else
          match ReadValue(rest[1..])
          case None => None
          case Some((value, tail)) =>
            if tail == [] then None
            else if tail[0] == 125 then Some(([Pair(key, value)], tail[1..]))
            else if tail[0] != 44 then None
            else
              match ReadMembers(tail[1..])
              case None => None
              case Some((more, end)) => Some(([Pair(key, value)] + more, end))
  }

  lemma CharRoundTrip(b: byte, rest: seq<byte>)
    ensures ReadChar(EscapeByte(b) + rest) == Some((b, rest))
    ensures (EscapeByte(b) + rest)[0] != 34
  {
    var bytes := EscapeByte(b) + rest;
    assert bytes[|EscapeByte(b)|..] == rest;
    if b < 32 {
      assert HexValue(HexDigit(b / 16)) == Some(b / 16) && HexValue(HexDigit(b % 16)) == Some(b % 16);
    }
  }

  lemma {:induction false} StringRoundTrip(s: seq<byte>, rest: seq<byte>)
    ensures ReadString(Escape(s) + rest) == Some((s, rest))
    decreases |s|
  {
    if s == [] {
      assert (Escape(s) + rest)[1..] == rest;
    } else {
      CharRoundTrip(s[0], Escape(s[1..]) + rest);
      StringRoundTrip(s[1..], rest);
      assert Escape(s) + rest == EscapeByte(s[0]) + (Escape(s[1..]) + rest);
      assert [s[0]] + s[1..] == s;
    }
  }

  lemma {:induction false} NumberRoundTrip(text: seq<byte>, rest: seq<byte>)
    requires forall i :: 0 <= i < |text| ==> NumberByte(text[i])
    requires rest == [] || !NumberByte(rest[0])
    ensures ReadNumber(text + rest) == (text, rest)
    decreases |text|
  {
    if text == [] {
      assert text + rest == rest;
    } else {
      NumberRoundTrip(text[1..], rest);
      assert (text + rest)[1..] == text[1..] + rest;
      assert [text[0]] + text[1..] == text;
    }
  }

  /** What may follow a value inside a text: nothing, or a comma or closing bracket. */
  predicate Stops(rest: seq<byte>) {
    rest == [] || rest[0] == 44 || rest[0] == 93 || rest[0] == 125
  }

  /** The first byte says which kind of value follows. */
  lemma PrintStarts(v: Json)
    requires Proper(v)
    ensures Print(v) != [] && Print(v)[0] != 93 && Print(v)[0] != 125
  {
  }

  lemma WordsRead(rest: seq<byte>)
    ensures ReadValue(NULL_TEXT + rest) == Some((JNull, rest))
    ensures ReadValue(TRUE_TEXT + rest) == Some((JBool(true), rest))
    ensures ReadValue(FALSE_TEXT + rest) == Some((JBool(false), rest))
  {
    hide ReadString, ReadItems, ReadMembers, ReadNumber;
    var n, t, f := NULL_TEXT + rest, TRUE_TEXT + rest, FALSE_TEXT + rest;
    assert NULL_TEXT <= n && n[4..] == rest;
    assert t[0] == 116 && TRUE_TEXT <= t && t[4..] == rest;
    assert f[0] == 102 && FALSE_TEXT <= f && f[5..] == rest;
    assert NULL_TEXT[0] == 110 && TRUE_TEXT[0] == 116;
  }

  /** A text that does not start with n, t or f is none of the three words. */
  lemma NoWord(bytes: seq<byte>)
    requires bytes != [] && bytes[0] != 110 && bytes[0] != 116 && bytes[0] != 102
    ensures !(NULL_TEXT <= bytes) && !(TRUE_TEXT <= bytes) && !(FALSE_TEXT <= bytes)
  {
    assert NULL_TEXT[0] == 110 && TRUE_TEXT[0] == 116 && FALSE_TEXT[0] == 102;
  }

  lemma ReadNumberValue(bytes: seq<byte>)
    requires bytes != [] && NumberByte(bytes[0])
    ensures ReadValue(bytes) == Some((JNumber(ReadNumber(bytes).0), ReadNumber(bytes).1))
  {
    hide ReadItems, ReadMembers, ReadString;
    NoWord(bytes);
  }

  lemma ReadStringValue(body: seq<byte>)
    requires ReadString(body).Some?
    ensures ReadValue([34] + body) == Some((JString(ReadString(body).value.0), ReadString(body).value.1))
  {
    hide ReadItems, ReadMembers, ReadString, ReadNumber;
    NoWord([34] + body);
    assert ([34] + body)[1..] == body;
  }

  lemma NumberValue(text: seq<byte>, rest: seq<byte>)
    requires Proper(JNumber(text)) && Stops(rest)
    ensures ReadValue(text + rest) == Some((JNumber(text), rest))
  {
    hide ReadValue, ReadNumber;
    NumberRoundTrip(text, rest);
    assert (text + rest)[0] == text[0];
    ReadNumberValue(text + rest);
  }

  lemma StringValue(s: seq<byte>, rest: seq<byte>)
    ensures ReadValue(Quote(s) + rest) == Some((JString(s), rest))
  {
    hide ReadValue, ReadString, Escape;
    StringRoundTrip(s, rest);
    ReadStringValue(Escape(s) + rest);
    assert Quote(s) + rest == [34] + (Escape(s) + rest);
  }

  lemma ReadArray(body: seq<byte>)
    requires body != []
    ensures var bytes := [91] + body;
            if body[0] == 93 then ReadValue(bytes) == Some((JArray([]), body[1..]))
            else ReadItems(body).Some? ==>
              ReadValue(bytes) == Some((JArray(ReadItems(body).value.0), ReadItems(body).value.1))
  {
    hide ReadItems, ReadMembers, ReadString, ReadNumber;
    NoWord([91] + body);
    assert ([91] + body)[1..] == body && ([91] + body)[2..] == body[1..];
  }

  lemma ReadObject(body: seq<byte>)
    requires body != []
    ensures var bytes := [123] + body;
            if body[0] == 125 then ReadValue(bytes) == Some((JObject([]), body[1..]))
            else ReadMembers(body).Some? ==>
              ReadValue(bytes) == Some((JObject(ReadMembers(body).value.0), ReadMembers(body).value.1))
  {
    hide ReadItems, ReadMembers, ReadString, ReadNumber;
    NoWord([123] + body);
    assert ([123] + body)[1..] == body && ([123] + body)[2..] == body[1..];
  }

  lemma {:induction false} ItemsStart(items: seq<Json>, rest: seq<byte>)
    requires forall i :: 0 <= i < |items| ==> Proper(items[i])
    ensures var body := JoinItems(PrintItems(items)) + rest;
            && body != [] && (if items == [] then body == [93] + rest else body[0] != 93)
            && Print(JArray(items)) + rest == [91] + body
  {
    hide *;
    var texts := PrintItems(items);
    PrintArray(items);
    if items == [] {
      assert texts == [];
    } else {
      PrintStarts(items[0]);
      JoinStarts(texts);
    }
  }

  lemma PrintArray(items: seq<Json>)
    ensures Print(JArray(items)) == [91] + JoinItems(PrintItems(items)) && JoinItems([]) == [93]
    ensures items != [] ==> PrintItems(items)[0] == Print(items[0])
  {
  }

  lemma JoinStarts(texts: seq<seq<byte>>)
    requires texts != [] && texts[0] != []
    ensures JoinItems(texts) != [] && JoinItems(texts)[0] == texts[0][0]
  {
  }

  lemma MembersStart(members: seq<Pair<Json>>, rest: seq<byte>)
    ensures var body := JoinMembers(PrintMembers(members)) + rest;
            && body != [] && (if members == [] then body == [125] + rest else body[0] == 34)
            && Print(JObject(members)) + rest == [123] + body
  {
    hide Escape;
  }

  lemma {:induction false} ValueRoundTrip(v: Json, rest: seq<byte>)
    requires Proper(v) && Stops(rest)
    ensures ReadValue(Print(v) + rest) == Some((v, rest))
    decreases v, 0
  {
    hide ReadValue, ReadItems, ReadMembers, JoinItems, JoinMembers, Quote;
    match v
    case JNull => WordsRead(rest);
    case JBool(_) => WordsRead(rest);
    case JNumber(text) => NumberValue(text, rest);
    case JString(s) => StringValue(s, rest);
    case JArray(items) =>
      ItemsStart(items, rest);
      ReadArray(JoinItems(PrintItems(items)) + rest);
      if items == [] {
        assert ([93] + rest)[1..] == rest;
      } else {
        ItemsRoundTrip(v, items, rest);
      }
    case JObject(members) =>
      MembersStart(members, rest);
      ReadObject(JoinMembers(PrintMembers(members)) + rest);
      if members == [] {
        assert ([125] + rest)[1..] == rest;
      } else {
        MembersRoundTrip(v, members, rest);
      }
  }

  lemma {:induction false} ItemsRoundTrip(parent: Json, items: seq<Json>, rest: seq<byte>)
    requires items != [] && forall i :: 0 <= i < |items| ==> Proper(items[i]) && items[i] < parent
    ensures ReadItems(JoinItems(PrintItems(items)) + rest) == Some((items, rest))
    decreases parent, 0, |items|
  {
    var texts := PrintItems(items);
    if |items| == 1 {
      assert JoinItems(texts) + rest == Print(items[0]) + ([93] + rest);
      ValueRoundTrip(items[0], [93] + rest);
      assert ([93] + rest)[1..] == rest && items == [items[0]];
    } else {
      var more := items[1..];
      var moreTexts := PrintItems(more);
      assert texts[1..] == moreTexts;
      var tail := [44] + (JoinItems(moreTexts) + rest);
      assert JoinItems(texts) + rest == Print(items[0]) + tail;
      ValueRoundTrip(items[0], tail);
      ItemsRoundTrip(parent, more, rest);
      assert tail[1..] == JoinItems(moreTexts) + rest && items == [items[0]] + more;
    }
  }

  lemma {:induction false} MembersRoundTrip(parent: Json, members: seq<Pair<Json>>, rest: seq<byte>)
    requires members != []
    requires forall i :: 0 <= i < |members| ==> Proper(members[i].value) && members[i].value < parent
    ensures ReadMembers(JoinMembers(PrintMembers(members)) + rest) == Some((members, rest))
    decreases parent, 0, |members|
  {
    hide ReadMembers, ReadValue, Print, Quote, ReadString, Proper;
    var texts := PrintMembers(members);
    var key, value := members[0].key, members[0].value;
    var close := if |members| == 1 then [125] else [44] + JoinMembers(texts[1..]);
    assert JoinMembers(texts) == Quote(key) + ([58] + (Print(value) + close));
    assert Stops(close + rest) && (close + rest)[0] == close[0];
    MemberRead(key, Print(value), close, rest);
    ValueRoundTrip(value, close + rest);
    MemberStep(JoinMembers(texts) + rest, key, [58] + (Print(value) + (close + rest)), value, close + rest);
    if |members| == 1 {
      assert (close + rest)[1..] == rest && members == [members[0]];
    } else {
      var more := members[1..];
      assert texts[1..] == PrintMembers(more);
      MembersRoundTrip(parent, more, rest);
      assert (close + rest)[1..] == JoinMembers(texts[1..]) + rest && members == [members[0]] + more;
    }
  }

  lemma MemberRead(key: seq<byte>, text: seq<byte>, close: seq<byte>, rest: seq<byte>)
    ensures var bytes := (Quote(key) + ([58] + (text + close))) + rest;
            bytes != [] && bytes[0] == 34 && ReadString(bytes[1..]) == Some((key, [58] + (text + (close + rest))))
    ensures ([58] + (text + (close + rest)))[1..] == text + (close + rest)
  {
    var bytes, body := (Quote(key) + ([58] + (text + close))) + rest, [58] + (text + (close + rest));
    assert bytes == [34] + (Escape(key) + body);
    StringRoundTrip(key, body);
    assert bytes[1..] == Escape(key) + body;
  }

  lemma MemberStep(bytes: seq<byte>, key: seq<byte>, body: seq<byte>, value: Json, tail: seq<byte>)
    requires bytes != [] && bytes[0] == 34 && ReadString(bytes[1..]) == Some((key, body))
    requires body != [] && body[0] == 58 && ReadValue(body[1..]) == Some((value, tail)) && tail != []
    ensures tail[0] == 125 ==> ReadMembers(bytes) == Some(([Pair(key, value)], tail[1..]))
    ensures tail[0] == 44 ==>
              var more := ReadMembers(tail[1..]);
              ReadMembers(bytes)
              == if more.None? then None else Some(([Pair(key, value)] + more.value.0, more.value.1))
  {
    hide ReadString;
  }

  // ---- equal text means equal values up to member order ----

  /** Equal up to the order of object members, at every level. */
  ghost predicate Same(a: Json, b: Json)
    decreases a
  {
    match (a, b)
    case (JArray(x), JArray(y)) => |x| == |y| && forall i :: 0 <= i < |x| ==> Same(x[i], y[i])
    case (JObject(x), JObject(y)) => |x| == |y| && forall i :: 0 <= i < |x| ==> HasMatch(x[i], y)
    case _ => a == b
  }

  ghost predicate HasMatch(m: Pair<Json>, y: seq<Pair<Json>>)
    decreases m
  {
    exists j :: 0 <= j < |y| && y[j].key == m.key && Same(m.value, y[j].value)
  }

  lemma {:induction false} NormalProper(v: Json)
    requires Proper(v)
    ensures Proper(Normal(v))
    decreases v
  {
    match v
    case JArray(items) =>
      forall i | 0 <= i < |items| ensures Proper(Normal(items[i])) { NormalProper(items[i]); }
    case JObject(members) =>
      forall i | 0 <= i < |members| ensures Proper(Normal(members[i].value)) { NormalProper(members[i].value); }
      SortedMembersProper(members);
    case _ =>
  }

  lemma SortedMembersProper(members: seq<Pair<Json>>)
    requires KeysDistinct(members)
    requires forall i :: 0 <= i < |members| ==> Proper(Normal(members[i].value))
    ensures Proper(Normal(JObject(members)))
  {
    var normals := NormalMembers(members);
    SortSorts(normals);
    var sorted := SortPairs(normals);
    forall i | 0 <= i < |sorted| ensures Proper(sorted[i].value) {
      assert sorted[i] in normals;
    }
    forall i, j | 0 <= i < j < |sorted| ensures sorted[i].key != sorted[j].key {
      BeforeTrans(sorted[i].key, sorted[i].key, sorted[i].key);
      assert Before(sorted[i].key, sorted[j].key);
    }
  }

  /** Reading canonical text back recovers the value, its members in key order. */
  lemma CanonicalRoundTrip(v: Json)
    requires Proper(v)
    ensures ReadValue(CanonicalText(v)) == Some((Normal(v), []))
  {
    CanonicalIsNormalText(v);
    NormalProper(v);
    ValueRoundTrip(Normal(v), []);
    assert Print(Normal(v)) + [] == Print(Normal(v));
  }

  lemma {:induction false} SameNormal(a: Json, b: Json)
    requires Proper(a) && Proper(b)
    ensures Same(a, b) <==> Normal(a) == Normal(b)
    decreases a
  {
    match (a, b)
    case (JArray(x), JArray(y)) =>
      if |x| == |y| {
        forall i | 0 <= i < |x| ensures Same(x[i], y[i]) <==> Normal(x[i]) == Normal(y[i]) { SameNormal(x[i], y[i]); }
        ItemsSame(x, y);
      }
    case (JObject(x), JObject(y)) =>
      forall i, j | 0 <= i < |x| && 0 <= j < |y|
        ensures Same(x[i].value, y[j].value) <==> Normal(x[i].value) == Normal(y[j].value)
      {
        SameNormal(x[i].value, y[j].value);
      }
      ObjectsSame(x, y);
    case _ =>
  }

  lemma ItemsSame(x: seq<Json>, y: seq<Json>)
    requires |x| == |y| && forall i :: 0 <= i < |x| ==> (Same(x[i], y[i]) <==> Normal(x[i]) == Normal(y[i]))
    ensures Same(JArray(x), JArray(y)) <==> Normal(JArray(x)) == Normal(JArray(y))
  {
    var p, q := NormalItems(x), NormalItems(y);
    if p == q {
      forall i | 0 <= i < |x| ensures Same(x[i], y[i]) { assert p[i] == q[i]; }
    }
    if Same(JArray(x), JArray(y)) {
      forall i | 0 <= i < |x| ensures p[i] == q[i] { assert Same(x[i], y[i]); }
    }
  }

  ghost predicate Included(p: seq<Pair<Json>>, q: seq<Pair<Json>>) {
    |p| == |q| && forall m :: m in p ==> m in q
  }

  lemma SortedEqualIff(p: seq<Pair<Json>>, q: seq<Pair<Json>>)
    requires KeysDistinct(p) && KeysDistinct(q)
    ensures SortPairs(p) == SortPairs(q) <==> Included(p, q)
  {
    hide SortPairs, CompareBytes, KeysDistinct;
    SortSorts(p);
    SortSorts(q);
    if SortPairs(p) == SortPairs(q) {
      forall m | m in p ensures m in q { assert m in SortPairs(p); }
    }
    if Included(p, q) {
      SubsetIsAll(p, q);
      AscendingSame(SortPairs(p), SortPairs(q));
    }
  }

  /** A member has a match exactly when its normal form is among the others' normal forms. */
  lemma MatchIff(x: seq<Pair<Json>>, y: seq<Pair<Json>>, i: nat)
    requires i < |x| && forall j :: 0 <= j < |y| ==>
              (Same(x[i].value, y[j].value) <==> Normal(x[i].value) == Normal(y[j].value))
    ensures HasMatch(x[i], y) <==> NormalMembers(x)[i] in NormalMembers(y)
  {
    hide Same, Normal;
    var m, q := NormalMembers(x)[i], NormalMembers(y);
    if HasMatch(x[i], y) {
      var j :| 0 <= j < |y| && y[j].key == x[i].key && Same(x[i].value, y[j].value);
      assert q[j] == m;
    }
    if m in q {
      var j :| 0 <= j < |q| && q[j] == m;
      assert y[j].key == x[i].key && Same(x[i].value, y[j].value);
    }
  }

  /** Objects are the same exactly when their normal members, as sets, are. */
  lemma ObjectsSame(x: seq<Pair<Json>>, y: seq<Pair<Json>>)
    requires KeysDistinct(x) && KeysDistinct(y)
    requires forall i, j :: 0 <= i < |x| && 0 <= j < |y| ==>
      (Same(x[i].value, y[j].value) <==> Normal(x[i].value) == Normal(y[j].value))
    ensures Same(JObject(x), JObject(y)) <==> SortPairs(NormalMembers(x)) == SortPairs(NormalMembers(y))
  {
    hide *;
    ObjectMatches(x, y);
    NormalsDistinct(x);
    NormalsDistinct(y);
    SortedEqualIff(NormalMembers(x), NormalMembers(y));
    forall i | 0 <= i < |x|
      ensures HasMatch(x[i], y) <==> NormalMembers(x)[i] in NormalMembers(y)
    {
      MatchIff(x, y, i);
    }
    MatchesIncluded(x, y);
  }

  ghost predicate AllMatch(x: seq<Pair<Json>>, y: seq<Pair<Json>>) {
    |x| == |y| && forall i :: 0 <= i < |x| ==> HasMatch(x[i], y)
  }

  lemma ObjectMatches(x: seq<Pair<Json>>, y: seq<Pair<Json>>)
    ensures Same(JObject(x), JObject(y)) <==> AllMatch(x, y)
  {
  }

  lemma NormalsDistinct(x: seq<Pair<Json>>)
    requires KeysDistinct(x)
    ensures KeysDistinct(NormalMembers(x))
  {
    hide Normal;
  }

  lemma MatchesIncluded(x: seq<Pair<Json>>, y: seq<Pair<Json>>)
    requires forall i :: 0 <= i < |x| ==> (HasMatch(x[i], y) <==> NormalMembers(x)[i] in NormalMembers(y))
    ensures AllMatch(x, y) <==> Included(NormalMembers(x), NormalMembers(y))
  {
    hide HasMatch, NormalMembers;
    var p, q := NormalMembers(x), NormalMembers(y);
    if AllMatch(x, y) {
      forall m | m in p ensures m in q {
        var i :| 0 <= i < |p| && p[i] == m;
        assert HasMatch(x[i], y);
      }
    }
    if Included(p, q) {
      forall i | 0 <= i < |x| ensures HasMatch(x[i], y) { assert p[i] in p; }
    }
  }

  function KeySetOf<T>(ps: seq<Pair<T>>): set<seq<byte>> {
    set i | 0 <= i < |ps| :: ps[i].key
  }

  lemma {:induction false} KeySetSize<T>(ps: seq<Pair<T>>)
    requires KeysDistinct(ps)
    ensures |KeySetOf(ps)| == |ps|
    decreases |ps|
  {
    if ps != [] {
      var front, last := ps[..|ps| - 1], ps[|ps| - 1];
      KeySetSize(front);
      assert KeySetOf(ps) == KeySetOf(front) + {last.key};
      assert last.key !in KeySetOf(front);
    }
  }

  /** With distinct keys and equal sizes, one inclusion gives the other. */
  lemma SubsetIsAll(p: seq<Pair<Json>>, q: seq<Pair<Json>>)
    requires KeysDistinct(p) && KeysDistinct(q) && |p| == |q| && forall m :: m in p ==> m in q
    ensures forall m :: m in q ==> m in p
  {
    KeySetSize(p);
    KeySetSize(q);
    forall k | k in KeySetOf(p) ensures k in KeySetOf(q) {
      var i :| 0 <= i < |p| && p[i].key == k;
      assert p[i] in q;
      var j :| 0 <= j < |q| && q[j] == p[i];
      assert q[j].key == k;
    }
    FullSubset(KeySetOf(p), KeySetOf(q));
    forall m | m in q ensures m in p {
      var j :| 0 <= j < |q| && q[j] == m;
      assert q[j].key in KeySetOf(q);
      var i :| 0 <= i < |p| && p[i].key == m.key;
      assert p[i] in q;
      var k :| 0 <= k < |q| && q[k] == p[i];
      assert q[k].key == q[j].key;
      assert k == j;
    }
  }

  lemma FullSubset(a: set<seq<byte>>, b: set<seq<byte>>)
    requires a <= b && |a| == |b|
    ensures a == b
  {
    assert a + (b - a) == b;
    assert |b - a| == 0;
  }

  /** Canonical text identifies a value up to the order of its object members:
      split keys and decoding-profile identities depend on nothing else. */
  lemma CanonicalTextIdentifies(a: Json, b: Json)
    requires Proper(a) && Proper(b)
    ensures CanonicalText(a) == CanonicalText(b) <==> Same(a, b)
  {
    CanonicalRoundTrip(a);
    CanonicalRoundTrip(b);
    CanonicalIsNormalText(a);
    CanonicalIsNormalText(b);
    SameNormal(a, b);
  }
}
