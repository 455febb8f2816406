/** The ustar writer of the WebDataset export, byte by byte, and a reader of the
    format ("ustar Interchange Format", pax utility, IEEE Std 1003.1). */
module Ustar {
  import opened Machine
  import opened Validity

  const BLOCK: nat := 512

  /** Overwrite part of a buffer. */
  function Put(s: seq<byte>, at: nat, bytes: seq<byte>): (r: seq<byte>)
    requires at + |bytes| <= |s|
    ensures |r| == |s|
  {
    s[..at] + bytes + s[at + |bytes|..]
  }

  lemma PutSame(s: seq<byte>, at: nat, bytes: seq<byte>)
    requires at + |bytes| <= |s|
    ensures Put(s, at, bytes)[at..at + |bytes|] == bytes
  {
  }

  /** Fields outside the overwritten part keep their bytes. */
  lemma PutOther(s: seq<byte>, at: nat, bytes: seq<byte>, lo: nat, hi: nat)
    requires at + |bytes| <= |s| && lo <= hi <= |s| && (hi <= at || at + |bytes| <= lo)
    ensures Put(s, at, bytes)[lo..hi] == s[lo..hi]
  {
    var p := Put(s, at, bytes);
    forall i | lo <= i < hi ensures p[i] == s[i] {}
  }

  lemma PutTwice(s: seq<byte>, at: nat, a: seq<byte>, b: seq<byte>)
    requires |a| == |b| && at + |a| <= |s|
    ensures Put(Put(s, at, a), at, b) == Put(s, at, b)
  {
  }

  lemma PutBack(s: seq<byte>, at: nat, len: nat)
    requires at + len <= |s|
    ensures Put(s, at, s[at..at + len]) == s
  {
  }

  // ---- octal text ----

  function Pow8(n: nat): nat {
    if n == 0 then 1 else 8 * Pow8(n - 1)
  }

  /** The low `w` octal digits, most significant first. */
  function Digits(v: nat, w: nat): (r: seq<byte>)
    ensures |r| == w
  {
    if w == 0 then [] else Digits(v / 8, w - 1) + [48 + v % 8]
  }

  predicate OctalDigit(b: byte) {
    48 <= b < 56
  }

  /** Digits up to the first byte that is none, a NUL or space or the field's end. */
  function ParseOctal(field: seq<byte>, value: nat): nat
    decreases |field|
  {
    if field == [] || !OctalDigit(field[0]) then value
    else ParseOctal(field[1..], 8 * value + (field[0] - 48))
  }

  /** Reading the leading digits accumulates their value. */
  lemma {:induction false} ParsePrefix(v: nat, w: nat, rest: seq<byte>, value: nat)
    requires v < Pow8(w)
    ensures ParseOctal(Digits(v, w) + rest, value) == ParseOctal(rest, value * Pow8(w) + v)
    decreases w
  {
    if w == 0 {
      assert Digits(v, w) + rest == rest;
    } else {
      var last := [48 + v % 8];
      assert Digits(v, w) + rest == Digits(v / 8, w - 1) + (last + rest);
      Pow8Step(v, w, value);
      ParsePrefix(v / 8, w - 1, last + rest, value);
      assert (last + rest)[0] == 48 + v % 8 && (last + rest)[1..] == rest;
      hide Pow8, Digits;
    }
  }

  lemma Pow8Step(v: nat, w: nat, value: nat)
    requires w > 0 && v < Pow8(w)
    ensures v / 8 < Pow8(w - 1) && 8 * (value * Pow8(w - 1) + v / 8) + v % 8 == value * Pow8(w) + v
  {
    Distribute(value, Pow8(w - 1));
  }

  lemma Distribute(a: nat, b: nat)
    ensures 8 * (a * b) == a * (8 * b)
  {
  }

  lemma ParseDigits(v: nat, w: nat, tail: seq<byte>)
    requires v < Pow8(w) && (tail == [] || !OctalDigit(tail[0]))
    ensures ParseOctal(Digits(v, w) + tail, 0) == v
  {
    hide *;
    ParsePrefix(v, w, tail, 0);
    ParseStops(tail, v);
    ZeroTimes(Pow8(w), v);
  }

  lemma ZeroTimes(a: nat, v: nat)
    ensures 0 * a + v == v
  {
  }

  lemma ParseStops(tail: seq<byte>, v: nat)
    requires tail == [] || !OctalDigit(tail[0])
    ensures ParseOctal(tail, v) == v
  {
  }

  /** `write_tar_octal`: zero-padded digits and a NUL, which a value of full width
      pushes out. Values wider than the field are outside this model. */
  function OctalField(v: nat, len: nat): (r: seq<byte>)
    requires len > 0
    ensures |r| == len
  {
    if v < Pow8(len - 1) then Digits(v, len - 1) + [0] else Digits(v, len)
  }

  lemma OctalFieldReads(v: nat, len: nat)
    requires len > 0 && v < Pow8(len)
    ensures ParseOctal(OctalField(v, len), 0) == v
  {
    hide Digits, Pow8, ParseOctal;
    if v < Pow8(len - 1) {
      ParseDigits(v, len - 1, [0]);
    } else {
      ParseDigits(v, len, []);
      assert Digits(v, len) + [] == Digits(v, len);
    }
  }

  // ---- headers ----

  function Sum(s: seq<byte>): nat {
    if s == [] then 0 else Sum(s[..|s| - 1]) + s[|s| - 1]
  }

  lemma {:induction false} SumBounded(s: seq<byte>)
    ensures Sum(s) <= 255 * |s|
    decreases |s|
  {
    if s != [] { SumBounded(s[..|s| - 1]); }
  }

  const SPACES: seq<byte> := [32, 32, 32, 32, 32, 32, 32, 32]
  const MAGIC: seq<byte> := [117, 115, 116, 97, 114, 0]
  const VERSION: seq<byte> := [48, 48]

  predicate NameOk(name: seq<byte>) {
    0 < |name| <= 100
  }

  /** The header with its checksum field still blank. */
  function BlankHeader(name: seq<byte>, size: nat): (h: seq<byte>)
    requires NameOk(name)
    ensures |h| == BLOCK
  {
    var h0 := Put(Zeros(BLOCK), 0, name);
    var h1 := Put(h0, 100, OctalField(420, 8));
    var h2 := Put(h1, 108, OctalField(0, 8));
    var h3 := Put(h2, 116, OctalField(0, 8));
    var h4 := Put(h3, 124, OctalField(size, 12));
    var h5 := Put(h4, 136, OctalField(0, 12));
    var h6 := Put(h5, 148, SPACES);
    var h7 := Put(h6, 156, [48]);
    var h8 := Put(h7, 257, MAGIC);
    Put(h8, 263, VERSION)
  }

  function ChecksumText(sum: nat): (r: seq<byte>)
    ensures |r| == 8
  {
    Digits(sum, 6) + [0, 32]
  }

  function Header(name: seq<byte>, size: nat): (h: seq<byte>)
    requires NameOk(name)
    ensures |h| == BLOCK
  {
    Put(BlankHeader(name, size), 148, ChecksumText(Sum(BlankHeader(name, size))))
  }

  /** What every header field reads back as. */
  lemma HeaderFields(name: seq<byte>, size: nat)
    requires NameOk(name)
    ensures var h := BlankHeader(name, size);
            && h[0..100] == name + Zeros(100 - |name|) && h[124..136] == OctalField(size, 12)
            && h[148..156] == SPACES && h[257..263] == MAGIC
  {
    var h0 := Put(Zeros(BLOCK), 0, name);
    var h1 := Put(h0, 100, OctalField(420, 8));
    var h2 := Put(h1, 108, OctalField(0, 8));
    var h3 := Put(h2, 116, OctalField(0, 8));
    var h4 := Put(h3, 124, OctalField(size, 12));
    var h5 := Put(h4, 136, OctalField(0, 12));
    var h6 := Put(h5, 148, SPACES);
    var h7 := Put(h6, 156, [48]);
    var h8 := Put(h7, 257, MAGIC);
    NameField(name);
    hide Put, OctalField, Zeros;
    KeepField(h0, 100, OctalField(420, 8), h1, 108, OctalField(0, 8), h2, 116, OctalField(0, 8), 0, 100);
    KeepField(h3, 124, OctalField(size, 12), h4, 136, OctalField(0, 12), h5, 148, SPACES, 0, 100);
    KeepField(h6, 156, [48], h7, 257, MAGIC, h8, 263, VERSION, 0, 100);
    PutOther(h2, 116, OctalField(0, 8), 0, 100);
    PutOther(h5, 148, SPACES, 0, 100);
    PutSame(h3, 124, OctalField(size, 12));
    PutOther(h4, 136, OctalField(0, 12), 124, 136);
    PutOther(h5, 148, SPACES, 124, 136);
    KeepField(h6, 156, [48], h7, 257, MAGIC, h8, 263, VERSION, 124, 136);
    PutSame(h5, 148, SPACES);
    KeepField(h6, 156, [48], h7, 257, MAGIC, h8, 263, VERSION, 148, 156);
    PutSame(h7, 257, MAGIC);
    PutOther(h8, 263, VERSION, 257, 263);
  }

  lemma NameField(name: seq<byte>)
    requires NameOk(name)
    ensures Put(Zeros(BLOCK), 0, name)[0..100] == name + Zeros(100 - |name|)
  {
  }

  /** Three writes past a field leave it alone. */
  lemma KeepField(s: seq<byte>, at: nat, a: seq<byte>, s1: seq<byte>, at1: nat, b: seq<byte>,
                  s2: seq<byte>, at2: nat, c: seq<byte>, lo: nat, hi: nat)
    requires at + |a| <= |s| && s1 == Put(s, at, a) && at1 + |b| <= |s1| && s2 == Put(s1, at1, b) && at2 + |c| <= |s2|
    requires lo <= hi <= at && hi <= at1 && hi <= at2
    ensures Put(s2, at2, c)[lo..hi] == s[lo..hi]
  {
    hide Put;
    PutOther(s, at, a, lo, hi);
    PutOther(s1, at1, b, lo, hi);
    PutOther(s2, at2, c, lo, hi);
  }

  /** Six octal digits always hold the checksum, because 512 * 255 < 8^6. */
  lemma ChecksumFits(name: seq<byte>, size: nat)
    requires NameOk(name)
    ensures Sum(BlankHeader(name, size)) < Pow8(6)
  {
    SumBounded(BlankHeader(name, size));
    assert Pow8(6) == 262144;
  }

  // ---- archives ----

  datatype Entry = Entry(name: seq<byte>, data: seq<byte>)

  function Padding(len: nat): nat {
    (512 - len % 512) % 512
  }

  function EntryBytes(e: Entry): (r: seq<byte>)
    requires NameOk(e.name)
    ensures |r| % BLOCK == 0 && |r| >= BLOCK
  {
    Aligned(Header(e.name, |e.data|), e.data);
    Header(e.name, |e.data|) + e.data + Zeros(Padding(|e.data|))
  }

  lemma Aligned(header: seq<byte>, data: seq<byte>)
    requires |header| == BLOCK
    ensures |header + data + Zeros(Padding(|data|))| % BLOCK == 0
    ensures |header + data + Zeros(Padding(|data|))| >= BLOCK
  {
  }

  ghost predicate Writable(entries: seq<Entry>) {
    forall i :: 0 <= i < |entries| ==> NameOk(entries[i].name)
  }

  function Bodies(entries: seq<Entry>): seq<byte>
    requires Writable(entries)
  {
    if entries == [] then [] else Bodies(entries[..|entries| - 1]) + EntryBytes(entries[|entries| - 1])
  }

  /** The entries, then two zero blocks. */
  function Archive(entries: seq<Entry>): seq<byte>
    requires Writable(entries)
  {
    Bodies(entries) + Zeros(2 * BLOCK)
  }

  method CopyInto(a: array<byte>, at: nat, bytes: seq<byte>)
    requires at + |bytes| <= a.Length
    modifies a
    ensures a[..] == Put(old(a[..]), at, bytes)
  {
    for i := 0 to |bytes|
      invariant a[..at] == old(a[..at]) && a[at..at + i] == bytes[..i] && a[at + i..] == old(a[at + i..])
    {
      a[at + i] := bytes[i];
      assert a[at..at + i + 1] == a[at..at + i] + [a[at + i]];
    }
    assert a[..] == a[..at] + a[at..at + |bytes|] + a[at + |bytes|..];
  }

  /** `header.iter().fold(0u32, saturating_add)`: the sum stays far below u32. */
  method HeaderSum(a: array<byte>) returns (sum: nat)
    requires a.Length == BLOCK
    ensures sum == Sum(a[..])
  {
    sum := 0;
    for i := 0 to a.Length
      invariant sum == Sum(a[..i])
    {
      assert a[..i + 1][..i] == a[..i];
      SumBounded(a[..i + 1]);
      sum := Min(sum + a[i], U32_MAX);
    }
    assert a[..a.Length] == a[..];
  }

  /** `write_tar_entry`: fills one header block in place, then appends it, the data
      and the padding. A bad name changes nothing. */
  method WriteTarEntry(out: seq<byte>, e: Entry) returns (r: Result<seq<byte>>)
    requires NameOk(e.name) ==> |e.data| < Pow8(12)
    ensures NameOk(e.name) ==> r == Ok(out + EntryBytes(e))
    ensures !NameOk(e.name) ==> r == Err(BadSchema)
  {
    if e.name == [] || |e.name| > 100 { return Err(BadSchema); }
    var header := new byte[512](_ => 0);
    assert header[..] == Zeros(BLOCK);
    CopyInto(header, 0, e.name);
    CopyInto(header, 100, OctalField(420, 8));
    CopyInto(header, 108, OctalField(0, 8));
    CopyInto(header, 116, OctalField(0, 8));
    CopyInto(header, 124, OctalField(|e.data|, 12));
    CopyInto(header, 136, OctalField(0, 12));
    CopyInto(header, 148, SPACES);
    CopyInto(header, 156, [48]);
    CopyInto(header, 257, MAGIC);
    CopyInto(header, 263, VERSION);
    assert header[..] == BlankHeader(e.name, |e.data|);
    var checksum := HeaderSum(header);
    CopyInto(header, 148, ChecksumText(checksum));
    return Ok(out + (header[..] + e.data + Zeros(Padding(|e.data|))));
  }

  /** Every entry in order, then the trailer, as `write_webdataset` lays them out. */
  method WriteArchive(entries: seq<Entry>) returns (r: Result<seq<byte>>)
    requires forall i :: 0 <= i < |entries| ==> |entries[i].data| < Pow8(12)
    ensures r.Ok? <==> Writable(entries)
    ensures r.Ok? ==> r.value == Archive(entries)
  {
    var out: seq<byte> := [];
    for i := 0 to |entries|
      invariant Writable(entries[..i]) && out == Bodies(entries[..i])
    {
      hide Bodies, EntryBytes;
      BodiesSnoc(entries, i);
      var more := WriteTarEntry(out, entries[i]);
      if more.Err? { return more; }
      out := more.value;
    }
    assert entries[..|entries|] == entries;
    return Ok(out + Zeros(2 * BLOCK));
  }

  lemma BodiesSnoc(entries: seq<Entry>, i: nat)
    requires i < |entries| && Writable(entries[..i])
    ensures NameOk(entries[i].name) ==>
              Writable(entries[..i + 1]) && Bodies(entries[..i + 1]) == Bodies(entries[..i]) + EntryBytes(entries[i])
  {
    assert entries[..i + 1][..i] == entries[..i];
  }

  // ---- reading ----

  function UntilNul(field: seq<byte>): seq<byte> {
    if field == [] || field[0] == 0 then [] else [field[0]] + UntilNul(field[1..])
  }

  /** A header block is accepted when its magic and checksum are right. */
  function ReadHeader(block: seq<byte>): Result<(seq<byte>, nat)>
    requires |block| == BLOCK
  {
    if block[257..263] != MAGIC then Err(PageCorrupt)
    else if ParseOctal(block[148..156], 0) != Sum(Put(block, 148, SPACES)) then Err(PageCorrupt)
    else Ok((UntilNul(block[0..100]), ParseOctal(block[124..136], 0)))
  }

  /** Blocks up to a trailer of two zero blocks, which must end the archive. */
  function ReadArchive(bytes: seq<byte>): Result<seq<Entry>>
    decreases |bytes|
  {
    if bytes == Zeros(2 * BLOCK) then Ok([])
    else if |bytes| < BLOCK then Err(BufferTooShort)
    else
      match ReadHeader(bytes[..BLOCK])
      case Err(e) => Err(e)
      case Ok((name, size)) =>
        if BLOCK + size + Padding(size) > |bytes| then Err(BufferTooShort)
        else
          match ReadArchive(bytes[BLOCK + size + Padding(size)..])
          case Err(e) => Err(e)
          case Ok(more) => Ok([Entry(name, bytes[BLOCK..BLOCK + size])] + more)
  }

  ghost predicate NulFree(name: seq<byte>) {
    forall i :: 0 <= i < |name| ==> name[i] != 0
  }

  /** The zeros behind a name add nothing to it, and only a NUL cuts it short. */
  lemma {:induction false} NameReads(name: seq<byte>, n: nat)
    ensures UntilNul(name + Zeros(n)) == UntilNul(name)
    ensures UntilNul(name) == name <==> NulFree(name)
    decreases |name|
  {
    if name == [] {
      assert name + Zeros(n) == Zeros(n);
    } else {
      NameReads(name[1..], n);
      assert (name + Zeros(n))[1..] == name[1..] + Zeros(n);
      assert name == [name[0]] + name[1..];
    }
  }

  /** A written header reads back its name up to any NUL and its size, and never looks
      like a trailer. */
  lemma HeaderRoundTrip(name: seq<byte>, size: nat)
    requires NameOk(name) && size < Pow8(12)
    ensures ReadHeader(Header(name, size)) == Ok((UntilNul(name), size))
    ensures Header(name, size)[257..263] == MAGIC
  {
    hide BlankHeader, Sum, ParseOctal, Digits, OctalField, UntilNul, Put, Pow8, Header, ChecksumText, ReadHeader, Zeros;
    var blank := BlankHeader(name, size);
    var sum := Sum(blank);
    HeaderFields(name, size);
    HeaderIs(name, size);
    ChecksumFits(name, size);
    ChecksumReads(sum);
    OctalFieldReads(size, 12);
    NameReads(name, 100 - |name|);
    PutSame(blank, 148, ChecksumText(sum));
    PutTwice(blank, 148, ChecksumText(sum), SPACES);
    PutBack(blank, 148, 8);
    PutOther(blank, 148, ChecksumText(sum), 0, 100);
    PutOther(blank, 148, ChecksumText(sum), 124, 136);
    PutOther(blank, 148, ChecksumText(sum), 257, 263);
    AcceptedHeader(Header(name, size));
  }

  lemma HeaderIs(name: seq<byte>, size: nat)
    requires NameOk(name)
    ensures Header(name, size) == Put(BlankHeader(name, size), 148, ChecksumText(Sum(BlankHeader(name, size))))
  {
  }

  lemma ChecksumReads(sum: nat)
    requires sum < Pow8(6)
    ensures ParseOctal(ChecksumText(sum), 0) == sum
  {
    hide Digits, Pow8, ParseOctal;
    ParseDigits(sum, 6, [0, 32]);
  }

  lemma AcceptedHeader(block: seq<byte>)
    requires |block| == BLOCK && block[257..263] == MAGIC
    requires ParseOctal(block[148..156], 0) == Sum(Put(block, 148, SPACES))
    ensures ReadHeader(block) == Ok((UntilNul(block[0..100]), ParseOctal(block[124..136], 0)))
  {
    hide ParseOctal, Sum, Put, UntilNul;
  }

  lemma {:induction false} BodiesCons(e: Entry, entries: seq<Entry>)
    requires NameOk(e.name) && Writable(entries)
    ensures Writable([e] + entries) && Bodies([e] + entries) == EntryBytes(e) + Bodies(entries)
    decreases |entries|
  {
    hide Bodies, EntryBytes, NameOk;
    if entries == [] {
      BodiesOfOne(e);
    } else {
      var front, last := entries[..|entries| - 1], entries[|entries| - 1];
      BodiesCons(e, front);
      BodiesOfMore(e, front, last);
      assert entries == front + [last];
    }
  }

  lemma BodiesOfOne(e: Entry)
    requires NameOk(e.name)
    ensures Writable([e] + []) && Bodies([e] + []) == EntryBytes(e) + Bodies([])
  {
    hide EntryBytes;
    assert [e] + [] == [e] && [e][..0] == [];
    assert Bodies([e]) == [] + EntryBytes(e);
  }

  lemma BodiesOfMore(e: Entry, front: seq<Entry>, last: Entry)
    requires NameOk(e.name) && NameOk(last.name) && Writable(front) && Writable([e] + front)
    requires Bodies([e] + front) == EntryBytes(e) + Bodies(front)
    ensures Writable([e] + (front + [last])) && Writable(front + [last])
    ensures Bodies([e] + (front + [last])) == EntryBytes(e) + Bodies(front + [last])
  {
    hide EntryBytes;
    BodiesGrow([e] + front, last);
    BodiesGrow(front, last);
    assert [e] + (front + [last]) == ([e] + front) + [last];
    hide Bodies;
    Regroup(EntryBytes(e), Bodies(front), EntryBytes(last));
  }

  lemma BodiesGrow(front: seq<Entry>, last: Entry)
    requires NameOk(last.name) && Writable(front)
    ensures Writable(front + [last]) && Bodies(front + [last]) == Bodies(front) + EntryBytes(last)
  {
    hide EntryBytes;
    assert (front + [last])[..|front|] == front;
  }

  lemma Regroup(a: seq<byte>, b: seq<byte>, c: seq<byte>)
    ensures (a + b) + c == a + (b + c)
  {
  }

  /** What a reader sees: names end at their first NUL. */
  function Cut(entries: seq<Entry>): (r: seq<Entry>)
    ensures |r| == |entries|
    ensures forall i :: 0 <= i < |r| ==> r[i] == Entry(UntilNul(entries[i].name), entries[i].data)
  {
    seq(|entries|, i requires 0 <= i < |entries| => Entry(UntilNul(entries[i].name), entries[i].data))
  }

  lemma {:induction false} ArchiveReads(entries: seq<Entry>)
    requires Writable(entries) && forall i :: 0 <= i < |entries| ==> |entries[i].data| < Pow8(12)
    ensures ReadArchive(Archive(entries)) == Ok(Cut(entries))
    decreases |entries|
  {
    hide ReadArchive, Archive, EntryBytes, UntilNul, Pow8, NameOk, Cut;
    if entries == [] {
      NoEntries();
    } else {
      var e, rest := entries[0], entries[1..];
      assert entries == [e] + rest;
      ArchiveReads(rest);
      ArchiveCons(e, rest);
      EntryReads(e, Archive(rest));
      CutCons(e, rest);
    }
  }

  lemma NoEntries()
    ensures ReadArchive(Archive([])) == Ok(Cut([]))
  {
    assert Archive([]) == Zeros(2 * BLOCK);
  }

  lemma CutCons(e: Entry, rest: seq<Entry>)
    ensures Cut([e] + rest) == [Entry(UntilNul(e.name), e.data)] + Cut(rest)
  {
    hide UntilNul;
  }

  /** Reading a written archive recovers exactly its entries, in order, with nothing
      left over, if and only if no name holds a NUL. */
  lemma ArchiveRoundTrip(entries: seq<Entry>)
    requires Writable(entries) && forall i :: 0 <= i < |entries| ==> |entries[i].data| < Pow8(12)
    ensures ReadArchive(Archive(entries)).Ok?
    ensures ReadArchive(Archive(entries)) == Ok(entries) <==> forall i :: 0 <= i < |entries| ==>
      NulFree(entries[i].name)
  {
    ArchiveReads(entries);
    hide ReadArchive, Archive, UntilNul, NulFree;
    forall i | 0 <= i < |entries| ensures Cut(entries)[i] == entries[i] <==> NulFree(entries[i].name) {
      NameReads(entries[i].name, 0);
    }
    if forall i :: 0 <= i < |entries| ==> NulFree(entries[i].name) { assert Cut(entries) == entries; }
  }

  /** A member written under the name a NUL b reads back under the name a. */
  lemma NulCutsName()
    ensures var e := Entry([97, 0, 98], []);
            Writable([e]) && ReadArchive(Archive([e])) == Ok([Entry([97], [])])
  {
    var e := Entry([97, 0, 98], []);
    OneByte();
    hide ReadArchive, Archive;
    ArchiveReads([e]);
    assert UntilNul(e.name) == [97] by {
      assert e.name[1..] == [0, 98];
      assert UntilNul(e.name[1..]) == [];
    }
    assert Cut([e]) == [Entry([97], [])];
  }

  lemma OneByte()
    ensures 0 < Pow8(12)
  {
    assert Pow8(6) == 262144;
  }

  lemma ArchiveCons(e: Entry, rest: seq<Entry>)
    requires NameOk(e.name) && Writable(rest)
    ensures Writable([e] + rest) && Archive([e] + rest) == EntryBytes(e) + Archive(rest)
  {
    hide EntryBytes, Bodies;
    BodiesCons(e, rest);
    Regroup(EntryBytes(e), Bodies(rest), Zeros(2 * BLOCK));
  }

  lemma EntryReads(e: Entry, rest: seq<byte>)
    requires NameOk(e.name) && |e.data| < Pow8(12)
    ensures ReadArchive(EntryBytes(e) + rest)
            == match ReadArchive(rest)
               case Err(error) => Err(error)
               case Ok(more) => Ok([Entry(UntilNul(e.name), e.data)] + more)
  {
    var bytes, size := EntryBytes(e) + rest, |e.data|;
    HeaderRoundTrip(e.name, size);
    EntrySlices(bytes, Header(e.name, size), e.data, Padding(size), rest);
    hide Header, Pow8, ReadHeader, EntryBytes, Padding, UntilNul;
    assert bytes[257] == Header(e.name, size)[257..263][0] == 117;
    assert bytes != Zeros(2 * BLOCK);
  }

  lemma EntrySlices(bytes: seq<byte>, header: seq<byte>, data: seq<byte>, pad: nat, rest: seq<byte>)
    requires |header| == BLOCK && bytes == (header + data + Zeros(pad)) + rest
    ensures bytes[..BLOCK] == header && bytes[257] == header[257] && bytes[BLOCK..BLOCK + |data|] == data
    ensures BLOCK + |data| + pad <= |bytes| && bytes[BLOCK + |data| + pad..] == rest
  {
  }

  // ---- the WebDataset archive ----

  function Decimal(v: nat): (r: seq<byte>)
    ensures r != [] && forall i :: 0 <= i < |r| ==> 48 <= r[i] < 58
  {
    if v < 10 then [48 + v] else Decimal(v / 10) + [48 + v % 10]
  }

  function Pow10(n: nat): nat {
    if n == 0 then 1 else 10 * Pow10(n - 1)
  }

  lemma {:induction false} DecimalLength(v: nat, n: nat)
    requires n > 0 && v < Pow10(n)
    ensures |Decimal(v)| <= n
    decreases n
  {
    if v >= 10 { DecimalLength(v / 10, n - 1); }
  }

  const JSON_SUFFIX: seq<byte> := [46, 106, 115, 111, 110]
  const METADATA_NAME: seq<byte> := [109, 101, 116, 97, 100, 97, 116, 97, 46, 106, 115, 111, 110]

  function Padded(digits: seq<byte>): seq<byte> {
    if |digits| >= 6 then digits else seq(6 - |digits|, _ => 48) + digits
  }

  /** `{index:06}.json` */
  function SampleName(index: nat): seq<byte> {
    Padded(Decimal(index)) + JSON_SUFFIX
  }

  lemma SampleNameOk(index: nat)
    requires index <= U64_MAX
    ensures NameOk(SampleName(index)) && NulFree(SampleName(index))
  {
    assert Pow10(10) == 1_00000_00000;
    assert Pow10(20) == 1_00000_00000_00000_00000 by { assert Pow10(15) == 1_00000_00000_00000; }
    DecimalLength(index, 20);
  }

  /** The metadata first, then one member per sample. */
  function Members(metadata: seq<byte>, samples: seq<seq<byte>>): (r: seq<Entry>)
    ensures |r| == |samples| + 1
  {
    [Entry(METADATA_NAME, metadata)]
      + seq(|samples|, i requires 0 <= i < |samples| => Entry(SampleName(i), samples[i]))
  }

  /** `write_webdataset`: with members short enough for the size field it cannot
      fail, and its archive reads back as the metadata and the samples in order. */
  method WriteWebdataset(metadata: seq<byte>, samples: seq<seq<byte>>) returns (r: Result<seq<byte>>)
    requires |samples| <= U64_MAX && |metadata| < Pow8(12) && forall i :: 0 <= i < |samples| ==> |samples[i]| < Pow8(12)
    ensures r.Ok? && ReadArchive(r.value) == Ok(Members(metadata, samples))
  {
    var members := Members(metadata, samples);
    MembersFit(metadata, samples);
    hide *;
    r := WriteArchive(members);
    ArchiveRoundTrip(members);
  }

  lemma MembersFit(metadata: seq<byte>, samples: seq<seq<byte>>)
    requires |samples| <= U64_MAX && |metadata| < Pow8(12) && forall i :: 0 <= i < |samples| ==> |samples[i]| < Pow8(12)
    ensures Writable(Members(metadata, samples))
    ensures forall i :: 0 <= i <= |samples| ==>
              NulFree(Members(metadata, samples)[i].name) && |Members(metadata, samples)[i].data| < Pow8(12)
  {
    hide Pow8, SampleName;
    forall i: nat | i < |samples| ensures NameOk(SampleName(i)) && NulFree(SampleName(i)) { SampleNameOk(i); }
  }
}
