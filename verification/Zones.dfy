/** Composite zones: per morsel of rows, the least and greatest key of every column
    of a group, as bytes and as a reader gets them back. */
module Zones {
  import opened Machine
  import opened Bits
  import opened LittleEndian
  import opened Scalars
  import opened Nested
  import opened RowOrder
  import opened Clustering
  import opened Segments
  import opened Keys

  datatype Bounds = Bounds(min: u64, max: u64)

  datatype Zone = Zone(id: nat, start: nat, len: nat, bounds: seq<Bounds>)

  /** The running minimum, maximum and whether any row had a key. */
  datatype Extremes = Extremes(min: u64, max: u64, any: bool)

  function NoKeysYet(): Extremes {
    Extremes(U64_MAX, 0, false)
  }

  function Include(e: Extremes, key: Option<u64>): Extremes {
    match key
    case None => e
    case Some(k) => Extremes(if k < e.min then k else e.min, if k > e.max then k else e.max, true)
  }

  function ExtremesOf(c: ConvertedColumn, lo: nat, hi: nat): Extremes
    requires ColumnOk(c) && lo <= hi <= RowsOf(c)
    decreases hi
  {
    if lo == hi then NoKeysYet() else Include(ExtremesOf(c, lo, hi - 1), KeyAt(c, hi - 1))
  }

  /** Zones without keys are written as zero bounds. */
  function BoundsOf(c: ConvertedColumn, lo: nat, hi: nat): Bounds
    requires ColumnOk(c) && lo <= hi <= RowsOf(c)
  {
    var e := ExtremesOf(c, lo, hi);
    if e.any then Bounds(e.min, e.max) else Bounds(0, 0)
  }

  /** The bounds are the least and the greatest key of the range, in unsigned order. */
  lemma {:induction false} ExtremesExact(c: ConvertedColumn, lo: nat, hi: nat)
    requires ColumnOk(c) && lo <= hi <= RowsOf(c)
    ensures var e := ExtremesOf(c, lo, hi);
            && (e.any <==> exists row: nat :: lo <= row < hi && KeyAt(c, row).Some?)
            && (forall row: nat :: lo <= row < hi && KeyAt(c, row).Some? ==> e.min <= KeyAt(c, row).value <= e.max)
            && (e.any ==> exists row: nat :: lo <= row < hi && KeyAt(c, row) == Some(e.min))
            && (e.any ==> exists row: nat :: lo <= row < hi && KeyAt(c, row) == Some(e.max))
            && (!e.any ==> e == NoKeysYet())
    decreases hi
  {
    if lo < hi {
      ExtremesExact(c, lo, hi - 1);
      hide KeyAt, ColumnOk;
      var before, e := ExtremesOf(c, lo, hi - 1), ExtremesOf(c, lo, hi);
      if KeyAt(c, hi - 1).Some? {
        assert e.any;
      }
    }
  }

  function AllBounds(group: seq<ConvertedColumn>, n: nat, lo: nat, hi: nat): (r: seq<Bounds>)
    requires Table(group, n) && lo <= hi <= n
    ensures |r| == |group|
  {
    seq(|group|, i requires 0 <= i < |group| => BoundsOf(group[i], lo, hi))
  }

  function ZoneOf(group: seq<ConvertedColumn>, n: nat, id: nat, t: Tile): Zone
    requires Table(group, n) && t.start + t.len <= n
  {
    Zone(id, t.start, t.len, AllBounds(group, n, t.start, t.start + t.len))
  }

  // ---- bytes ----

  function EncodeBounds(bounds: seq<Bounds>): seq<byte> {
    if bounds == [] then []
    else LeBytes(bounds[0].min, 8) + (LeBytes(bounds[0].max, 8) + EncodeBounds(bounds[1..]))
  }

  /** Row positions are written with `as u32`. */
  function EncodeZone(z: Zone): seq<byte> {
    LeBytes(z.id % 0x1_0000_0000, 4)
    + (LeBytes(z.start % 0x1_0000_0000, 4) + (LeBytes(z.len % 0x1_0000_0000, 4) + EncodeBounds(z.bounds)))
  }

  function DecodeBounds(bytes: seq<byte>, k: nat): Option<(seq<Bounds>, seq<byte>)>
    decreases k
  {
    if k == 0 then Some(([], bytes))
    else if |bytes| < 16 then None
    else
      Widths();
      LeBytesOfNat(bytes[..8]);
      LeBytesOfNat(bytes[8..16]);
      match DecodeBounds(bytes[16..], k - 1)
      case None => None
      case Some((more, rest)) => Some(([Bounds(LeNat(bytes[..8]), LeNat(bytes[8..16]))] + more, rest))
  }

  function DecodeZone(bytes: seq<byte>, k: nat): Option<(Zone, seq<byte>)> {
    if |bytes| < 12 then None
    else
      match DecodeBounds(bytes[12..], k)
      case None => None
      case Some((bounds, rest)) =>
        Some((Zone(LeNat(bytes[..4]), LeNat(bytes[4..8]), LeNat(bytes[8..12]), bounds), rest))
  }

  lemma BoundsPeel(b: Bounds, more: seq<byte>)
    ensures var bytes := LeBytes(b.min, 8) + (LeBytes(b.max, 8) + more);
            |bytes| >= 16 && bytes[..8] == LeBytes(b.min, 8) && bytes[8..16] == LeBytes(b.max, 8) && bytes[16..] == more
    ensures LeNat(LeBytes(b.min, 8)) == b.min && LeNat(LeBytes(b.max, 8)) == b.max
  {
    U64RoundTrip(b.min);
    U64RoundTrip(b.max);
  }

  lemma {:induction false} BoundsRoundTrip(bounds: seq<Bounds>, rest: seq<byte>)
    ensures DecodeBounds(EncodeBounds(bounds) + rest, |bounds|) == Some((bounds, rest))
    decreases |bounds|
  {
    if bounds == [] {
      assert EncodeBounds(bounds) + rest == rest;
    } else {
      var more := EncodeBounds(bounds[1..]) + rest;
      assert EncodeBounds(bounds) + rest == LeBytes(bounds[0].min, 8) + (LeBytes(bounds[0].max, 8) + more);
      BoundsPeel(bounds[0], more);
      BoundsRoundTrip(bounds[1..], rest);
      hide EncodeBounds, LeBytes, LeNat;
      assert [bounds[0]] + bounds[1..] == bounds;
    }
  }

  /** A zone reads back as it was built, its positions modulo 2^32. */
  lemma ZoneRoundTrip(z: Zone, rest: seq<byte>)
    ensures DecodeZone(EncodeZone(z) + rest, |z.bounds|) == Some((Wrapped(z), rest))
  {
    var bytes := EncodeZone(z) + rest;
    U32RoundTrip(z.id % 0x1_0000_0000);
    U32RoundTrip(z.start % 0x1_0000_0000);
    U32RoundTrip(z.len % 0x1_0000_0000);
    BoundsRoundTrip(z.bounds, rest);
    hide LeBytes, LeNat, EncodeBounds, DecodeBounds;
    assert bytes[..4] == LeBytes(z.id % 0x1_0000_0000, 4);
    assert bytes[4..8] == LeBytes(z.start % 0x1_0000_0000, 4);
    assert bytes[8..12] == LeBytes(z.len % 0x1_0000_0000, 4);
    assert bytes[12..] == EncodeBounds(z.bounds) + rest;
  }

  function EncodeZones(zones: seq<Zone>): seq<byte> {
    if zones == [] then [] else EncodeZones(zones[..|zones| - 1]) + EncodeZone(zones[|zones| - 1])
  }

  function DecodeZones(bytes: seq<byte>, k: nat, count: nat): Option<(seq<Zone>, seq<byte>)>
    decreases count
  {
    if count == 0 then Some(([], bytes))
    else
      match DecodeZone(bytes, k)
      case None => None
      case Some((z, rest)) =>
        match DecodeZones(rest, k, count - 1)
        case None => None
        case Some((more, end)) => Some(([z] + more, end))
  }

  /** What a reader sees of a zone: its positions modulo 2^32. */
  function Wrapped(z: Zone): Zone {
    z.(id := z.id % 0x1_0000_0000, start := z.start % 0x1_0000_0000, len := z.len % 0x1_0000_0000)
  }

  function AllWrapped(zones: seq<Zone>): (r: seq<Zone>)
    ensures |r| == |zones| && forall i :: 0 <= i < |zones| ==> r[i] == Wrapped(zones[i])
  {
    seq(|zones|, i requires 0 <= i < |zones| => Wrapped(zones[i]))
  }

  lemma {:induction false} EncodeZonesCons(z: Zone, zones: seq<Zone>)
    ensures EncodeZones([z] + zones) == EncodeZone(z) + EncodeZones(zones)
    decreases |zones|
  {
    var all := [z] + zones;
    if zones == [] {
      assert all == [z] && all[..0] == [];
      assert EncodeZones([z]) == EncodeZone(z);
      assert EncodeZone(z) + [] == EncodeZone(z);
    } else {
      var front, last := zones[..|zones| - 1], zones[|zones| - 1];
      EncodeZonesCons(z, front);
      assert all[..|all| - 1] == [z] + front && all[|all| - 1] == last;
      hide EncodeZone;
      assert EncodeZones(all) == EncodeZones([z] + front) + EncodeZone(last);
      assert EncodeZone(z) + EncodeZones(front) + EncodeZone(last)
          == EncodeZone(z) + (EncodeZones(front) + EncodeZone(last));
    }
  }

  /** The entry bytes of any zones read back as those zones, wrapped. */
  lemma {:induction false} ZonesRoundTrip(zones: seq<Zone>, k: nat)
    requires forall i :: 0 <= i < |zones| ==> |zones[i].bounds| == k
    ensures DecodeZones(EncodeZones(zones), k, |zones|) == Some((AllWrapped(zones), []))
    decreases |zones|
  {
    hide EncodeZones, DecodeZones, Wrapped, AllWrapped;
    if zones == [] {
      NoZones(k);
    } else {
      var more := zones[1..];
      assert zones == [zones[0]] + more;
      ZonesRoundTrip(more, k);
      ZonesPeel(zones[0], more, k);
      WrappedCons(zones[0], more);
    }
  }

  lemma WrappedCons(z: Zone, more: seq<Zone>)
    ensures AllWrapped([z] + more) == [Wrapped(z)] + AllWrapped(more)
  {
    hide Wrapped;
  }

  lemma NoZones(k: nat)
    ensures DecodeZones(EncodeZones([]), k, 0) == Some(([], []))
  {
  }

  lemma ZonesPeel(z: Zone, more: seq<Zone>, k: nat)
    requires |z.bounds| == k && DecodeZones(EncodeZones(more), k, |more|) == Some((AllWrapped(more), []))
    ensures DecodeZones(EncodeZones([z] + more), k, |more| + 1) == Some(([Wrapped(z)] + AllWrapped(more), []))
  {
    EncodeZonesCons(z, more);
    ZoneRoundTrip(z, EncodeZones(more));
    hide EncodeZones, EncodeZone, DecodeZone;
  }

  // ---- building ----

  /** The zones of the first tiles. */
  function ZonesOf(group: seq<ConvertedColumn>, n: nat, tiles: seq<Tile>): (r: seq<Zone>)
    requires Table(group, n) && forall i :: 0 <= i < |tiles| ==> tiles[i].start + tiles[i].len <= n
    ensures |r| == |tiles|
  {
    seq(|tiles|, i requires 0 <= i < |tiles| => ZoneOf(group, n, i, tiles[i]))
  }

  lemma ZonesSnoc(group: seq<ConvertedColumn>, n: nat, tiles: seq<Tile>, t: Tile)
    requires Table(group, n) && forall i :: 0 <= i < |tiles| ==> tiles[i].start + tiles[i].len <= n
    requires t.start + t.len <= n
    ensures forall i :: 0 <= i < |tiles + [t]| ==> (tiles + [t])[i].start + (tiles + [t])[i].len <= n
    ensures ZonesOf(group, n, tiles + [t]) == ZonesOf(group, n, tiles) + [ZoneOf(group, n, |tiles|, t)]
    ensures EncodeZones(ZonesOf(group, n, tiles + [t]))
            == EncodeZones(ZonesOf(group, n, tiles)) + EncodeZone(ZoneOf(group, n, |tiles|, t))
  {
    var zones, z := ZonesOf(group, n, tiles), ZoneOf(group, n, |tiles|, t);
    hide ZoneOf, Table, EncodeZone;
    assert ZonesOf(group, n, tiles + [t]) == zones + [z];
    assert (zones + [z])[..|zones|] == zones;
  }

  lemma TilesInRange(start: nat, end: nat, step: nat)
    requires start <= end && step > 0
    ensures forall i :: 0 <= i < |Tiles(start, end, step)| ==>
              var t := Tiles(start, end, step)[i]; t.start + t.len <= end && 0 < t.len <= step
  {
    forall i | 0 <= i < |Tiles(start, end, step)|
      ensures var t := Tiles(start, end, step)[i]; t.start + t.len <= end && 0 < t.len <= step
    {
      TileAt(start, end, step, i);
    }
  }

  function AllZones(group: seq<ConvertedColumn>, n: nat, step: nat): (r: seq<Zone>)
    requires Table(group, n) && step > 0
  {
    TilesInRange(0, n, step);
    ZonesOf(group, n, Tiles(0, n, step))
  }

  datatype GroupResult = Unknown | NotKeyable | Selected(group: seq<ConvertedColumn>)

  /** The declared columns, looked up in order; the first that is unknown or has no
      keys decides. */
  function GroupOf(columns: seq<ConvertedColumn>, names: seq<string>): (r: GroupResult)
    ensures r.Selected? ==> |r.group| == |names|
    ensures r.Selected? ==> forall i :: 0 <= i < |names| ==>
              r.group[i] in columns && Keyable(r.group[i]) && r.group[i].name == names[i]
    decreases |names|
  {
    if names == [] then Selected([])
    else
      match GroupOf(columns, names[..|names| - 1])
      case Unknown => Unknown
      case NotKeyable => NotKeyable
      case Selected(front) =>
        match Position(columns, names[|names| - 1])
        case None => Unknown
        case Some(i) => if Keyable(columns[i]) then Selected(front + [columns[i]]) else NotKeyable
  }

  method ZoneBounds(c: ConvertedColumn, lo: nat, hi: nat) returns (b: Bounds)
    requires ColumnOk(c) && lo <= hi <= RowsOf(c)
    ensures b == BoundsOf(c, lo, hi)
  {
    var e := NoKeysYet();
    for row := lo to hi
      invariant e == ExtremesOf(c, lo, row)
    {
      e := Include(e, KeyAt(c, row));
    }
    return if e.any then Bounds(e.min, e.max) else Bounds(0, 0);
  }

  /** The entry bytes of one zone: positions, then two keys per column. */
  method ZoneEntry(group: seq<ConvertedColumn>, n: nat, id: nat, t: Tile) returns (bytes: seq<byte>)
    requires Table(group, n) && t.start + t.len <= n
    ensures bytes == EncodeZone(ZoneOf(group, n, id, t))
  {
    var bounds: seq<Bounds> := [];
    for i := 0 to |group|
      invariant bounds == AllBounds(group, n, t.start, t.start + t.len)[..i]
    {
      var b := ZoneBounds(group[i], t.start, t.start + t.len);
      bounds := bounds + [b];
    }
    assert bounds == AllBounds(group, n, t.start, t.start + t.len);
    return EncodeZone(Zone(id, t.start, t.len, bounds));
  }

  /** `build_composite_zone_index`: the zone count and the entry bytes. */
  method BuildCompositeZones(columns: seq<ConvertedColumn>, n: nat, names: seq<string>, step: nat)
    returns (r: Result<Option<(nat, seq<byte>)>>)
    requires Table(columns, n) && (columns == [] ==> n == 0)
    ensures match GroupOf(columns, names)
            case Unknown => r == Err(BadSchema)
            case NotKeyable => r == Ok(None)
            case Selected(group) =>
              Table(group, n) &&
              if n == 0 then r == Ok(None)
              else if step == 0 then r == Err(BadSchema)
              else if |AllZones(group, n, step)| > U32_MAX then r == Err(ArithOverflow)
              else r == Ok(Some((|AllZones(group, n, step)|, EncodeZones(AllZones(group, n, step)))))
  {
    hide AllZones, EncodeZones, GroupOf, Table;
    var selected := GroupOf(columns, names);
    if selected.Unknown? { return Err(BadSchema); }
    if selected.NotKeyable? { return Ok(None); }
    var group := selected.group;
    GroupTable(columns, n, names);
    if n == 0 { return Ok(None); }
    if step == 0 { return Err(BadSchema); }
    r := WriteZones(group, n, step);
  }

  /** The zone loop: one entry per morsel, numbered in 32 bits. */
  method WriteZones(group: seq<ConvertedColumn>, n: nat, step: nat) returns (r: Result<Option<(nat, seq<byte>)>>)
    requires Table(group, n) && step > 0
    ensures r == if |AllZones(group, n, step)| > U32_MAX then Err(ArithOverflow)
                 else Ok(Some((|AllZones(group, n, step)|, EncodeZones(AllZones(group, n, step)))))
  {
    var entries: seq<byte> := [];
    var zoneCount := 0;
    var start := 0;
    ghost var done: seq<Tile> := [];
    hide *;
    WritingZonesStarts(group, n, step);
    while start < n
      invariant WritingZones(group, n, step, start, done, entries) && zoneCount == |done| <= U32_MAX
    {
      NextZone(group, n, step, start, done, entries);
      var len := Min(n - start, step);
      var tile := Tile(start, len);
      var entry := ZoneEntry(group, n, zoneCount, tile);
      entries := entries + entry;
      done := done + [tile];
      start := start + len;
      if zoneCount == U32_MAX {
        WritingZonesStops(group, n, step, start, done, entries);
        return Err(ArithOverflow);
      }
      zoneCount := zoneCount + 1;
    }
    WritingZonesStops(group, n, step, start, done, entries);
    return Ok(Some((zoneCount, entries)));
  }

  /** Rows before `start` have their zones written. */
  ghost predicate WritingZones(group: seq<ConvertedColumn>, n: nat, step: nat, start: nat, done: seq<Tile>,
                               entries: seq<byte>)
    requires Table(group, n) && step > 0
  {
    && start <= n && TilesDone(0, n, step, start, done)
    && (forall i :: 0 <= i < |done| ==> done[i].start + done[i].len <= n)
    && entries == EncodeZones(ZonesOf(group, n, done))
  }

  lemma WritingZonesStarts(group: seq<ConvertedColumn>, n: nat, step: nat)
    requires Table(group, n) && step > 0
    ensures WritingZones(group, n, step, 0, [], [])
  {
    TilesBegin(0, n, step);
    assert ZonesOf(group, n, []) == [];
  }

  lemma NextZone(group: seq<ConvertedColumn>, n: nat, step: nat, start: nat, done: seq<Tile>, entries: seq<byte>)
    requires Table(group, n) && step > 0 && WritingZones(group, n, step, start, done, entries) && start < n
    ensures var len := Min(n - start, step);
            var t := Tile(start, len);
            && start + len <= n && 0 < len
            && WritingZones(group, n, step, start + len, done + [t],
                            entries + EncodeZone(ZoneOf(group, n, |done|, t)))
  {
    var t := Tile(start, Min(n - start, step));
    ZonesSnoc(group, n, done, t);
    NextTile(0, n, step, start, done);
    hide TilesDone, EncodeZones, EncodeZone, ZonesOf, ZoneOf, Table;
  }

  lemma WritingZonesStops(group: seq<ConvertedColumn>, n: nat, step: nat, start: nat, done: seq<Tile>,
                          entries: seq<byte>)
    requires Table(group, n) && step > 0 && WritingZones(group, n, step, start, done, entries)
    ensures start <= n && |AllZones(group, n, step)| >= |done|
    ensures start == n ==> |AllZones(group, n, step)| == |done| && entries == EncodeZones(AllZones(group, n, step))
  {
    TilesAtLeast(0, n, step, start, done);
    TilesInRange(0, n, step);
    if start == n { TilesFinish(0, n, step, done); }
    hide Tiles, TilesDone, EncodeZones, EncodeZone, ZonesOf, ZoneOf, Table;
  }

  lemma TilesAtLeast(from: nat, end: nat, step: nat, start: nat, done: seq<Tile>)
    requires from <= start <= end && step > 0 && TilesDone(from, end, step, start, done)
    ensures |Tiles(from, end, step)| >= |done|
  {
  }

  lemma GroupTable(columns: seq<ConvertedColumn>, n: nat, names: seq<string>)
    requires Table(columns, n) && GroupOf(columns, names).Selected?
    ensures Table(GroupOf(columns, names).group, n)
  {
  }

  predicate CoversRow(z: Zone, row: nat) {
    z.start <= row < z.start + z.len
  }

  predicate Admits(z: Zone, i: nat, key: Option<u64>) {
    i < |z.bounds| && (key.Some? ==> z.bounds[i].min <= key.value <= z.bounds[i].max)
  }

  /** Where the last zone of a table starts. */
  function LastStart(n: nat, step: nat): nat
    requires n > 0 && step > 0
  {
    (n - 1) - (n - 1) % step
  }

  lemma LastZone(group: seq<ConvertedColumn>, n: nat, step: nat)
    requires Table(group, n) && n > 0 && step > 0
    ensures var zones := AllZones(group, n, step);
            && zones != [] && zones[|zones| - 1].start == LastStart(n, step) && (n - 1) / step == |zones| - 1
            && forall z :: 0 <= z < |zones| ==>
                 && zones[z].id == z && |zones[z].bounds| == |group| && zones[z].start <= LastStart(n, step)
                 && 0 < zones[z].len <= step && zones[z].start + zones[z].len <= n
                 && (if z == |zones| - 1 then zones[z].start + zones[z].len == n
                     else zones[z].start + zones[z].len <= LastStart(n, step))
  {
    LastTile(n, step);
    hide Tiles, LastStart, BoundsOf;
  }

  lemma LastTile(n: nat, step: nat)
    requires n > 0 && step > 0
    ensures var tiles := Tiles(0, n, step);
            && |tiles| == (n - 1) / step + 1 && tiles[(n - 1) / step].start == LastStart(n, step)
            && forall z :: 0 <= z < |tiles| ==>
                 && tiles[z].start <= LastStart(n, step) && 0 < tiles[z].len <= step
                 && tiles[z].start + tiles[z].len <= n
                 && (if z == (n - 1) / step then tiles[z].start + tiles[z].len == n
                     else tiles[z].start + tiles[z].len <= LastStart(n, step))
  {
    TilesInRange(0, n, step);
    var tiles, last := Tiles(0, n, step), (n - 1) / step;
    TileOfRow(0, n, step, n - 1, last);
    TilesReach(0, n, step, last + 1);
    TileAt(0, n, step, last);
    assert (last + 1) * step == last * step + step;
    hide Tiles;
    forall z | 0 <= z < |tiles|
      ensures if z == last then tiles[z].start + tiles[z].len == n
        else tiles[z].start + tiles[z].len <= LastStart(n, step)
    {
      TileAt(0, n, step, z);
      if z < last { StepsGrow(z, last, step); }
    }
  }

  /** The zones a reader of the entry bytes sees. */
  function ZonesRead(group: seq<ConvertedColumn>, n: nat, step: nat): Option<(seq<Zone>, seq<byte>)>
    requires Table(group, n) && step > 0
  {
    DecodeZones(EncodeZones(AllZones(group, n, step)), |group|, |AllZones(group, n, step)|)
  }

  lemma ReadWrapped(group: seq<ConvertedColumn>, n: nat, step: nat)
    requires Table(group, n) && n > 0 && step > 0
    ensures ZonesRead(group, n, step) == Some((AllWrapped(AllZones(group, n, step)), []))
  {
    LastZone(group, n, step);
    hide AllZones, Table, EncodeZones, DecodeZones;
    ZonesRoundTrip(AllZones(group, n, step), |group|);
  }

  /** The entry bytes decode to the very zones that were built exactly when the last
      zone starts below 2^32. */
  lemma ZonesDecodeIff(group: seq<ConvertedColumn>, n: nat, step: nat)
    requires Table(group, n) && n > 0 && 0 < step <= U32_MAX && |AllZones(group, n, step)| <= U32_MAX
    ensures ZonesRead(group, n, step) == Some((AllZones(group, n, step), [])) <==> LastStart(n, step) <= U32_MAX
  {
    var zones := AllZones(group, n, step);
    ReadWrapped(group, n, step);
    LastZone(group, n, step);
    hide ZonesRead, AllZones, Table, LastStart;
    if LastStart(n, step) <= U32_MAX {
      forall z | 0 <= z < |zones| ensures Wrapped(zones[z]) == zones[z] {
        Unwrapped(zones[z]);
      }
      assert AllWrapped(zones) == zones;
    } else {
      var last := |zones| - 1;
      assert AllWrapped(zones)[last].start == zones[last].start % 0x1_0000_0000;
    }
  }

  lemma Unwrapped(z: Zone)
    requires z.id <= U32_MAX && z.start <= U32_MAX && z.len <= U32_MAX
    ensures Wrapped(z) == z
  {
  }

  /** Pruning never under-includes as long as the last zone starts below 2^32: the
      decoded zones tile all rows, and every key of a row lies between its zone's
      bounds for its column. */
  lemma ZonesNeverUnderInclude(group: seq<ConvertedColumn>, n: nat, step: nat, row: nat, i: nat, z: nat)
    requires Table(group, n) && n > 0 && 0 < step <= U32_MAX && |AllZones(group, n, step)| <= U32_MAX
    requires LastStart(n, step) <= U32_MAX
    requires row < n && i < |group| && z < |AllZones(group, n, step)|
    ensures ZonesRead(group, n, step).Some? && |ZonesRead(group, n, step).value.0| == |AllZones(group, n, step)|
    ensures RowKept(ZonesRead(group, n, step).value.0, group, n, step, row, i, z)
  {
    hide *;
    ZonesDecodeIff(group, n, step);
    ZoneAdmits(group, n, step, row, i, z);
  }

  ghost predicate SomeZoneCovers(zones: seq<Zone>, row: nat) {
    exists z :: 0 <= z < |zones| && CoversRow(zones[z], row)
  }

  /** The condition is exact: once the last zone starts at or past 2^32, no decoded
      zone covers the last row, so pruning loses it. */
  lemma ZonesLoseRowsIff(group: seq<ConvertedColumn>, n: nat, step: nat)
    requires Table(group, n) && n > 0 && 0 < step <= U32_MAX && |AllZones(group, n, step)| <= U32_MAX
    ensures ZonesRead(group, n, step).Some?
    ensures SomeZoneCovers(ZonesRead(group, n, step).value.0, n - 1) <==> LastStart(n, step) <= U32_MAX
  {
    var zones := AllZones(group, n, step);
    ReadWrapped(group, n, step);
    LastZone(group, n, step);
    var read, last := AllWrapped(zones), |zones| - 1;
    hide ZonesRead, AllZones, Table;
    if LastStart(n, step) <= U32_MAX {
      Unwrapped(zones[last]);
      assert CoversRow(read[last], n - 1);
    } else {
      forall z | 0 <= z < |zones| ensures !CoversRow(read[z], n - 1) {
        if zones[z].start > U32_MAX { WrapMisses(zones[z], n); } else { Unwrapped(zones[z]); }
      }
    }
  }

  /** A wrapped zone lies before the last row. */
  lemma WrapMisses(z: Zone, n: nat)
    requires z.start > U32_MAX && z.len <= U32_MAX && 0 < z.start + z.len <= n
    ensures !CoversRow(Wrapped(z), n - 1)
  {
  }

  /** Among the zones, exactly number row / step covers the row, and it admits the
      row's key in column i. */
  ghost predicate RowKept(zones: seq<Zone>, group: seq<ConvertedColumn>, n: nat, step: nat, row: nat, i: nat, z: nat)
    requires Table(group, n) && step > 0 && row < n && i < |group| && z < |zones|
  {
    && row / step < |zones| && (CoversRow(zones[z], row) <==> z == row / step)
    && Admits(zones[row / step], i, KeyAt(group[i], row))
  }

  lemma ZoneAdmits(group: seq<ConvertedColumn>, n: nat, step: nat, row: nat, i: nat, z: nat)
    requires Table(group, n) && step > 0 && row < n && i < |group| && z < |AllZones(group, n, step)|
    ensures RowKept(AllZones(group, n, step), group, n, step, row, i, z)
  {
    var tiles := Tiles(0, n, step);
    TilesInRange(0, n, step);
    TileOfRow(0, n, step, row, z);
    TileOfRow(0, n, step, row, row / step);
    var t := tiles[row / step];
    ExtremesExact(group[i], t.start, t.start + t.len);
    hide KeyAt, ColumnOk, Tiles, ExtremesOf;
  }
}
