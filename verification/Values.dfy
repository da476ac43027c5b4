/** The property values PackStream carries, and the domain on which the codec is exact. */
module Values {
  import opened Bytes
  import opened Wrappers
  import Utf8

  /** An IEEE-754 double, as its 64-bit pattern: the codec never computes with it. */
  type Double = u64

  datatype Crs = Cartesian | Cartesian3D | Wgs84 | Wgs84_3D {
    function Srid(): i64 {
      match this
      case Cartesian => 7203
      case Cartesian3D => 9157
      case Wgs84 => 4326
      case Wgs84_3D => 4979
    }

    function Dimensions(): nat {
      match this
      case Cartesian => 2
      case Wgs84 => 2
      case _ => 3
    }

    static function FromSrid(srid: i64): (r: Option<Crs>)
      ensures r.Some? ==> r.value.Srid() == srid
      ensures r.None? ==> forall c: Crs :: c.Srid() != srid
    {
      if srid == 7203 then Some(Cartesian)
      else if srid == 9157 then Some(Cartesian3D)
      else if srid == 4326 then Some(Wgs84)
      else if srid == 4979 then Some(Wgs84_3D)
      else None
    }
  }

  datatype RawPoint = RawPoint(crs: Crs, coords: seq<Double>)

  /** A point carries exactly the coordinates its reference system has. */
  type SpatialPoint = p: RawPoint | |p.coords| == p.crs.Dimensions() witness RawPoint(Cartesian, [0, 0])

  datatype Value =
    | Null
    | Boolean(b: bool)
    | Integer(n: i64)
    | Float(bits: Double)
    | String(text: bytes)
    | Binary(data: bytes)
    | List(items: seq<Value>)
    | Map(entries: seq<Entry>)
    | Date(daysSinceEpoch: i64)
    | LocalTime(nanosOfDay: u64)
    | ZonedTime(timeOfDay: u64, timeOffset: i32)
    | LocalDateTime(epochSeconds: i64, nanos: u32)
    | ZonedDateTime(localSeconds: i64, localNanos: u32, offset: i32, zone: bytes)
    | Duration(months: i64, days: i64, seconds: i64, durationNanos: i32)
    | Point(point: SpatialPoint)

  datatype Entry = Entry(key: bytes, value: Value)

  const NANOS_PER_SECOND := 1_000_000_000
  const NANOS_PER_DAY := 86_400_000_000_000
  const MAX_TZ_OFFSET_SECONDS := 64_800
  const MIN_EPOCH_DAY := -365_243_219_162
  const MAX_EPOCH_DAY := 365_241_780_471

  /**
   What the codec takes from outside: the IANA zone rules (canonical id and offset of a zone at a
   UTC instant, or nothing for an unknown zone) and the integer-to-double conversion.
   */
  datatype Host = Host(localize: (bytes, i64) -> Option<(bytes, i32)>, toDouble: i64 -> Double)

  /**
   The zone table's own promises: a canonical id is a non-empty string that resolves to itself and
   differs from the id looked up in letter case only.
   */
  ghost predicate ValidHost(h: Host) {
    forall zone: bytes, t: i64 ::
      h.localize(zone, t).Some? ==>
        var (id, offset) := h.localize(zone, t).value;
        id != [] && Utf8.Valid(id) && |id| == |zone| && h.localize(id, t) == Some((id, offset))
  }

  ghost predicate DistinctKeys(entries: seq<Entry>) {
    forall i, j :: 0 <= i < j < |entries| ==> entries[i].key != entries[j].key
  }

  /** A zoned date-time whose UTC instant is representable and whose offset belongs to its zone. */
  ghost predicate CanonicalZoned(h: Host, seconds: i64, nanos: u32, offset: i32, zone: bytes) {
    && FitsI64(seconds - offset)
    && nanos < NANOS_PER_SECOND
    && if zone == [] then -MAX_TZ_OFFSET_SECONDS <= offset <= MAX_TZ_OFFSET_SECONDS
       else Utf8.Valid(zone) && h.localize(zone, seconds - offset) == Some((zone, offset))
  }

  /** The values the decoder can produce: distinct keys, real strings, normalised temporals. */
  ghost predicate Canonical(h: Host, v: Value)
    decreases v, 1
  {
    match v
    case String(s) => Utf8.Valid(s)
    case List(items) => CanonicalItems(h, items)
    case Map(entries) => CanonicalEntries(h, entries) && DistinctKeys(entries)
    case Date(d) => MIN_EPOCH_DAY <= d <= MAX_EPOCH_DAY
    case LocalTime(n) => n < NANOS_PER_DAY
    case ZonedTime(n, o) => n < NANOS_PER_DAY && -MAX_TZ_OFFSET_SECONDS <= o <= MAX_TZ_OFFSET_SECONDS
    case LocalDateTime(_, n) => n < NANOS_PER_SECOND
    case ZonedDateTime(s, n, o, z) => CanonicalZoned(h, s, n, o, z)
    case Duration(_, _, _, n) => 0 <= n < NANOS_PER_SECOND
    case _ => true
  }

  ghost predicate CanonicalItems(h: Host, items: seq<Value>)
    decreases items, 0
  {
    items == [] || (Canonical(h, items[0]) && CanonicalItems(h, items[1..]))
  }

  ghost predicate CanonicalEntries(h: Host, entries: seq<Entry>)
    decreases entries, 0
  {
    entries == [] || (
      && Utf8.Valid(entries[0].key)
      && Canonical(h, entries[0].value)
      && CanonicalEntries(h, entries[1..]))
  }

  /** How many lists, maps and structures are open at the deepest point of `v`. */
  function Nesting(v: Value): nat
    decreases v, 1
  {
    match v
    case List(items) => 1 + ItemsNesting(items)
    case Map(entries) => 1 + EntriesNesting(entries)
    case Null => 0
    case Boolean(_) => 0
    case Integer(_) => 0
    case Float(_) => 0
    case String(_) => 0
    case Binary(_) => 0
    case _ => 1
  }

  function Max(a: nat, b: nat): nat {
    if a >= b then a else b
  }

  function ItemsNesting(items: seq<Value>): nat
    decreases items, 0
  {
    if items == [] then 0 else Max(Nesting(items[0]), ItemsNesting(items[1..]))
  }

  function EntriesNesting(entries: seq<Entry>): nat
    decreases entries, 0
  {
    if entries == [] then 0 else Max(Nesting(entries[0].value), EntriesNesting(entries[1..]))
  }

  /** The list items and map entries in `v`, at every level. */
  function Elements(v: Value): nat
    decreases v, 1
  {
    match v
    case List(items) => ItemsElements(items)
    case Map(entries) => EntriesElements(entries)
    case _ => 0
  }

  function ItemsElements(items: seq<Value>): (n: nat)
    ensures n >= |items|
    decreases items, 0
  {
    if items == [] then 0 else 1 + Elements(items[0]) + ItemsElements(items[1..])
  }

  function EntriesElements(entries: seq<Entry>): (n: nat)
    ensures n >= |entries|
    decreases entries, 0
  {
    if entries == [] then 0 else 1 + Elements(entries[0].value) + EntriesElements(entries[1..])
  }

  /** No string, byte string or zone id in `v` is longer than a signed 32-bit header can say. */
  predicate Fits(v: Value)
    decreases v, 1
  {
    match v
    case String(s) => |s| <= I32_MAX
    case Binary(b) => |b| <= I32_MAX
    case List(items) => |items| <= I32_MAX && FitsItems(items)
    case Map(entries) => |entries| <= I32_MAX && FitsEntries(entries)
    case ZonedDateTime(_, _, _, z) => |z| <= I32_MAX
    case _ => true
  }

  predicate FitsItems(items: seq<Value>)
    decreases items, 0
  {
    items == [] || (Fits(items[0]) && FitsItems(items[1..]))
  }

  predicate FitsEntries(entries: seq<Entry>)
    decreases entries, 0
  {
    entries == [] || (|entries[0].key| <= I32_MAX && Fits(entries[0].value) && FitsEntries(entries[1..]))
  }
}
