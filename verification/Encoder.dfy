/**
 The PackStream v1 encoder as functions: the bytes each write appends, and the first collection
 length the encoder refused to emit.
 */
module Encoder {
  import opened Bytes
  import opened Wrappers
  import opened Values

  const NULL: byte := 0xC0
  const FLOAT_64: byte := 0xC1
  const FALSE: byte := 0xC2
  const TRUE: byte := 0xC3
  const INT_8: byte := 0xC8
  const INT_16: byte := 0xC9
  const INT_32: byte := 0xCA
  const INT_64: byte := 0xCB
  const BYTES_8: byte := 0xCC
  const BYTES_16: byte := 0xCD
  const BYTES_32: byte := 0xCE
  const TINY_STRUCT_BASE: byte := 0xB0

  /** The four markers of a length-prefixed class: tiny (length in the low nibble), 8, 16, 32 bit. */
  datatype Family = Family(tiny: byte, m8: byte, m16: byte, m32: byte)

  const STRING := Family(0x80, 0xD0, 0xD1, 0xD2)
  const LIST := Family(0x90, 0xD4, 0xD5, 0xD6)
  const MAP := Family(0xA0, 0xD8, 0xD9, 0xDA)

  predicate IsFamily(f: Family) {
    f == STRING || f == LIST || f == MAP
  }

  const DATE: byte := 0x44
  const TIME: byte := 0x54
  const LOCAL_TIME: byte := 0x74
  const DATE_TIME: byte := 0x49
  const DATE_TIME_ZONE_ID: byte := 0x69
  const LOCAL_DATE_TIME: byte := 0x64
  const DURATION: byte := 0x45
  const POINT_2D: byte := 0x58
  const POINT_3D: byte := 0x59

  const MAX_COLLECTION_LEN := I32_MAX
  const MAX_STRUCT_FIELDS := 15
  const MAX_ENCODE_DEPTH := 1_000

  // ---- Items -------------------------------------------------------------------------------

  function IntBytes(n: i64): (s: bytes)
    ensures 1 <= |s| <= 9
  {
    Pow256Values();
    if -16 <= n <= 127 then [if n < 0 then n + 0x100 else n]
    else if -0x80 <= n < 0x80 then [INT_8] + BeSigned(1, n)
    else if -0x8000 <= n < 0x8000 then [INT_16] + BeSigned(2, n)
    else if -0x8000_0000 <= n < 0x8000_0000 then [INT_32] + BeSigned(4, n)
    else [INT_64] + BeSigned(8, n)
  }

  function FloatBytes(bits: Double): (s: bytes)
    ensures |s| == 9
  {
    [FLOAT_64] + Be(8, bits)
  }

  /** The header of a collection of `len` items; nothing at all when no in-spec header exists. */
  function Header(f: Family, len: nat): (s: bytes)
    requires IsFamily(f)
    ensures len <= MAX_COLLECTION_LEN ==> 1 <= |s| <= 5
  {
    if len <= 15 then [f.tiny + len]
    else if len <= 0xFF then [f.m8] + Be(1, len)
    else if len <= 0xFFFF then [f.m16] + Be(2, len)
    else if len > MAX_COLLECTION_LEN then []
    else [f.m32] + Be(4, len)
  }

  function StringBytes(s: bytes): bytes {
    Header(STRING, |s|) + s
  }

  /** A byte string has no tiny form. */
  function BinaryHeader(len: nat): (s: bytes)
    requires len <= MAX_COLLECTION_LEN
    ensures 2 <= |s| <= 5
  {
    if len <= 0xFF then [BYTES_8] + Be(1, len)
    else if len <= 0xFFFF then [BYTES_16] + Be(2, len)
    else [BYTES_32] + Be(4, len)
  }

  /** An over-long byte string is dropped, header and body. */
  function BinaryBytes(b: bytes): bytes {
    if |b| > MAX_COLLECTION_LEN then [] else BinaryHeader(|b|) + b
  }

  function StructHeader(tag: byte, fields: nat): (s: bytes)
    requires fields <= MAX_STRUCT_FIELDS
    ensures |s| == 2
  {
    [TINY_STRUCT_BASE + fields, tag]
  }

  // ---- Values ------------------------------------------------------------------------------

  function ClampI64(n: int): (r: i64) {
    if n < I64_MIN then I64_MIN else if n > I64_MAX then I64_MAX else n
  }

  predicate IsTemporalTag(tag: byte) {
    tag in {DATE, LOCAL_TIME, TIME, LOCAL_DATE_TIME, DATE_TIME, DATE_TIME_ZONE_ID, DURATION}
  }

  function TemporalFields(tag: byte): nat
    requires IsTemporalTag(tag)
  {
    if tag == DATE || tag == LOCAL_TIME then 1
    else if tag == TIME || tag == LOCAL_DATE_TIME then 2
    else if tag == DURATION then 4 else 3
  }

  predicate IsTemporal(v: Value) {
    v.Date? || v.LocalTime? || v.ZonedTime? || v.LocalDateTime? || v.ZonedDateTime? || v.Duration?
  }

  function TemporalTag(v: Value): (tag: byte)
    requires IsTemporal(v)
    ensures IsTemporalTag(tag)
  {
    match v
    case Date(_) => DATE
    case LocalTime(_) => LOCAL_TIME
    case ZonedTime(_, _) => TIME
    case LocalDateTime(_, _) => LOCAL_DATE_TIME
    case ZonedDateTime(_, _, _, zone) => if zone == [] then DATE_TIME else DATE_TIME_ZONE_ID
    case Duration(_, _, _, _) => DURATION
  }

  /** The fields of a temporal structure; a zoned date-time travels as its UTC instant. */
  function TemporalBody(v: Value): bytes
    requires IsTemporal(v)
  {
    match v
    case Date(d) => IntBytes(d)
    case LocalTime(n) => IntBytes(ClampI64(n))
    case ZonedTime(n, o) => IntBytes(ClampI64(n)) + IntBytes(o)
    case LocalDateTime(s, n) => IntBytes(s) + IntBytes(n)
    case ZonedDateTime(s, n, o, z) =>
      IntBytes(ClampI64(s - o)) + IntBytes(n) + if z == [] then IntBytes(o) else StringBytes(z)
    case Duration(m, d, s, n) => IntBytes(m) + IntBytes(d) + IntBytes(s) + IntBytes(n)
  }

  function TemporalBytes(v: Value): bytes
    requires IsTemporal(v)
  {
    StructHeader(TemporalTag(v), TemporalFields(TemporalTag(v))) + TemporalBody(v)
  }

  function CoordBytes(coords: seq<Double>): bytes {
    if coords == [] then [] else FloatBytes(coords[0]) + CoordBytes(coords[1..])
  }

  function PointBytes(p: SpatialPoint): bytes {
    StructHeader(if p.crs.Dimensions() == 2 then POINT_2D else POINT_3D, 1 + p.crs.Dimensions())
    + IntBytes(p.crs.Srid()) + CoordBytes(p.coords)
  }

  /** The bytes of `v` at nesting level `depth`; a level past the cap is written as null. */
  function Pack(v: Value, depth: nat): bytes
    decreases v, 1
  {
    if depth > MAX_ENCODE_DEPTH then [NULL] else
    match v
    case Null => [NULL]
    case Boolean(b) => [if b then TRUE else FALSE]
    case Integer(n) => IntBytes(n)
    case Float(bits) => FloatBytes(bits)
    case String(s) => StringBytes(s)
    case Binary(b) => BinaryBytes(b)
    case List(items) => Header(LIST, |items|) + PackItems(items, depth + 1)
    case Map(entries) => Header(MAP, |entries|) + PackEntries(entries, depth + 1)
    case Point(p) => PointBytes(p)
    case _ => TemporalBytes(v)
  }

  function PackItems(items: seq<Value>, depth: nat): bytes
    decreases items, 0
  {
    if items == [] then [] else Pack(items[0], depth) + PackItems(items[1..], depth)
  }

  function PackEntries(entries: seq<Entry>, depth: nat): bytes
    decreases entries, 0
  {
    if entries == [] then []
    else StringBytes(entries[0].key) + Pack(entries[0].value, depth) + PackEntries(entries[1..], depth)
  }

  // ---- The poison an over-long collection leaves -------------------------------------------

  /** The first of two recorded over-long lengths. */
  function First(a: Option<nat>, b: Option<nat>): Option<nat> {
    if a.Some? then a else b
  }

  function Refused(len: nat): Option<nat> {
    if len > MAX_COLLECTION_LEN then Some(len) else None
  }

  function Overlong(v: Value, depth: nat): Option<nat>
    decreases v, 1
  {
    if depth > MAX_ENCODE_DEPTH then None else
    match v
    case String(s) => Refused(|s|)
    case Binary(b) => Refused(|b|)
    case List(items) => First(Refused(|items|), OverlongItems(items, depth + 1))
    case Map(entries) => First(Refused(|entries|), OverlongEntries(entries, depth + 1))
    case ZonedDateTime(_, _, _, z) => Refused(|z|)
    case _ => None
  }

  function OverlongItems(items: seq<Value>, depth: nat): Option<nat>
    decreases items, 0
  {
    if items == [] then None else First(Overlong(items[0], depth), OverlongItems(items[1..], depth))
  }

  function OverlongEntries(entries: seq<Entry>, depth: nat): Option<nat>
    decreases entries, 0
  {
    if entries == [] then None
    else First(Refused(|entries[0].key|),
               First(Overlong(entries[0].value, depth), OverlongEntries(entries[1..], depth)))
  }
}
