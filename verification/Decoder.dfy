/**
 The PackStream v1 decoder as functions of the unread bytes, the nesting depth and the remaining
 element budget.
 */
module Decoder {
  import opened Bytes
  import opened Values
  import opened Encoder
  import Entries
  import Utf8

  const MAX_DECODE_DEPTH := 64
  const MAX_DECODE_ELEMENTS := 4_194_304
  const MAX_STRUCT_TAG := 0x7F

  const NODE: byte := 0x4E
  const RELATIONSHIP: byte := 0x52
  const UNBOUND_RELATIONSHIP: byte := 0x72
  const PATH: byte := 0x50

  datatype DecodeError =
    | UnexpectedEnd
    | Truncated
    | BadMarker(marker: byte)
    | BadUtf8
    | BadSignature(tag: byte)
    | TooDeep
    | TooManyElements
    | WrongFieldCount(tag: byte, got: nat)
    | OutOfRange(tag: byte)
    | InstantOverflow(tag: byte)
    | UnknownZone
    | UnknownSrid
    | WrongDimensions
    | NotAFloat
    | GraphEntity(tag: byte)
    | UnknownTag(tag: byte)
    | NotDefinedAtVersion(tag: byte)
    | WrongFieldType(tag: byte)
    | MissingFetchSize(tag: byte)

  /** One item read off the front of the input. */
  datatype Read<+T> = Got(value: T, rest: bytes) | Bad(error: DecodeError) {
    predicate IsFailure() {
      Bad?
    }

    function PropagateFailure<U>(): Read<U>
      requires Bad?
    {
      Bad(error)
    }

    function Extract(): (T, bytes)
      requires Got?
    {
      (value, rest)
    }

    function At(budget: nat): Decoded<T> {
      match this
      case Got(v, t) => Ok(v, t, budget)
      case Bad(e) => Err(e)
    }
  }

  /** A decoded value with the unread bytes and the element budget left. */
  datatype Decoded<+T> = Ok(value: T, rest: bytes, budget: nat) | Err(error: DecodeError) {
    predicate IsFailure() {
      Err?
    }

    function PropagateFailure<U>(): Decoded<U>
      requires Err?
    {
      Err(error)
    }

    function Extract(): (T, bytes, nat)
      requires Ok?
    {
      (value, rest, budget)
    }
  }

  // ---- Items -------------------------------------------------------------------------------

  function ReadByte(s: bytes): (r: Read<byte>)
    ensures r.Got? ==> |r.rest| < |s|
  {
    if s == [] then Bad(UnexpectedEnd) else Got(s[0], s[1..])
  }

  function ReadSlice(n: nat, s: bytes): (r: Read<bytes>)
    ensures r.Got? ==> |r.value| == n && s == r.value + r.rest
    ensures r.Got? <==> n <= |s|
  {
    if n > |s| then Bad(Truncated) else Got(s[..n], s[n..])
  }

  function ReadLength(width: nat, s: bytes): (r: Read<nat>)
    ensures r.Got? ==> r.value < Pow256(width) && |s| == width + |r.rest|
  {
    var (field, t) :- ReadSlice(width, s);
    Got(UnBe(field), t)
  }

  function ReadSigned(width: nat, s: bytes): (r: Read<i64>)
    requires width in {1, 2, 4, 8}
    ensures r.Got? ==> |s| == width + |r.rest|
  {
    Pow256Values();
    var (field, t) :- if width == 1 && s == [] then Bad(UnexpectedEnd) else ReadSlice(width, s);
    Got(AsSigned(width, UnBe(field)), t)
  }

  predicate IsTinyInt(m: byte) {
    m <= 0x7F || m >= 0xF0
  }

  function ReadInt(s: bytes): (r: Read<i64>)
    ensures r.Got? ==> |r.rest| < |s|
  {
    var (m, t) :- ReadByte(s);
    if m == INT_8 then ReadSigned(1, t)
    else if m == INT_16 then ReadSigned(2, t)
    else if m == INT_32 then ReadSigned(4, t)
    else if m == INT_64 then ReadSigned(8, t)
    else if IsTinyInt(m) then Got(if m >= 0xF0 then m - 0x100 else m, t)
    else Bad(BadMarker(m))
  }

  predicate InFamily(f: Family, m: byte) {
    f.tiny <= m <= f.tiny + 0x0F || m == f.m8 || m == f.m16 || m == f.m32
  }

  function ReadHeader(f: Family, s: bytes): (r: Read<nat>)
    requires IsFamily(f)
    ensures r.Got? ==> |r.rest| < |s| && r.value < 0x1_0000_0000
  {
    Pow256Values();
    var (m, t) :- ReadByte(s);
    if f.tiny <= m <= f.tiny + 0x0F then Got(m - f.tiny, t)
    else if m == f.m8 then ReadLength(1, t)
    else if m == f.m16 then ReadLength(2, t)
    else if m == f.m32 then ReadLength(4, t)
    else Bad(BadMarker(m))
  }

  function ReadString(s: bytes): (r: Read<bytes>)
    ensures r.Got? ==> Utf8.Valid(r.value) && |r.value| + |r.rest| < |s|
  {
    var (n, t) :- ReadHeader(STRING, s);
    var (text, rest) :- ReadSlice(n, t);
    if Utf8.Valid(text) then Got(text, rest) else Bad(BadUtf8)
  }

  predicate IsBinary(m: byte) {
    m == BYTES_8 || m == BYTES_16 || m == BYTES_32
  }

  function ReadBinaryHeader(s: bytes): (r: Read<nat>)
    ensures r.Got? ==> |r.rest| < |s|
  {
    var (m, t) :- ReadByte(s);
    if m == BYTES_8 then ReadLength(1, t)
    else if m == BYTES_16 then ReadLength(2, t)
    else if m == BYTES_32 then ReadLength(4, t)
    else Bad(BadMarker(m))
  }

  function ReadBinary(s: bytes): (r: Read<bytes>)
    ensures r.Got? ==> |r.value| + |r.rest| < |s|
  {
    var (n, body) :- ReadBinaryHeader(s);
    ReadSlice(n, body)
  }

  predicate IsStruct(m: byte) {
    TINY_STRUCT_BASE <= m <= TINY_STRUCT_BASE + 0x0F
  }

  function ReadStructHeader(s: bytes): (r: Read<(byte, nat)>)
    ensures r.Got? ==> |r.rest| == |s| - 2 && r.value.0 <= MAX_STRUCT_TAG && r.value.1 <= MAX_STRUCT_FIELDS
  {
    var (m, t) :- ReadByte(s);
    if !IsStruct(m) then Bad(BadMarker(m)) else
    var (tag, rest) :- ReadByte(t);
    if tag > MAX_STRUCT_TAG then Bad(BadSignature(tag)) else Got((tag, m - TINY_STRUCT_BASE), rest)
  }

  // ---- Temporal structures -----------------------------------------------------------------

  /** Whole seconds to carry and the sub-second rest of a raw nanosecond count. */
  function SplitNanos(nanos: i64): (r: (i64, u32))
    ensures nanos == r.0 * NANOS_PER_SECOND + r.1 && r.1 < NANOS_PER_SECOND
  {
    (nanos / NANOS_PER_SECOND, nanos % NANOS_PER_SECOND)
  }

  function CheckedSeconds(seconds: i64, carry: i64, tag: byte, rest: bytes): Read<i64> {
    if FitsI64(seconds + carry) then Got(seconds + carry, rest) else Bad(InstantOverflow(tag))
  }

  function ReadI32(tag: byte, s: bytes): (r: Read<i32>)
    ensures r.Got? ==> |r.rest| < |s|
  {
    var (n, t) :- ReadInt(s);
    if FitsI32(n) then Got(n, t) else Bad(OutOfRange(tag))
  }

  function ReadOffset(tag: byte, s: bytes): (r: Read<i32>)
    ensures r.Got? ==> |r.rest| < |s| && -MAX_TZ_OFFSET_SECONDS <= r.value <= MAX_TZ_OFFSET_SECONDS
  {
    var (n, t) :- ReadI32(tag, s);
    if -MAX_TZ_OFFSET_SECONDS <= n <= MAX_TZ_OFFSET_SECONDS then Got(n, t) else Bad(OutOfRange(tag))
  }

  function ZonedFromUtc(utc: i64, nanos: u32, offset: i32, zone: bytes, tag: byte, rest: bytes): Read<Value> {
    if FitsI64(utc + offset) then Got(ZonedDateTime(utc + offset, nanos, offset, zone), rest)
    else Bad(InstantOverflow(tag))
  }

  function ReadDate(s: bytes): Read<Value> {
    var (d, t) :- ReadInt(s);
    if MIN_EPOCH_DAY <= d <= MAX_EPOCH_DAY then Got(Date(d), t) else Bad(OutOfRange(DATE))
  }

  function ReadLocalTime(s: bytes): Read<Value> {
    var (n, t) :- ReadInt(s);
    if 0 <= n < NANOS_PER_DAY then Got(LocalTime(n), t) else Bad(OutOfRange(LOCAL_TIME))
  }

  function ReadTime(s: bytes): Read<Value> {
    var (n, t) :- ReadInt(s);
    var (offset, rest) :- ReadOffset(TIME, t);
    Got(ZonedTime(n % NANOS_PER_DAY, offset), rest)
  }

  function ReadLocalDateTime(s: bytes): Read<Value> {
    var (secs, t) :- ReadInt(s);
    var (raw, rest) :- ReadInt(t);
    var (carry, nanos) := SplitNanos(raw);
    var (total, rest') :- CheckedSeconds(secs, carry, LOCAL_DATE_TIME, rest);
    Got(LocalDateTime(total, nanos), rest')
  }

  function ReadDateTime(s: bytes): Read<Value> {
    var (secs, t) :- ReadInt(s);
    var (raw, t2) :- ReadI32(DATE_TIME, t);
    var (carry, nanos) := SplitNanos(raw);
    var (offset, rest) :- ReadOffset(DATE_TIME, t2);
    var (utc, rest') :- CheckedSeconds(secs, carry, DATE_TIME, rest);
    ZonedFromUtc(utc, nanos, offset, [], DATE_TIME, rest')
  }

  function ReadDateTimeZoneId(h: Host, s: bytes): Read<Value> {
    var (secs, t) :- ReadInt(s);
    var (raw, t2) :- ReadI32(DATE_TIME_ZONE_ID, t);
    var (carry, nanos) := SplitNanos(raw);
    var (zone, rest) :- ReadString(t2);
    var (utc, rest') :- CheckedSeconds(secs, carry, DATE_TIME_ZONE_ID, rest);
    match h.localize(zone, utc)
    case None => Bad(UnknownZone)
    case Some((id, offset)) => ZonedFromUtc(utc, nanos, offset, id, DATE_TIME_ZONE_ID, rest')
  }

  function ReadDuration(s: bytes): Read<Value> {
    var (months, t) :- ReadInt(s);
    var (days, t2) :- ReadInt(t);
    var (secs, t3) :- ReadInt(t2);
    var (raw, rest) :- ReadInt(t3);
    var (carry, nanos) := SplitNanos(raw);
    var (total, rest') :- CheckedSeconds(secs, carry, DURATION, rest);
    Got(Duration(months, days, total, nanos), rest')
  }

  /** The body of a temporal structure, after its header. */
  function ReadTemporal(h: Host, tag: byte, s: bytes): (r: Read<Value>)
    requires IsTemporalTag(tag)
    ensures r.Got? ==> |r.rest| < |s|
  {
    if tag == DATE then ReadDate(s)
    else if tag == LOCAL_TIME then ReadLocalTime(s)
    else if tag == TIME then ReadTime(s)
    else if tag == LOCAL_DATE_TIME then ReadLocalDateTime(s)
    else if tag == DATE_TIME then ReadDateTime(s)
    else if tag == DATE_TIME_ZONE_ID then ReadDateTimeZoneId(h, s)
    else ReadDuration(s)
  }

  // ---- Values ------------------------------------------------------------------------------

  datatype Kind = NullKind | TrueKind | FalseKind | FloatKind | IntKind | BinaryKind | StringKind
                | ListKind | MapKind | StructKind | NoKind

  function KindOf(m: byte): Kind {
    if m == NULL then NullKind
    else if m == TRUE then TrueKind
    else if m == FALSE then FalseKind
    else if m == FLOAT_64 then FloatKind
    else if m == INT_8 || m == INT_16 || m == INT_32 || m == INT_64 || IsTinyInt(m) then IntKind
    else if IsBinary(m) then BinaryKind
    else if InFamily(STRING, m) then StringKind
    else if InFamily(LIST, m) then ListKind
    else if InFamily(MAP, m) then MapKind
    else if IsStruct(m) then StructKind
    else NoKind
  }

  /** A value that holds no other value. */
  function ReadScalar(k: Kind, s: bytes): (r: Read<Value>)
    requires s != []
    ensures r.Got? ==> |r.rest| < |s|
  {
    match k
    case NullKind => Got(Null, s[1..])
    case TrueKind => Got(Boolean(true), s[1..])
    case FalseKind => Got(Boolean(false), s[1..])
    case FloatKind =>
      Pow256Values();
      var (field, t) :- ReadSlice(8, s[1..]);
      Got(Float(UnBe(field)), t)
    case IntKind =>
      var (n, t) :- ReadInt(s);
      Got(Integer(n), t)
    case BinaryKind =>
      var (b, t) :- ReadBinary(s);
      Got(Binary(b), t)
    case StringKind =>
      var (text, t) :- ReadString(s);
      Got(String(text), t)
    case _ => Bad(BadMarker(s[0]))
  }

  function MakePoint(srid: i64, coords: seq<Double>, rest: bytes, budget: nat): (r: Decoded<Value>)
    ensures r.Ok? ==> r.value.Point? && r.rest == rest && r.budget == budget
  {
    match Crs.FromSrid(srid)
    case None => Err(UnknownSrid)
    case Some(crs) =>
      if |coords| == crs.Dimensions() then Ok(Point(RawPoint(crs, coords)), rest, budget)
      else Err(WrongDimensions)
  }

  /** Puts already decoded items in front of the ones still to come. */
  function Prepend<T>(xs: seq<T>, r: Decoded<seq<T>>): Decoded<seq<T>> {
    match r
    case Ok(ys, t, b) => Ok(xs + ys, t, b)
    case Err(e) => Err(e)
  }

  lemma PrependNothing<T>(r: Decoded<seq<T>>)
    ensures Prepend([], r) == r
  {
    if r.Ok? {
      assert [] + r.value == r.value;
    }
  }

  lemma PrependOne<T>(xs: seq<T>, x: T, r: Decoded<seq<T>>)
    ensures Prepend(xs, Prepend([x], r)) == Prepend(xs + [x], r)
  {
    if r.Ok? {
      assert xs + ([x] + r.value) == xs + [x] + r.value;
    }
  }

  /**
   One value. The precondition on `depth` is met by every call the decoder makes, so it never has
   more than `MAX_DECODE_DEPTH` lists, maps and structures open.
   */
  function Unpack(h: Host, s: bytes, depth: nat, budget: nat): (r: Decoded<Value>)
    requires depth <= MAX_DECODE_DEPTH
    ensures r.Ok? ==> |r.rest| < |s| && r.budget <= budget
    decreases |s|, 0
  {
    if s == [] then Err(UnexpectedEnd) else
    match KindOf(s[0])
    case ListKind =>
      var (n, t, _) :- ReadHeader(LIST, s).At(budget);
      if depth + 1 > MAX_DECODE_DEPTH then Err(TooDeep) else
      var (items, rest, left) :- UnpackItems(h, n, t, depth + 1, budget);
      Ok(List(items), rest, left)
    case MapKind =>
      var (n, t, _) :- ReadHeader(MAP, s).At(budget);
      if depth + 1 > MAX_DECODE_DEPTH then Err(TooDeep) else
      var (pairs, rest, left) :- UnpackPairs(h, n, t, depth + 1, budget);
      Ok(Map(Entries.Dedup(pairs)), rest, left)
    case StructKind =>
      if depth + 1 > MAX_DECODE_DEPTH then Err(TooDeep) else
      var (head, t, _) :- ReadStructHeader(s).At(budget);
      UnpackStructure(h, head.0, head.1, t, depth + 1, budget)
    case k => ReadScalar(k, s).At(budget)
  }

  function UnpackItems(h: Host, n: nat, s: bytes, depth: nat, budget: nat): (r: Decoded<seq<Value>>)
    requires depth <= MAX_DECODE_DEPTH
    ensures r.Ok? ==> |r.rest| <= |s| && r.budget <= budget && |r.value| == n
    decreases |s|, 1
  {
    if n == 0 then Ok([], s, budget)
    else if budget == 0 then Err(TooManyElements) else
    var (v, t, b) :- Unpack(h, s, depth, budget - 1);
    Prepend([v], UnpackItems(h, n - 1, t, depth, b))
  }

  function UnpackPairs(h: Host, n: nat, s: bytes, depth: nat, budget: nat): (r: Decoded<seq<Entry>>)
    requires depth <= MAX_DECODE_DEPTH
    ensures r.Ok? ==> |r.rest| <= |s| && r.budget <= budget && |r.value| == n
    decreases |s|, 1
  {
    if n == 0 then Ok([], s, budget)
    else if budget == 0 then Err(TooManyElements) else
    var (key, t, _) :- ReadString(s).At(budget);
    var (v, t2, b) :- Unpack(h, t, depth, budget - 1);
    Prepend([Entry(key, v)], UnpackPairs(h, n - 1, t2, depth, b))
  }

  /** The body of a structure, after its header, with the structure's own level already entered. */
  function UnpackStructure(h: Host, tag: byte, fields: nat, s: bytes, depth: nat, budget: nat): (r: Decoded<Value>)
    requires depth <= MAX_DECODE_DEPTH
    ensures r.Ok? ==> |r.rest| < |s| && r.budget <= budget
    decreases |s|, 2
  {
    if IsTemporalTag(tag) then
      if fields != TemporalFields(tag) then Err(WrongFieldCount(tag, fields))
      else ReadTemporal(h, tag, s).At(budget)
    else if tag == POINT_2D || tag == POINT_3D then
      var n := if tag == POINT_2D then 2 else 3;
      if fields != n + 1 then Err(WrongFieldCount(tag, fields)) else
      var (srid, t, _) :- ReadInt(s).At(budget);
      var (coords, rest, left) :- UnpackCoords(h, n, t, depth, budget);
      MakePoint(srid, coords, rest, left)
    else if tag in {NODE, RELATIONSHIP, UNBOUND_RELATIONSHIP, PATH} then Err(GraphEntity(tag))
    else Err(UnknownTag(tag))
  }

  /** Coordinates are full values that must turn out to be numbers. */
  function UnpackCoords(h: Host, n: nat, s: bytes, depth: nat, budget: nat): (r: Decoded<seq<Double>>)
    requires depth <= MAX_DECODE_DEPTH
    ensures r.Ok? ==> |r.rest| <= |s| && r.budget <= budget && |r.value| == n
    decreases |s|, 1
  {
    if n == 0 then Ok([], s, budget) else
    var (v, t, b) :- Unpack(h, s, depth, budget);
    match v
    case Float(bits) => Prepend([bits], UnpackCoords(h, n - 1, t, depth, b))
    case Integer(i) => Prepend([h.toDouble(i)], UnpackCoords(h, n - 1, t, depth, b))
    case _ => Err(NotAFloat)
  }
}
