/** `unpack_value` inverts `pack_value` on every canonical value, whatever bytes follow. */
module ValueRoundTrip {
  import opened Bytes
  import opened Values
  import opened Encoder
  import opened Decoder
  import opened ItemRoundTrip
  import Entries
  import Utf8

  // ---- Scalars -----------------------------------------------------------------------------

  predicate IsScalar(v: Value) {
    v.Null? || v.Boolean? || v.Integer? || v.Float? || v.String? || v.Binary?
  }

  lemma ScalarRoundTrip(h: Host, v: Value, e: nat, t: bytes, depth: nat, budget: nat)
    requires IsScalar(v) && Canonical(h, v) && Fits(v) && e <= MAX_ENCODE_DEPTH && depth <= MAX_DECODE_DEPTH
    ensures Unpack(h, Pack(v, e) + t, depth, budget) == Ok(v, t, budget)
  {
    var s := Pack(v, e) + t;
    match v
    case Null => assert s[1..] == t;
    case Boolean(_) => assert s[1..] == t;
    case Integer(n) => IntRoundTrip(n, t);
    case Float(bits) => FloatRoundTrip(bits, t);
    case String(text) =>
      StringKindOf(text);
      StringRoundTrip(text, t);
    case Binary(data) => BinaryRoundTrip(data, t);
  }

  // ---- Structures --------------------------------------------------------------------------

  lemma UnpackTemporal(h: Host, tag: byte, body: bytes, depth: nat, budget: nat)
    requires IsTemporalTag(tag) && depth < MAX_DECODE_DEPTH
    ensures Unpack(h, StructHeader(tag, TemporalFields(tag)) + body, depth, budget)
         == ReadTemporal(h, tag, body).At(budget)
  {
    StructHeaderRoundTrip(tag, TemporalFields(tag), body);
  }

  lemma TwoInts(a: i64, b: i64, t: bytes)
    ensures ReadInt(IntBytes(a) + IntBytes(b) + t) == Got(a, IntBytes(b) + t)
    ensures ReadInt(IntBytes(b) + t) == Got(b, t)
  {
    assert IntBytes(a) + IntBytes(b) + t == IntBytes(a) + (IntBytes(b) + t);
    IntRoundTrip(a, IntBytes(b) + t);
    IntRoundTrip(b, t);
  }

  lemma SplitSmallNanos(n: i64)
    requires 0 <= n < NANOS_PER_SECOND
    ensures SplitNanos(n) == (0, n)
  {
  }

  lemma ZonedRoundTrip(h: Host, v: Value, t: bytes)
    requires v.ZonedDateTime? && Canonical(h, v) && Fits(v)
    ensures ReadTemporal(h, TemporalTag(v), TemporalBody(v) + t) == Got(v, t)
  {
    hide IntBytes, ReadInt, StringBytes, ReadString, SplitNanos;
    var utc: i64 := v.localSeconds - v.offset;
    var last := if v.zone == [] then IntBytes(v.offset) else StringBytes(v.zone);
    TwoInts(utc, v.localNanos, last + t);
    assert TemporalBody(v) + t == IntBytes(utc) + IntBytes(v.localNanos) + (last + t);
    SplitSmallNanos(v.localNanos);
    if v.zone == [] {
      IntRoundTrip(v.offset, t);
    } else {
      StringRoundTrip(v.zone, t);
    }
  }

  lemma DurationRoundTrip(h: Host, v: Value, t: bytes)
    requires v.Duration? && Canonical(h, v)
    ensures ReadTemporal(h, TemporalTag(v), TemporalBody(v) + t) == Got(v, t)
  {
    hide IntBytes, ReadInt, SplitNanos;
    var tail := IntBytes(v.seconds) + IntBytes(v.durationNanos) + t;
    assert TemporalBody(v) + t == IntBytes(v.months) + IntBytes(v.days) + tail;
    TwoInts(v.months, v.days, tail);
    TwoInts(v.seconds, v.durationNanos, t);
    SplitSmallNanos(v.durationNanos);
  }

  lemma TemporalBodyRoundTrip(h: Host, v: Value, t: bytes)
    requires IsTemporal(v) && Canonical(h, v) && Fits(v)
    ensures ReadTemporal(h, TemporalTag(v), TemporalBody(v) + t) == Got(v, t)
  {
    hide IntBytes, ReadInt, SplitNanos;
    match v
    case Date(d) => IntRoundTrip(d, t);
    case LocalTime(n) => IntRoundTrip(n, t);
    case ZonedTime(n, o) => TwoInts(n, o, t);
    case LocalDateTime(s, n) =>
      TwoInts(s, n, t);
      SplitSmallNanos(n);
    case ZonedDateTime(_, _, _, _) => ZonedRoundTrip(h, v, t);
    case Duration(_, _, _, _) => DurationRoundTrip(h, v, t);
  }

  lemma TemporalRoundTrip(h: Host, v: Value, t: bytes, depth: nat, budget: nat)
    requires IsTemporal(v) && Canonical(h, v) && Fits(v) && depth < MAX_DECODE_DEPTH
    ensures Unpack(h, TemporalBytes(v) + t, depth, budget) == Ok(v, t, budget)
  {
    hide Unpack, TemporalBody, ReadTemporal, Canonical;
    var tag := TemporalTag(v);
    assert TemporalBytes(v) + t == StructHeader(tag, TemporalFields(tag)) + (TemporalBody(v) + t);
    UnpackTemporal(h, tag, TemporalBody(v) + t, depth, budget);
    TemporalBodyRoundTrip(h, v, t);
  }

  lemma {:induction false} CoordsRoundTrip(h: Host, coords: seq<Double>, t: bytes, depth: nat, budget: nat)
    requires depth <= MAX_DECODE_DEPTH
    ensures UnpackCoords(h, |coords|, CoordBytes(coords) + t, depth, budget) == Ok(coords, t, budget)
  {
    hide Unpack, FloatBytes;
    if coords != [] {
      var rest := CoordBytes(coords[1..]) + t;
      ScalarRoundTrip(h, Float(coords[0]), 0, rest, depth, budget);
      assert CoordBytes(coords) + t == FloatBytes(coords[0]) + rest;
      CoordsRoundTrip(h, coords[1..], t, depth, budget);
      assert [coords[0]] + coords[1..] == coords;
    } else {
      assert CoordBytes(coords) + t == t;
    }
  }

  lemma PointRoundTrip(h: Host, p: SpatialPoint, t: bytes, depth: nat, budget: nat)
    requires depth < MAX_DECODE_DEPTH
    ensures Unpack(h, PointBytes(p) + t, depth, budget) == Ok(Point(p), t, budget)
  {
    hide UnpackCoords, CoordBytes, IntBytes, ReadInt;
    var tag := if p.crs.Dimensions() == 2 then POINT_2D else POINT_3D;
    var tail := CoordBytes(p.coords) + t;
    var body := IntBytes(p.crs.Srid()) + tail;
    assert PointBytes(p) + t == StructHeader(tag, 1 + p.crs.Dimensions()) + body;
    StructHeaderRoundTrip(tag, 1 + p.crs.Dimensions(), body);
    IntRoundTrip(p.crs.Srid(), tail);
    CoordsRoundTrip(h, p.coords, t, depth + 1, budget);
  }

  // ---- Collections -------------------------------------------------------------------------

  /** The room a value needs at a decoder position. */
  predicate Room(v: Value, e: nat, depth: nat, budget: nat) {
    e <= depth && depth + Nesting(v) <= MAX_DECODE_DEPTH && Elements(v) <= budget <= MAX_DECODE_ELEMENTS
  }

  lemma UnpackList(h: Host, n: nat, body: bytes, depth: nat, budget: nat)
    requires n <= MAX_COLLECTION_LEN && depth < MAX_DECODE_DEPTH
    ensures UnpackItems(h, n, body, depth + 1, budget).Ok? ==>
              var (items, rest, left) := UnpackItems(h, n, body, depth + 1, budget).Extract();
              Unpack(h, Header(LIST, n) + body, depth, budget) == Ok(List(items), rest, left)
  {
    hide UnpackItems, Header, ReadHeader, UnpackStructure, UnpackPairs, ReadScalar;
    HeaderRoundTrip(LIST, n, body);
    assert (Header(LIST, n) + body)[0] == Header(LIST, n)[0];
  }

  lemma UnpackMap(h: Host, n: nat, body: bytes, depth: nat, budget: nat)
    requires n <= MAX_COLLECTION_LEN && depth < MAX_DECODE_DEPTH
    ensures UnpackPairs(h, n, body, depth + 1, budget).Ok? ==>
              var (pairs, rest, left) := UnpackPairs(h, n, body, depth + 1, budget).Extract();
              Unpack(h, Header(MAP, n) + body, depth, budget) == Ok(Map(Entries.Dedup(pairs)), rest, left)
  {
    hide UnpackPairs, Entries.Dedup, Header, ReadHeader, UnpackStructure, UnpackItems, ReadScalar;
    HeaderRoundTrip(MAP, n, body);
    assert (Header(MAP, n) + body)[0] == Header(MAP, n)[0];
  }

  lemma {:induction false} RoundTrip(h: Host, v: Value, e: nat, t: bytes, depth: nat, budget: nat)
    requires Canonical(h, v) && Fits(v) && Room(v, e, depth, budget)
    ensures Unpack(h, Pack(v, e) + t, depth, budget) == Ok(v, t, budget - Elements(v))
    decreases v, 1
  {
    hide Unpack, UnpackItems, UnpackPairs, Header, PointBytes, TemporalBytes, Entries.Dedup;
    match v
    case List(items) =>
      var body := PackItems(items, e + 1) + t;
      assert Pack(v, e) + t == Header(LIST, |items|) + body;
      UnpackList(h, |items|, body, depth, budget);
      ItemsRoundTrip(h, items, e + 1, t, depth + 1, budget);
    case Map(entries) =>
      var body := PackEntries(entries, e + 1) + t;
      assert Pack(v, e) + t == Header(MAP, |entries|) + body;
      UnpackMap(h, |entries|, body, depth, budget);
      EntriesRoundTrip(h, entries, e + 1, t, depth + 1, budget);
      Entries.DedupDistinct(entries);
    case Point(p) => PointRoundTrip(h, p, t, depth, budget);
    case _ =>
      if IsScalar(v) {
        ScalarRoundTrip(h, v, e, t, depth, budget);
      } else {
        TemporalRoundTrip(h, v, t, depth, budget);
      }
  }

  lemma {:induction false} ItemsRoundTrip(h: Host, items: seq<Value>, e: nat, t: bytes, depth: nat, budget: nat)
    requires CanonicalItems(h, items) && FitsItems(items)
    requires e <= depth && depth + ItemsNesting(items) <= MAX_DECODE_DEPTH
    requires ItemsElements(items) <= budget <= MAX_DECODE_ELEMENTS
    ensures UnpackItems(h, |items|, PackItems(items, e) + t, depth, budget)
         == Ok(items, t, budget - ItemsElements(items))
    decreases items, 0
  {
    hide Unpack, Pack, Canonical, Nesting, Elements, Fits;
    if items == [] {
      assert PackItems(items, e) + t == t;
    } else {
      var rest := PackItems(items[1..], e) + t;
      assert PackItems(items, e) + t == Pack(items[0], e) + rest;
      RoundTrip(h, items[0], e, rest, depth, budget - 1);
      ItemsRoundTrip(h, items[1..], e, t, depth, budget - 1 - Elements(items[0]));
      assert [items[0]] + items[1..] == items;
    }
  }

  lemma {:induction false} EntriesRoundTrip(h: Host, entries: seq<Entry>, e: nat, t: bytes, depth: nat, budget: nat)
    requires CanonicalEntries(h, entries) && FitsEntries(entries)
    requires e <= depth && depth + EntriesNesting(entries) <= MAX_DECODE_DEPTH
    requires EntriesElements(entries) <= budget <= MAX_DECODE_ELEMENTS
    ensures UnpackPairs(h, |entries|, PackEntries(entries, e) + t, depth, budget)
         == Ok(entries, t, budget - EntriesElements(entries))
    decreases entries, 0
  {
    hide Unpack, Pack, Canonical, Nesting, Elements, Fits, ReadString, StringBytes, Utf8.Valid, DistinctKeys;
    if entries == [] {
      assert PackEntries(entries, e) + t == t;
    } else {
      var rest := PackEntries(entries[1..], e) + t;
      var value := Pack(entries[0].value, e) + rest;
      assert PackEntries(entries, e) + t == StringBytes(entries[0].key) + value;
      StringRoundTrip(entries[0].key, value);
      RoundTrip(h, entries[0].value, e, rest, depth, budget - 1);
      EntriesRoundTrip(h, entries[1..], e, t, depth, budget - 1 - Elements(entries[0].value));
      assert [entries[0]] + entries[1..] == entries;
    }
  }
}
