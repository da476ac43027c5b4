/**
 Whatever bytes the decoder accepts, the value it returns is canonical and bounded, so packing it
 and unpacking again changes nothing.
 */
module Canonicalisation {
  import opened Bytes
  import opened Values
  import opened Encoder
  import opened Decoder
  import Entries
  import Utf8
  import ValueRoundTrip

  // ---- Deduplication keeps every bound -----------------------------------------------------

  lemma {:induction false} InsertKeeps(h: Host, acc: seq<Entry>, e: Entry)
    ensures CanonicalEntries(h, acc) && Utf8.Valid(e.key) && Canonical(h, e.value) ==>
              CanonicalEntries(h, Entries.Insert(acc, e))
    ensures FitsEntries(acc) && |e.key| <= I32_MAX && Fits(e.value) ==> FitsEntries(Entries.Insert(acc, e))
    ensures EntriesNesting(Entries.Insert(acc, e)) <= Max(EntriesNesting(acc), Nesting(e.value))
    ensures EntriesElements(Entries.Insert(acc, e)) <= EntriesElements(acc) + 1 + Elements(e.value)
  {
    hide Canonical, Fits, Nesting, Elements, Utf8.Valid, Entries.Find;
    if acc != [] && acc[0].key != e.key {
      InsertKeeps(h, acc[1..], e);
    }
  }

  lemma {:induction false} FoldKeeps(h: Host, acc: seq<Entry>, pairs: seq<Entry>)
    ensures CanonicalEntries(h, acc) && CanonicalEntries(h, pairs) ==> CanonicalEntries(h, Entries.Fold(acc, pairs))
    ensures FitsEntries(acc) && FitsEntries(pairs) ==> FitsEntries(Entries.Fold(acc, pairs))
    ensures EntriesNesting(Entries.Fold(acc, pairs)) <= Max(EntriesNesting(acc), EntriesNesting(pairs))
    ensures EntriesElements(Entries.Fold(acc, pairs)) <= EntriesElements(acc) + EntriesElements(pairs)
    decreases |pairs|
  {
    hide Canonical, Fits, Nesting, Elements, Utf8.Valid, Entries.Insert;
    if pairs != [] {
      InsertKeeps(h, acc, pairs[0]);
      FoldKeeps(h, Entries.Insert(acc, pairs[0]), pairs[1..]);
    }
  }

  // ---- Soundness of each reader ------------------------------------------------------------

  lemma ZonedSound(h: Host, tag: byte, s: bytes)
    requires ValidHost(h) && (tag == DATE_TIME || tag == DATE_TIME_ZONE_ID) && ReadTemporal(h, tag, s).Got?
    ensures var v := ReadTemporal(h, tag, s).value;
            v.ZonedDateTime? && Canonical(h, v) && |v.zone| <= |s|
  {
    hide ReadInt, Utf8.Valid;
  }

  lemma TemporalSound(h: Host, tag: byte, s: bytes)
    requires ValidHost(h) && IsTemporalTag(tag) && ReadTemporal(h, tag, s).Got?
    ensures var v := ReadTemporal(h, tag, s).value;
            IsTemporal(v) && Canonical(h, v) && (|s| <= I32_MAX ==> Fits(v))
  {
    hide ReadInt, Utf8.Valid;
    if tag == DATE_TIME || tag == DATE_TIME_ZONE_ID {
      ZonedSound(h, tag, s);
    }
  }

  lemma ScalarSound(h: Host, k: Kind, s: bytes)
    requires s != [] && ReadScalar(k, s).Got?
    ensures var v := ReadScalar(k, s).value;
            ValueRoundTrip.IsScalar(v) && Canonical(h, v) && (|s| <= I32_MAX ==> Fits(v))
  {
  }

  /** What a decoded value owes to the bytes and the budget it was decoded from. */
  ghost predicate Sound(h: Host, v: Value, s: bytes, depth: nat, budget: nat, rest: bytes, left: nat) {
    && Canonical(h, v)
    && (|s| <= I32_MAX ==> Fits(v))
    && depth + Nesting(v) <= MAX_DECODE_DEPTH
    && Elements(v) <= budget - left
    && Elements(v) < |s| - |rest|
  }

  lemma {:induction false} DecodedSound(h: Host, s: bytes, depth: nat, budget: nat)
    requires ValidHost(h) && depth <= MAX_DECODE_DEPTH && Unpack(h, s, depth, budget).Ok?
    ensures var (v, rest, left) := Unpack(h, s, depth, budget).Extract();
            Sound(h, v, s, depth, budget, rest, left)
    decreases |s|, 1
  {
    hide UnpackItems, UnpackPairs, UnpackStructure, ReadScalar, ReadHeader, ReadStructHeader;
    match KindOf(s[0])
    case ListKind => ListSound(h, s, depth, budget);
    case MapKind => MapSound(h, s, depth, budget);
    case StructKind =>
      var head := ReadStructHeader(s);
      StructureSound(h, head.value.0, head.value.1, head.rest, depth + 1, budget);
    case k => ScalarSound(h, k, s);
  }

  lemma {:induction false} ListSound(h: Host, s: bytes, depth: nat, budget: nat)
    requires ValidHost(h) && depth <= MAX_DECODE_DEPTH && Unpack(h, s, depth, budget).Ok?
    requires KindOf(s[0]) == ListKind
    ensures var (v, rest, left) := Unpack(h, s, depth, budget).Extract();
            Sound(h, v, s, depth, budget, rest, left)
    decreases |s|, 0
  {
    hide UnpackItems, ReadHeader;
    var head := ReadHeader(LIST, s);
    ItemsSound(h, head.value, head.rest, depth + 1, budget);
  }

  lemma {:induction false} MapSound(h: Host, s: bytes, depth: nat, budget: nat)
    requires ValidHost(h) && depth <= MAX_DECODE_DEPTH && Unpack(h, s, depth, budget).Ok?
    requires KindOf(s[0]) == MapKind
    ensures var (v, rest, left) := Unpack(h, s, depth, budget).Extract();
            Sound(h, v, s, depth, budget, rest, left)
    decreases |s|, 0
  {
    hide UnpackPairs, ReadHeader, Entries.Fold;
    var head := ReadHeader(MAP, s);
    PairsSound(h, head.value, head.rest, depth + 1, budget);
    FoldKeeps(h, [], UnpackPairs(h, head.value, head.rest, depth + 1, budget).value);
  }

  lemma {:induction false} ItemsSound(h: Host, n: nat, s: bytes, depth: nat, budget: nat)
    requires ValidHost(h) && depth <= MAX_DECODE_DEPTH && UnpackItems(h, n, s, depth, budget).Ok?
    ensures var (items, rest, left) := UnpackItems(h, n, s, depth, budget).Extract();
            && CanonicalItems(h, items)
            && (|s| <= I32_MAX ==> FitsItems(items))
            && depth + ItemsNesting(items) <= MAX_DECODE_DEPTH
            && ItemsElements(items) <= budget - left
            && ItemsElements(items) <= |s| - |rest|
    decreases |s|, 2
  {
    hide Unpack, Canonical, Fits, Nesting, Elements;
    if n > 0 {
      DecodedSound(h, s, depth, budget - 1);
      var (v, t, b) := Unpack(h, s, depth, budget - 1).Extract();
      ItemsSound(h, n - 1, t, depth, b);
    }
  }

  lemma {:induction false} PairsSound(h: Host, n: nat, s: bytes, depth: nat, budget: nat)
    requires ValidHost(h) && depth <= MAX_DECODE_DEPTH && UnpackPairs(h, n, s, depth, budget).Ok?
    ensures var (pairs, rest, left) := UnpackPairs(h, n, s, depth, budget).Extract();
            && CanonicalEntries(h, pairs)
            && (|s| <= I32_MAX ==> FitsEntries(pairs))
            && depth + EntriesNesting(pairs) <= MAX_DECODE_DEPTH
            && EntriesElements(pairs) <= budget - left
            && EntriesElements(pairs) <= |s| - |rest|
    decreases |s|, 2
  {
    hide Unpack, Canonical, Fits, Nesting, Elements, ReadString, Utf8.Valid;
    if n > 0 {
      var key := ReadString(s);
      DecodedSound(h, key.rest, depth, budget - 1);
      var (v, t, b) := Unpack(h, key.rest, depth, budget - 1).Extract();
      PairsSound(h, n - 1, t, depth, b);
    }
  }

  lemma {:induction false} StructureSound(h: Host, tag: byte, fields: nat, s: bytes, depth: nat, budget: nat)
    requires ValidHost(h) && depth <= MAX_DECODE_DEPTH && UnpackStructure(h, tag, fields, s, depth, budget).Ok?
    ensures var (v, rest, left) := UnpackStructure(h, tag, fields, s, depth, budget).Extract();
            && Canonical(h, v)
            && (|s| <= I32_MAX ==> Fits(v))
            && Nesting(v) == 1 && Elements(v) == 0
  {
    hide UnpackCoords, ReadTemporal, ReadInt;
    if IsTemporalTag(tag) {
      TemporalSound(h, tag, s);
    }
  }

  // ---- The main results --------------------------------------------------------------------

  /** Exactly the values that survive a trip over the wire. */
  ghost predicate InDomain(h: Host, v: Value) {
    Canonical(h, v) && Nesting(v) <= MAX_DECODE_DEPTH && Elements(v) <= MAX_DECODE_ELEMENTS
  }

  /** What the encoder makes of a value at level `e`: everything past its depth cap becomes null. */
  function Clipped(v: Value, e: nat): Value
    decreases v, 1
  {
    if e > MAX_ENCODE_DEPTH then Null
    else match v
      case List(items) => List(ClippedItems(items, e + 1))
      case Map(entries) => Map(ClippedEntries(entries, e + 1))
      case _ => v
  }

  function ClippedItems(items: seq<Value>, e: nat): (r: seq<Value>)
    ensures |r| == |items|
    decreases items, 0
  {
    if items == [] then [] else [Clipped(items[0], e)] + ClippedItems(items[1..], e)
  }

  function ClippedEntries(entries: seq<Entry>, e: nat): (r: seq<Entry>)
    ensures |r| == |entries|
    decreases entries, 0
  {
    if entries == [] then []
    else [Entry(entries[0].key, Clipped(entries[0].value, e))] + ClippedEntries(entries[1..], e)
  }

  /**
   The packer is left unpoisoned exactly when every length it wrote has a header; a value within the
   depth cap is written as it is.
   */
  lemma {:induction false} OverlongIffFits(v: Value, e: nat)
    ensures Overlong(v, e).None? <==> Fits(Clipped(v, e))
    ensures e + Nesting(v) <= MAX_ENCODE_DEPTH ==> Clipped(v, e) == v
    decreases v, 1
  {
    match v
    case List(items) => OverlongItemsIffFit(items, e + 1);
    case Map(entries) => OverlongEntriesIffFit(entries, e + 1);
    case _ =>
  }

  lemma {:induction false} OverlongItemsIffFit(items: seq<Value>, e: nat)
    ensures OverlongItems(items, e).None? <==> FitsItems(ClippedItems(items, e))
    ensures e + ItemsNesting(items) <= MAX_ENCODE_DEPTH ==> ClippedItems(items, e) == items
    decreases items, 0
  {
    hide Overlong, Fits, Clipped, Nesting;
    if items != [] {
      OverlongIffFits(items[0], e);
      OverlongItemsIffFit(items[1..], e);
    }
  }

  lemma {:induction false} OverlongEntriesIffFit(entries: seq<Entry>, e: nat)
    ensures OverlongEntries(entries, e).None? <==> FitsEntries(ClippedEntries(entries, e))
    ensures e + EntriesNesting(entries) <= MAX_ENCODE_DEPTH ==> ClippedEntries(entries, e) == entries
    decreases entries, 0
  {
    hide Overlong, Fits, Clipped, Nesting;
    if entries != [] {
      OverlongIffFits(entries[0].value, e);
      OverlongEntriesIffFit(entries[1..], e);
    }
  }

  /** A value and what the depth cap leaves of it are written with the same bytes. */
  lemma {:induction false} ClippedBytes(v: Value, e: nat)
    ensures Pack(Clipped(v, e), e) == Pack(v, e)
    decreases v, 1
  {
    match v
    case List(items) => ClippedItemsBytes(items, e + 1);
    case Map(entries) => ClippedEntriesBytes(entries, e + 1);
    case _ =>
  }

  lemma {:induction false} ClippedItemsBytes(items: seq<Value>, e: nat)
    ensures PackItems(ClippedItems(items, e), e) == PackItems(items, e)
    decreases items, 0
  {
    hide Pack, Clipped;
    if items != [] {
      ClippedBytes(items[0], e);
      ClippedItemsBytes(items[1..], e);
    }
  }

  lemma {:induction false} ClippedEntriesBytes(entries: seq<Entry>, e: nat)
    ensures PackEntries(ClippedEntries(entries, e), e) == PackEntries(entries, e)
    decreases entries, 0
  {
    hide Pack, Clipped;
    if entries != [] {
      ClippedBytes(entries[0].value, e);
      ClippedEntriesBytes(entries[1..], e);
    }
  }

  /**
   A value the encoder does not refuse comes back from the wire unchanged, with the bytes behind it
   untouched, if and only if it is in the domain.
   */
  lemma RoundTripExactly(h: Host, v: Value, t: bytes)
    requires ValidHost(h) && Overlong(v, 0).None?
    ensures InDomain(h, v) <==>
              var r := Unpack(h, Pack(v, 0) + t, 0, MAX_DECODE_ELEMENTS);
              r.Ok? && r.value == v && r.rest == t
  {
    hide Unpack, Pack, Canonical, Nesting, Elements, Fits, Overlong;
    if InDomain(h, v) {
      OverlongIffFits(v, 0);
      ValueRoundTrip.RoundTrip(h, v, 0, t, 0, MAX_DECODE_ELEMENTS);
    }
    if Unpack(h, Pack(v, 0) + t, 0, MAX_DECODE_ELEMENTS).Ok? {
      DecodedSound(h, Pack(v, 0) + t, 0, MAX_DECODE_ELEMENTS);
    }
  }

  /**
   Any accepted spelling is canonicalised by one decode: packing the value is never refused, and
   decoding the result gives the value again.
   */
  lemma CanonicalisedOnce(h: Host, s: bytes, t: bytes)
    requires ValidHost(h) && |s| <= I32_MAX && Unpack(h, s, 0, MAX_DECODE_ELEMENTS).Ok?
    ensures var v := Unpack(h, s, 0, MAX_DECODE_ELEMENTS).value;
            && Overlong(v, 0).None? && Elements(v) <= MAX_DECODE_ELEMENTS
            && Unpack(h, Pack(v, 0) + t, 0, MAX_DECODE_ELEMENTS) == Ok(v, t, MAX_DECODE_ELEMENTS - Elements(v))
  {
    hide Unpack, Pack, Canonical, Nesting, Elements, Fits, Overlong;
    var v := Unpack(h, s, 0, MAX_DECODE_ELEMENTS).value;
    DecodedSound(h, s, 0, MAX_DECODE_ELEMENTS);
    OverlongIffFits(v, 0);
    ValueRoundTrip.RoundTrip(h, v, 0, t, 0, MAX_DECODE_ELEMENTS);
  }
}
