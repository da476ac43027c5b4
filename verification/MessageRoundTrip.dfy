/** A request survives encoding, chunking, arbitrary delivery and the version-aware decoder. */
module MessageRoundTrip {
  import opened Bytes
  import opened Wrappers
  import opened Values
  import opened Encoder
  import opened Decoder
  import opened Cells
  import opened Messages
  import opened ItemRoundTrip
  import Handshake
  import Framing
  import Utf8
  import ValueRoundTrip
  import Canonicalisation
  import CellRoundTrip

  /** The requests that come back from the wire as themselves. */
  ghost predicate InDomain(h: Host, r: Request) {
    && CanonicalItems(h, Fields(r))
    && ItemsNesting(Fields(r)) <= MAX_DECODE_DEPTH
    && ItemsElements(Fields(r)) <= MAX_DECODE_ELEMENTS
    && (r.Unsupported? ==> r.opcode <= MAX_STRUCT_TAG && !IsKnownOpcode(r.opcode) && |r.fields| <= MAX_STRUCT_FIELDS)
  }

  // ---- The body is the packed fields -------------------------------------------------------

  lemma MapField(entries: seq<Entry>)
    requires 1 + EntriesNesting(entries) <= MAX_ENCODE_DEPTH
    ensures PropertyBytes(entries) == Pack(Map(entries), 0)
    ensures OverlongProperties(entries).None? ==> Fits(Map(entries))
  {
    CellRoundTrip.PackEntriesAnyDepth(entries, 0, 1);
    Canonicalisation.OverlongEntriesIffFit(entries, 0);
  }

  lemma ListField(items: seq<Value>)
    requires 1 + ItemsNesting(items) <= MAX_ENCODE_DEPTH
    ensures Header(LIST, |items|) + PackItems(items, 0) == Pack(List(items), 0)
    ensures First(Refused(|items|), OverlongItems(items, 0)).None? ==> Fits(List(items))
  {
    CellRoundTrip.PackItemsAnyDepth(items, 0, 1);
    Canonicalisation.OverlongItemsIffFit(items, 0);
  }

  lemma OneField(v: Value)
    ensures PackItems([v], 0) == Pack(v, 0)
    ensures Fits(v) ==> FitsItems([v])
    ensures ItemsNesting([v]) == Nesting(v)
  {
  }

  lemma ThreeFields(u: Value, v: Value, w: Value)
    ensures PackItems([u, v, w], 0) == Pack(u, 0) + Pack(v, 0) + Pack(w, 0)
    ensures Fits(u) && Fits(v) && Fits(w) ==> FitsItems([u, v, w])
    ensures ItemsNesting([u, v, w]) == Max(Nesting(u), Max(Nesting(v), Nesting(w)))
  {
    hide Pack, Nesting, Fits;
    assert [u, v, w][1..] == [v, w] && [v, w][1..] == [w];
    OneField(w);
    assert Pack(u, 0) + (Pack(v, 0) + Pack(w, 0)) == Pack(u, 0) + Pack(v, 0) + Pack(w, 0);
  }

  lemma BodyIsPackedFields(r: Request)
    requires ItemsNesting(Fields(r)) <= MAX_DECODE_DEPTH && BodyOverlong(r).None?
    ensures BodyBytes(r) == PackItems(Fields(r), 0) && FitsItems(Fields(r))
  {
    hide PropertyBytes, Pack, PackItems, OverlongProperties, Header, FitsItems, Fits, ItemsNesting, OverlongItems,
      EntriesNesting, ItemsElements;
    match r
    case Hello(extra) => OneMap(extra);
    case Logon(auth) => OneMap(auth);
    case Begin(extra) => OneMap(extra);
    case Discard(n, qid) => PullDiscardFits(n, qid);
    case Pull(n, qid) => PullDiscardFits(n, qid);
    case RunQuery(query, parameters, extra) => RunBody(query, parameters, extra);
    case Route(routing, bookmarks, extra) =>
      ThreeFields(Map(routing), List(bookmarks), Map(extra));
      NestedMap(routing);
      NestedList(bookmarks);
      NestedMap(extra);
      MapField(routing);
      ListField(bookmarks);
      MapField(extra);
    case Telemetry(api) =>
      OneField(Integer(api));
      FitsInteger(api);
    case Unsupported(_, fields) => Canonicalisation.OverlongItemsIffFit(fields, 0);
    case _ => NoFields();
  }

  lemma NestedMap(entries: seq<Entry>)
    ensures Nesting(Map(entries)) == 1 + EntriesNesting(entries)
  {
  }

  lemma NestedList(items: seq<Value>)
    ensures Nesting(List(items)) == 1 + ItemsNesting(items)
  {
  }

  lemma FitsInteger(n: i64)
    ensures Fits(Integer(n))
  {
  }

  lemma NoFields()
    ensures PackItems([], 0) == [] && FitsItems([])
  {
  }

  lemma OneMap(entries: seq<Entry>)
    requires ItemsNesting([Map(entries)]) <= MAX_DECODE_DEPTH && OverlongProperties(entries).None?
    ensures PropertyBytes(entries) == PackItems([Map(entries)], 0) && FitsItems([Map(entries)])
  {
    hide PropertyBytes, Pack, PackItems, OverlongProperties, FitsItems, Fits, ItemsNesting, EntriesNesting;
    OneField(Map(entries));
    NestedMap(entries);
    MapField(entries);
  }

  lemma FirstCanonical(h: Host, e: Entry, rest: seq<Entry>)
    ensures CanonicalEntries(h, [e] + rest) <==>
              Utf8.Valid(e.key) && Canonical(h, e.value) && CanonicalEntries(h, rest)
    ensures EntriesElements([e] + rest) == 1 + Elements(e.value) + EntriesElements(rest)
  {
  }

  lemma FirstEntry(e: Entry, rest: seq<Entry>)
    ensures EntriesNesting([e] + rest) == Max(Nesting(e.value), EntriesNesting(rest))
    ensures FitsEntries([e] + rest) <==> |e.key| <= I32_MAX && Fits(e.value) && FitsEntries(rest)
  {
  }

  lemma PullDiscardEntries(n: i64, qid: Option<i64>)
    ensures var extra := PullDiscardExtra(n, qid);
            |extra| <= 2 && EntriesNesting(extra) == 0 && FitsEntries(extra)
  {
    var tail := if qid.Some? then [Entry(QID_KEY, Integer(qid.value))] else [];
    FirstEntry(Entry(N_KEY, Integer(n)), tail);
    if qid.Some? {
      FirstEntry(tail[0], []);
      assert tail == [tail[0]] + [];
    }
  }

  lemma PullDiscardFits(n: i64, qid: Option<i64>)
    ensures PropertyBytes(PullDiscardExtra(n, qid)) == PackItems([Map(PullDiscardExtra(n, qid))], 0)
    ensures FitsItems([Map(PullDiscardExtra(n, qid))])
    ensures ItemsNesting([Map(PullDiscardExtra(n, qid))]) == 1
  {
    hide PropertyBytes, Pack, PackItems;
    var extra := PullDiscardExtra(n, qid);
    PullDiscardEntries(n, qid);
    OneField(Map(extra));
    MapField(extra);
  }

  lemma RunBody(query: bytes, parameters: seq<Entry>, extra: seq<Entry>)
    requires ItemsNesting([String(query), Map(parameters), Map(extra)]) <= MAX_DECODE_DEPTH
    requires |query| <= MAX_COLLECTION_LEN && OverlongProperties(parameters).None? && OverlongProperties(extra).None?
    ensures StringBytes(query) + PropertyBytes(parameters) + PropertyBytes(extra)
         == PackItems([String(query), Map(parameters), Map(extra)], 0)
    ensures FitsItems([String(query), Map(parameters), Map(extra)])
  {
    hide PropertyBytes, PackItems, PackEntries, OverlongProperties, FitsItems, FitsEntries, ItemsNesting,
      EntriesNesting, StringBytes;
    ThreeFields(String(query), Map(parameters), Map(extra));
    MapField(parameters);
    MapField(extra);
  }

  // ---- Decoding inverts encoding -----------------------------------------------------------

  lemma FieldsBuildBack(r: Request)
    requires r.Unsupported? ==> !IsKnownOpcode(r.opcode)
    ensures FromStructure(Opcode(r), Fields(r)) == Accepted(r)
  {
    match r
    case Discard(n, qid) => FindPullDiscard(n, qid);
    case Pull(n, qid) => FindPullDiscard(n, qid);
    case _ =>
  }

  lemma FindPullDiscard(n: i64, qid: Option<i64>)
    ensures FindInt(PullDiscardExtra(n, qid), N_KEY) == Some(n)
    ensures FindInt(PullDiscardExtra(n, qid), QID_KEY) == qid
  {
  }

  lemma EncodedDecodes(h: Host, r: Request)
    requires InDomain(h, r) && Encode(r).Some?
    ensures Decode(h, Encode(r).value) == Accepted(r)
  {
    hide ReadStructHeader, StructHeader, BodyBytes, BodyOverlong, UnpackItems, PackItems, FromStructure, Fields,
      CanonicalItems, FitsItems, ItemsNesting, ItemsElements;
    var fields := Fields(r);
    BodyIsPackedFields(r);
    StructHeaderRoundTrip(Opcode(r), |fields|, BodyBytes(r));
    assert PackItems(fields, 0) + [] == PackItems(fields, 0);
    ValueRoundTrip.ItemsRoundTrip(h, fields, 0, [], 0, MAX_DECODE_ELEMENTS);
    FieldsBuildBack(r);
  }

  /** Whatever payload is accepted, the request is one the codec carries faithfully. */
  lemma DecodedIsInDomain(h: Host, payload: bytes)
    requires ValidHost(h) && Decode(h, payload).Accepted?
    ensures InDomain(h, Decode(h, payload).value)
  {
    hide ReadStructHeader, UnpackItems, CanonicalItems, ItemsNesting, ItemsElements;
    var (head, s) := ReadStructHeader(payload).Extract();
    var (tag, count) := head;
    Canonicalisation.ItemsSound(h, count, s, 0, MAX_DECODE_ELEMENTS);
    var fields := UnpackItems(h, count, s, 0, MAX_DECODE_ELEMENTS).value;
    StructureKeepsFields(h, tag, fields);
  }

  /** Typing a structure neither loses nor invents fields, except that PULL and DISCARD keep two. */
  lemma StructureKeepsFields(h: Host, tag: byte, fields: seq<Value>)
    requires FromStructure(tag, fields).Accepted?
    ensures var r := FromStructure(tag, fields).value;
            if r.Pull? || r.Discard? then
              CanonicalItems(h, Fields(r)) && ItemsNesting(Fields(r)) == 1 && ItemsElements(Fields(r)) <= 3
            else Fields(r) == fields
    ensures var r := FromStructure(tag, fields).value;
            r.Unsupported? ==> r.opcode == tag && !IsKnownOpcode(tag)
  {
    hide CanonicalItems, ItemsNesting, ItemsElements, FindInt;
    var r := FromStructure(tag, fields).value;
    if r.Pull? {
      PullDiscardSmall(h, r.pullN, r.pullQid);
    } else if r.Discard? {
      PullDiscardSmall(h, r.discardN, r.discardQid);
    }
  }

  lemma PullDiscardSmall(h: Host, n: i64, qid: Option<i64>)
    ensures var fields := [Map(PullDiscardExtra(n, qid))];
            CanonicalItems(h, fields) && ItemsNesting(fields) == 1 && ItemsElements(fields) <= 3
  {
    var extra := PullDiscardExtra(n, qid);
    assert Utf8.Valid(N_KEY) && Utf8.Valid(QID_KEY) by {
      Utf8.AsciiIsValid(N_KEY);
      Utf8.AsciiIsValid(QID_KEY);
    }
    hide Utf8.Valid;
    assert CanonicalEntries(h, extra) && EntriesElements(extra) <= 2 by {
      var tail := if qid.Some? then [Entry(QID_KEY, Integer(qid.value))] else [];
      FirstCanonical(h, extra[0], tail);
      if qid.Some? {
        FirstCanonical(h, tail[0], []);
        assert tail == [tail[0]] + [];
      }
    }
    assert N_KEY[0] != QID_KEY[0];
    PullDiscardFits(n, qid);
    assert [Map(extra)][1..] == [];
  }

  /** An encodable request decodes to itself if and only if it is in the domain. */
  lemma RequestRoundTripExactly(h: Host, r: Request)
    requires ValidHost(h) && Encode(r).Some?
    ensures Decode(h, Encode(r).value) == Accepted(r) <==> InDomain(h, r)
  {
    hide Decode, Encode, Opcode, Fields;
    if InDomain(h, r) {
      EncodedDecodes(h, r);
    }
    if Decode(h, Encode(r).value).Accepted? {
      DecodedIsInDomain(h, Encode(r).value);
    }
  }

  /** Fields whose every length has a header leave the packer unpoisoned. */
  lemma BodyFits(r: Request)
    requires ItemsNesting(Fields(r)) <= MAX_DECODE_DEPTH && FitsItems(Fields(r))
    ensures BodyOverlong(r).None?
  {
    hide OverlongProperties, Overlong, OverlongItems, Fits, FitsItems, Nesting, ItemsNesting;
    match r
    case Hello(extra) => MapFits(extra);
    case Logon(auth) => MapFits(auth);
    case Begin(extra) => MapFits(extra);
    case RunQuery(query, parameters, extra) =>
      ThreeFit(String(query), Map(parameters), Map(extra));
      MapAccepted(parameters);
      MapAccepted(extra);
      TextFits(query);
    case Route(routing, bookmarks, extra) =>
      ThreeFit(Map(routing), List(bookmarks), Map(extra));
      MapAccepted(routing);
      ListAccepted(bookmarks);
      MapAccepted(extra);
    case Unsupported(_, fields) => Canonicalisation.OverlongItemsIffFit(fields, 0);
    case _ =>
  }

  lemma TextFits(text: bytes)
    ensures Fits(String(text)) ==> Refused(|text|).None?
  {
  }

  lemma MapAccepted(entries: seq<Entry>)
    requires Fits(Map(entries)) && Nesting(Map(entries)) <= MAX_DECODE_DEPTH
    ensures OverlongProperties(entries).None?
  {
    Canonicalisation.OverlongEntriesIffFit(entries, 0);
  }

  lemma ListAccepted(items: seq<Value>)
    requires Fits(List(items)) && Nesting(List(items)) <= MAX_DECODE_DEPTH
    ensures First(Refused(|items|), OverlongItems(items, 0)).None?
  {
    Canonicalisation.OverlongItemsIffFit(items, 0);
  }

  lemma MapFits(entries: seq<Entry>)
    requires ItemsNesting([Map(entries)]) <= MAX_DECODE_DEPTH && FitsItems([Map(entries)])
    ensures OverlongProperties(entries).None?
  {
    hide OverlongProperties, Fits, Nesting;
    assert [Map(entries)][0] == Map(entries);
    OneField(Map(entries));
    MapAccepted(entries);
  }

  lemma ThreeFit(u: Value, v: Value, w: Value)
    requires FitsItems([u, v, w]) && ItemsNesting([u, v, w]) <= MAX_DECODE_DEPTH
    ensures Fits(u) && Fits(v) && Fits(w)
    ensures Nesting(u) <= MAX_DECODE_DEPTH && Nesting(v) <= MAX_DECODE_DEPTH && Nesting(w) <= MAX_DECODE_DEPTH
  {
    hide Fits, Nesting;
    assert [u, v, w][1..] == [v, w] && [v, w][1..] == [w];
    assert FitsItems([v, w]) && FitsItems([w]);
    ThreeFields(u, v, w);
  }

  /** Any accepted payload gives a request that can be sent again and then decodes to itself. */
  lemma RequestCanonicalisedOnce(h: Host, payload: bytes)
    requires ValidHost(h) && |payload| <= I32_MAX && Decode(h, payload).Accepted?
    ensures var r := Decode(h, payload).value;
            Encode(r).Some? && Decode(h, Encode(r).value) == Accepted(r)
  {
    hide ReadStructHeader, UnpackItems, CanonicalItems, ItemsNesting, ItemsElements, FitsItems, BodyBytes, BodyOverlong,
      StructHeader;
    var r := Decode(h, payload).value;
    var (head, s) := ReadStructHeader(payload).Extract();
    Canonicalisation.ItemsSound(h, head.1, s, 0, MAX_DECODE_ELEMENTS);
    StructureKeepsFields(h, head.0, UnpackItems(h, head.1, s, 0, MAX_DECODE_ELEMENTS).value);
    if r.Pull? {
      PullDiscardFits(r.pullN, r.pullQid);
    } else if r.Discard? {
      PullDiscardFits(r.discardN, r.discardQid);
    }
    DecodedIsInDomain(h, payload);
    BodyFits(r);
    EncodedDecodes(h, r);
  }

  // ---- The version gate --------------------------------------------------------------------

  /** The gate decides on the signature alone: it refuses, or it changes nothing. */
  lemma GateDecides(h: Host, payload: bytes, v: Handshake.Version)
    ensures ReadStructHeader(payload).Got? && !OpcodeAvailableAt(ReadStructHeader(payload).value.0, v) ==>
              DecodeAt(h, payload, v) == Rejected(NotDefinedAtVersion(ReadStructHeader(payload).value.0))
    ensures ReadStructHeader(payload).Bad? || OpcodeAvailableAt(ReadStructHeader(payload).value.0, v) ==>
              DecodeAt(h, payload, v) == Decode(h, payload)
  {
  }

  /** What a version accepts, every later minor of the same major accepts alike. */
  lemma AcceptanceIsMonotone(h: Host, payload: bytes, v: Handshake.Version, w: Handshake.Version)
    requires v.major == w.major && v.minor <= w.minor && DecodeAt(h, payload, v).Accepted?
    ensures DecodeAt(h, payload, w) == DecodeAt(h, payload, v)
  {
  }

  lemma EncodedDecodesAt(h: Host, r: Request, v: Handshake.Version)
    requires InDomain(h, r) && Encode(r).Some? && OpcodeAvailableAt(Opcode(r), v)
    ensures DecodeAt(h, Encode(r).value, v) == Accepted(r)
  {
    hide Decode, DecodeAt, ReadStructHeader, StructHeader, BodyBytes, BodyOverlong, Fields;
    EncodedDecodes(h, r);
    StructHeaderRoundTrip(Opcode(r), |Fields(r)|, BodyBytes(r));
    GateDecides(h, Encode(r).value, v);
  }

  // ---- End to end --------------------------------------------------------------------------

  /** A request the client may send at this version under this message cap, and its payload. */
  ghost predicate Sendable(h: Host, r: Request, payload: bytes, v: Handshake.Version, cap: nat) {
    InDomain(h, r) && OpcodeAvailableAt(Opcode(r), v) && Encode(r) == Some(payload) && |payload| <= cap
  }

  /**
   Any pipeline of sendable requests, encoded, chunked and delivered in any pieces with frames asked
   for at any moments, is read as exactly those messages in order, and each decodes to its request.
   */
  lemma EndToEnd(h: Host, rs: seq<Request>, payloads: seq<bytes>, events: seq<Framing.Event>,
                 v: Handshake.Version, cap: nat)
    requires |payloads| == |rs| && forall i :: 0 <= i < |rs| ==> Sendable(h, rs[i], payloads[i], v, cap)
    requires Framing.Stream(events) == Framing.ChunkAll(payloads)
    ensures var (last, answers) := Framing.Run(Framing.INITIAL, events, cap);
            && Framing.Yielded(answers) + Framing.ParseAll(last, cap).frames == Framing.Messages(payloads)
            && forall i :: 0 <= i < |rs| ==> DecodeAt(h, payloads[i], v) == Accepted(rs[i])
  {
    hide Encode, DecodeAt, InDomain, Opcode, Framing.Run, Framing.ParseAll, Framing.ChunkAll;
    forall i | 0 <= i < |rs|
      ensures 0 < |payloads[i]| <= cap && DecodeAt(h, payloads[i], v) == Accepted(rs[i])
    {
      EncodedDecodesAt(h, rs[i], v);
      EncodingIsNotEmpty(rs[i]);
    }
    Framing.MessagesSurviveDelivery(payloads, events, cap);
  }

  /** With as many questions after the last delivery as there are requests, nothing stays behind. */
  lemma EndToEndAnswered(h: Host, rs: seq<Request>, payloads: seq<bytes>, events: seq<Framing.Event>, n: nat,
                         v: Handshake.Version, cap: nat)
    requires |payloads| == |rs| && forall i :: 0 <= i < |rs| ==> Sendable(h, rs[i], payloads[i], v, cap)
    requires Framing.Stream(events) == Framing.ChunkAll(payloads) && n >= |rs|
    ensures Framing.Yielded(Framing.Run(Framing.INITIAL, events + Framing.Asks(n), cap).1) == Framing.Messages(payloads)
    ensures forall i :: 0 <= i < |rs| ==> DecodeAt(h, payloads[i], v) == Accepted(rs[i])
  {
    hide Encode, DecodeAt, InDomain, Opcode, Framing.Run, Framing.ParseAll, Framing.ChunkAll;
    forall i | 0 <= i < |rs|
      ensures 0 < |payloads[i]| <= cap && DecodeAt(h, payloads[i], v) == Accepted(rs[i])
    {
      EncodedDecodesAt(h, rs[i], v);
      EncodingIsNotEmpty(rs[i]);
    }
    Framing.AllMessagesAnswered(payloads, events, n, cap);
  }

  lemma EncodingIsNotEmpty(r: Request)
    requires Encode(r).Some?
    ensures |Encode(r).value| >= 2
  {
  }
}
