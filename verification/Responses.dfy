/** Bolt responses: one metadata map, a row of cells, nothing, or a failure code and message. */
module Responses {
  import opened Bytes
  import opened Wrappers
  import opened Values
  import opened Encoder
  import opened Decoder
  import opened Cells
  import opened Messages
  import opened ItemRoundTrip
  import Utf8
  import ValueRoundTrip
  import Canonicalisation
  import CellRoundTrip
  import CellCanonicalisation
  import MessageRoundTrip

  const SUCCESS: byte := 0x70
  const RECORD: byte := 0x71
  const IGNORED: byte := 0x7E
  const FAILURE: byte := 0x7F

  const CODE_KEY: bytes := [0x63, 0x6F, 0x64, 0x65]
  const MESSAGE_KEY: bytes := [0x6D, 0x65, 0x73, 0x73, 0x61, 0x67, 0x65]

  datatype Response =
    | Success(metadata: seq<Entry>)
    | Record(values: seq<Cell>)
    | Ignored
    | Failed(code: bytes, message: bytes)

  function FailureMetadata(code: bytes, message: bytes): seq<Entry> {
    [Entry(CODE_KEY, String(code)), Entry(MESSAGE_KEY, String(message))]
  }

  function OverlongResponse(r: Response): Option<nat> {
    match r
    case Success(metadata) => OverlongProperties(metadata)
    case Record(values) => First(Refused(|values|), OverlongCells(values))
    case Ignored => None
    case Failed(code, message) => OverlongProperties(FailureMetadata(code, message))
  }

  function ResponseBytes(r: Response): bytes {
    match r
    case Success(metadata) => StructHeader(SUCCESS, 1) + PropertyBytes(metadata)
    case Record(values) => StructHeader(RECORD, 1) + (Header(LIST, |values|) + CellsBytes(values))
    case Ignored => StructHeader(IGNORED, 0)
    case Failed(code, message) => StructHeader(FAILURE, 1) + PropertyBytes(FailureMetadata(code, message))
  }

  function EncodeResponse(r: Response): Option<bytes> {
    if OverlongResponse(r).Some? then None else Some(ResponseBytes(r))
  }

  /** The first string stored under `key`, or the empty string. */
  function FindText(entries: seq<Entry>, key: bytes): bytes {
    if entries == [] then []
    else if entries[0].key == key && entries[0].value.String? then entries[0].value.text
    else FindText(entries[1..], key)
  }

  function FromFields(tag: byte, fields: seq<Value>): Outcome<Response> {
    if tag == SUCCESS || tag == FAILURE then
      if |fields| != 1 then Rejected(WrongFieldCount(tag, |fields|))
      else if !fields[0].Map? then Rejected(WrongFieldType(tag))
      else
        var m := fields[0].entries;
        Accepted(if tag == SUCCESS then Response.Success(m) else Failed(FindText(m, CODE_KEY), FindText(m, MESSAGE_KEY)))
    else if tag == IGNORED then
      if |fields| != 0 then Rejected(WrongFieldCount(tag, |fields|)) else Accepted(Ignored)
    else Rejected(UnknownTag(tag))
  }

  /** A record's single field is read as cells, which may be graph entities. */
  function DecodeRecord(h: Host, count: nat, s: bytes): Outcome<Response> {
    if count != 1 then Rejected(WrongFieldCount(RECORD, count)) else
    match ReadHeader(LIST, s)
    case Bad(e) => Rejected(e)
    case Got(n, t) =>
      var cells := UnpackCells(h, n, t, 0, MAX_DECODE_ELEMENTS);
      if cells.Err? then Rejected(cells.error) else Accepted(Record(cells.value))
  }

  function DecodeFields(h: Host, tag: byte, count: nat, s: bytes): Outcome<Response> {
    var fields := UnpackItems(h, count, s, 0, MAX_DECODE_ELEMENTS);
    if fields.Err? then Rejected(fields.error) else FromFields(tag, fields.value)
  }

  function DecodeResponse(h: Host, payload: bytes): Outcome<Response> {
    match ReadStructHeader(payload)
    case Bad(e) => Rejected(e)
    case Got((tag, count), s) => if tag == RECORD then DecodeRecord(h, count, s) else DecodeFields(h, tag, count, s)
  }

  // ---- Round trip --------------------------------------------------------------------------

  ghost predicate GoodMap(h: Host, entries: seq<Entry>) {
    && CanonicalProperties(h, entries) && FitsProperties(entries)
    && PropertiesNesting(entries) <= MAX_DECODE_DEPTH && 1 + EntriesElements(entries) <= MAX_DECODE_ELEMENTS
  }

  ghost predicate GoodResponse(h: Host, r: Response) {
    match r
    case Success(metadata) => GoodMap(h, metadata)
    case Record(values) =>
      && GoodCells(h, values) && |values| <= I32_MAX
      && CellsNesting(values) <= MAX_DECODE_DEPTH && CellsElements(values) <= MAX_DECODE_ELEMENTS
    case Ignored => true
    case Failed(code, message) => Text(code) && Text(message)
  }

  /** Only the cells of a record change, to their normal form. */
  function NormalResponse(r: Response): Response {
    if r.Record? then Record(NormalCells(r.values)) else r
  }

  lemma KeysAreText()
    ensures Utf8.Valid(CODE_KEY) && Utf8.Valid(MESSAGE_KEY)
  {
  }

  lemma FailureFieldsFound(code: bytes, message: bytes)
    ensures FindText(FailureMetadata(code, message), CODE_KEY) == code
    ensures FindText(FailureMetadata(code, message), MESSAGE_KEY) == message
  {
  }

  lemma FailureMetadataGood(h: Host, code: bytes, message: bytes)
    requires Text(code) && Text(message)
    ensures GoodMap(h, FailureMetadata(code, message))
  {
    hide Utf8.Valid;
    KeysAreText();
    var first, second := Entry(CODE_KEY, String(code)), Entry(MESSAGE_KEY, String(message));
    assert FailureMetadata(code, message) == [first] + [second] && [second] == [second] + [];
    assert CODE_KEY[0] != MESSAGE_KEY[0];
    MessageRoundTrip.FirstCanonical(h, first, [second]);
    MessageRoundTrip.FirstEntry(first, [second]);
    MessageRoundTrip.FirstCanonical(h, second, []);
    MessageRoundTrip.FirstEntry(second, []);
  }

  lemma MapResponseRoundTrip(h: Host, tag: byte, m: seq<Entry>)
    requires GoodMap(h, m) && tag <= MAX_STRUCT_TAG && tag != RECORD
    ensures var payload := StructHeader(tag, 1) + PropertyBytes(m);
            DecodeResponse(h, payload) == FromFields(tag, [Map(m)]) && OverlongProperties(m).None?
  {
    hide StructHeader, ReadStructHeader, PropertyBytes, UnpackItems, PackItems, Pack, CanonicalEntries, FitsEntries,
      EntriesNesting, EntriesElements, OverlongProperties, DistinctKeys, FromFields;
    StructHeaderRoundTrip(tag, 1, PropertyBytes(m));
    CellCanonicalisation.PropertiesAccepted(m);
    MessageRoundTrip.MapField(m);
    MessageRoundTrip.OneField(Map(m));
    assert PackItems([Map(m)], 0) + [] == PropertyBytes(m);
    OneMapGood(h, m);
    ValueRoundTrip.ItemsRoundTrip(h, [Map(m)], 0, [], 0, MAX_DECODE_ELEMENTS);
  }

  lemma OneMapGood(h: Host, m: seq<Entry>)
    requires GoodMap(h, m)
    ensures CanonicalItems(h, [Map(m)]) && FitsItems([Map(m)])
    ensures ItemsNesting([Map(m)]) <= MAX_DECODE_DEPTH && ItemsElements([Map(m)]) <= MAX_DECODE_ELEMENTS
  {
    assert [Map(m)][0] == Map(m) && [Map(m)][1..] == [];
    assert CanonicalItems(h, []) && FitsItems([]) && ItemsNesting([]) == 0 && ItemsElements([]) == 0;
  }

  lemma RecordRoundTrip(h: Host, values: seq<Cell>)
    requires GoodResponse(h, Record(values))
    ensures DecodeResponse(h, ResponseBytes(Record(values))) == Accepted(Record(NormalCells(values)))
  {
    hide StructHeader, ReadStructHeader, Header, ReadHeader, CellsBytes, UnpackCells, GoodCells, CellsNesting,
      CellsElements, NormalCells;
    var body := CellsBytes(values) + [];
    assert Header(LIST, |values|) + CellsBytes(values) == Header(LIST, |values|) + body;
    StructHeaderRoundTrip(RECORD, 1, Header(LIST, |values|) + body);
    HeaderRoundTrip(LIST, |values|, body);
    CellRoundTrip.CellsTrip(h, values, [], 0, MAX_DECODE_ELEMENTS);
  }

  /** A good response is never refused and decodes to itself, its cells in normal form. */
  lemma ResponseRoundTrip(h: Host, r: Response)
    requires GoodResponse(h, r)
    ensures EncodeResponse(r).Some?
    ensures DecodeResponse(h, EncodeResponse(r).value) == Accepted(NormalResponse(r))
  {
    hide StructHeader, ReadStructHeader, PropertyBytes, CellsBytes, DecodeResponse, GoodMap, OverlongProperties,
      OverlongCells, Header, FindText, NormalCells, GoodCells, CellsNesting, CellsElements, Utf8.Valid,
      FailureMetadata;
    match r
    case Success(metadata) => MapResponseRoundTrip(h, SUCCESS, metadata);
    case Record(values) =>
      RecordRoundTrip(h, values);
      CellCanonicalisation.CellsAccepted(h, values);
    case Ignored => IgnoredRoundTrip(h);
    case Failed(code, message) =>
      FailureMetadataGood(h, code, message);
      FailureFieldsFound(code, message);
      MapResponseRoundTrip(h, FAILURE, FailureMetadata(code, message));
  }

  lemma IgnoredRoundTrip(h: Host)
    ensures DecodeResponse(h, StructHeader(IGNORED, 0)) == Accepted(Ignored)
  {
  }

  lemma {:induction false} FoundTextIsGood(h: Host, entries: seq<Entry>, key: bytes)
    requires CanonicalEntries(h, entries) && FitsEntries(entries)
    ensures Text(FindText(entries, key))
  {
    hide Utf8.Valid;
    Utf8.AsciiIsValid([]);
    if entries != [] {
      FoundTextIsGood(h, entries[1..], key);
    }
  }

  /** Any accepted response is good and already normal, so encoding it again loses nothing. */
  lemma ResponseCanonicalisedOnce(h: Host, payload: bytes)
    requires ValidHost(h) && |payload| <= I32_MAX && DecodeResponse(h, payload).Accepted?
    ensures var r := DecodeResponse(h, payload).value;
            EncodeResponse(r).Some? && DecodeResponse(h, EncodeResponse(r).value) == Accepted(r)
  {
    hide ReadStructHeader, ReadHeader, UnpackItems, UnpackCells, EncodeResponse, GoodCells, NormalCells,
      CellsNesting, CellsElements, Utf8.Valid, FindText, CanonicalItems, FitsItems, ItemsNesting, ItemsElements;
    var r := DecodeResponse(h, payload).value;
    var (head, s) := ReadStructHeader(payload).Extract();
    if r.Record? {
      var (n, t) := ReadHeader(LIST, s).Extract();
      CellCanonicalisation.CellsSound(h, n, t, 0, MAX_DECODE_ELEMENTS);
    } else {
      Canonicalisation.ItemsSound(h, head.1, s, 0, MAX_DECODE_ELEMENTS);
      var fields := UnpackItems(h, head.1, s, 0, MAX_DECODE_ELEMENTS).value;
      if |fields| == 1 && fields[0].Map? {
        OneMapBack(h, fields);
        FoundTextIsGood(h, fields[0].entries, CODE_KEY);
        FoundTextIsGood(h, fields[0].entries, MESSAGE_KEY);
      }
    }
    ResponseRoundTrip(h, r);
  }

  lemma OneMapBack(h: Host, fields: seq<Value>)
    requires |fields| == 1 && fields[0].Map? && CanonicalItems(h, fields) && FitsItems(fields)
    requires ItemsNesting(fields) <= MAX_DECODE_DEPTH && ItemsElements(fields) <= MAX_DECODE_ELEMENTS
    ensures GoodMap(h, fields[0].entries)
  {
  }
}
