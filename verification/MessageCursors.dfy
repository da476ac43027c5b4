/** Message encoding and decoding as the server runs it, over a packer and an unpacker. */
module MessageCursors {
  import opened Bytes
  import opened Wrappers
  import opened Values
  import opened Encoder
  import opened Decoder
  import opened Cells
  import opened Messages
  import opened Responses
  import opened Packers
  import opened Unpackers
  import opened CellCursors
  import Handshake
  import CellCanonicalisation
  import MessageRoundTrip

  method EncodeRequest(r: Request) returns (out: Option<bytes>)
    ensures out == Encode(r)
  {
    hide PropertyBytes, StringBytes, Pack, PackItems, Header, StructHeader, OverlongProperties, Overlong,
      OverlongItems, PullDiscardExtra;
    var p := new Packer();
    var ok := p.WriteStructHeader(Opcode(r), |Fields(r)|);
    if !ok {
      return None;
    }
    ghost var head := StructHeader(Opcode(r), |Fields(r)|);
    assert p.buf == head;
    PackBody(p, r);
    out := if p.CheckOverflow() then Some(p.buf) else None;
  }

  method PackBody(p: Packer, r: Request)
    modifies p
    ensures p.buf == old(p.buf) + BodyBytes(r)
    ensures p.overflow == First(old(p.overflow), BodyOverlong(r))
  {
    hide PropertyBytes, StringBytes, Pack, PackItems, Header, OverlongProperties, Overlong, OverlongItems;
    match r
    case Hello(extra) => PackProperties(p, extra);
    case Logon(auth) => PackProperties(p, auth);
    case Begin(extra) => PackProperties(p, extra);
    case Discard(n, qid) => PackPullDiscard(p, n, qid);
    case Pull(n, qid) => PackPullDiscard(p, n, qid);
    case RunQuery(query, parameters, extra) =>
      p.WriteString(query);
      PackProperties(p, parameters);
      PackProperties(p, extra);
    case Route(routing, bookmarks, extra) =>
      PackProperties(p, routing);
      p.WriteCollectionHeader(LIST, |bookmarks|);
      p.PackItemsAt(bookmarks, 0);
      PackProperties(p, extra);
    case Telemetry(api) =>
      p.PackValue(Integer(api));
      assert Overlong(Integer(api), 0).None? by {
        IntegerIsShort(api);
      }
    case Unsupported(_, fields) => p.PackItemsAt(fields, 0);
    case _ =>
  }

  lemma IntegerIsShort(n: i64)
    ensures Overlong(Integer(n), 0).None?
  {
  }

  method PackPullDiscard(p: Packer, n: i64, qid: Option<i64>)
    modifies p
    ensures p.buf == old(p.buf) + PropertyBytes(PullDiscardExtra(n, qid))
    ensures p.overflow == old(p.overflow)
  {
    hide PropertyBytes, OverlongProperties;
    PackProperties(p, PullDiscardExtra(n, qid));
    MessageRoundTrip.PullDiscardEntries(n, qid);
    CellCanonicalisation.PropertiesAccepted(PullDiscardExtra(n, qid));
  }

  method DecodeRequest(h: Host, payload: bytes) returns (r: Outcome<Request>)
    ensures r == Decode(h, payload)
  {
    hide ReadStructHeader, UnpackItems, FromStructure;
    var u := new Unpacker(h, payload);
    var head := u.ReadStructureHeader();
    if head.Failure? {
      return Rejected(head.error);
    }
    var fields := u.UnpackListItems(head.value.1);
    r := if fields.Failure? then Rejected(fields.error) else FromStructure(head.value.0, fields.value);
  }

  method DecodeRequestAt(h: Host, payload: bytes, v: Handshake.Version) returns (r: Outcome<Request>)
    ensures r == DecodeAt(h, payload, v)
  {
    hide ReadStructHeader, UnpackItems, FromStructure, OpcodeAvailableAt;
    var u := new Unpacker(h, payload);
    var head := u.ReadStructureHeader();
    if head.Failure? {
      return Rejected(head.error);
    }
    if !OpcodeAvailableAt(head.value.0, v) {
      return Rejected(NotDefinedAtVersion(head.value.0));
    }
    var fields := u.UnpackListItems(head.value.1);
    r := if fields.Failure? then Rejected(fields.error) else FromStructure(head.value.0, fields.value);
  }

  method EncodeResponseInto(p: Packer, r: Response) returns (ok: bool)
    modifies p
    ensures p.buf == old(p.buf) + ResponseBytes(r)
    ensures p.overflow == First(old(p.overflow), OverlongResponse(r))
    ensures ok <==> p.overflow.None?
  {
    hide PropertyBytes, Header, StructHeader, CellsBytes, OverlongProperties, OverlongCells, FailureMetadata;
    match r {
      case Success(metadata) =>
        var _ := p.WriteStructHeader(SUCCESS, 1);
        PackProperties(p, metadata);
      case Record(values) =>
        var _ := p.WriteStructHeader(RECORD, 1);
        p.WriteCollectionHeader(LIST, |values|);
        PackCells(p, values);
      case Ignored =>
        var _ := p.WriteStructHeader(IGNORED, 0);
      case Failed(code, message) =>
        var _ := p.WriteStructHeader(FAILURE, 1);
        PackProperties(p, FailureMetadata(code, message));
    }
    ok := p.CheckOverflow();
  }

  method ReadRecord(u: Unpacker, count: nat) returns (r: Outcome<Response>)
    requires u.InBounds() && u.depth == 0 && u.elementsRemaining == MAX_DECODE_ELEMENTS
    modifies u
    ensures r == DecodeRecord(u.host, count, old(u.Rest()))
  {
    hide ReadHeader, UnpackCells;
    if count != 1 {
      return Rejected(WrongFieldCount(RECORD, count));
    }
    var n := u.ReadCollectionHeader(LIST);
    if n.Failure? {
      return Rejected(n.error);
    }
    var cells := ReadCells(u, n.value);
    r := if cells.Failure? then Rejected(cells.error) else Accepted(Record(cells.value));
  }

  method DecodeResponsePayload(h: Host, payload: bytes) returns (r: Outcome<Response>)
    ensures r == DecodeResponse(h, payload)
  {
    hide ReadStructHeader, UnpackItems, FromFields, DecodeRecord;
    var u := new Unpacker(h, payload);
    var head := u.ReadStructureHeader();
    if head.Failure? {
      return Rejected(head.error);
    }
    var (tag, count) := head.value;
    if tag == RECORD {
      r := ReadRecord(u, count);
    } else {
      var fields := u.UnpackListItems(count);
      r := if fields.Failure? then Rejected(fields.error) else FromFields(tag, fields.value);
    }
  }
}
