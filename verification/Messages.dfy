/** Bolt 5.4 requests: their structures on the wire, the per-version gate, and the typed decoder. */
module Messages {
  import opened Bytes
  import opened Wrappers
  import opened Values
  import opened Encoder
  import opened Decoder
  import opened Cells
  import Handshake

  const HELLO: byte := 0x01
  const GOODBYE: byte := 0x02
  const RESET: byte := 0x0F
  const RUN: byte := 0x10
  const BEGIN: byte := 0x11
  const COMMIT: byte := 0x12
  const ROLLBACK: byte := 0x13
  const DISCARD: byte := 0x2F
  const PULL: byte := 0x3F
  const TELEMETRY: byte := 0x54
  const ROUTE: byte := 0x66
  const LOGON: byte := 0x6A
  const LOGOFF: byte := 0x6B

  datatype Request =
    | Hello(helloExtra: seq<Entry>)
    | Logon(auth: seq<Entry>)
    | Logoff
    | RunQuery(query: bytes, parameters: seq<Entry>, runExtra: seq<Entry>)
    | Discard(discardN: i64, discardQid: Option<i64>)
    | Pull(pullN: i64, pullQid: Option<i64>)
    | Begin(beginExtra: seq<Entry>)
    | Commit
    | Rollback
    | Reset
    | Goodbye
    | Route(routing: seq<Entry>, bookmarks: seq<Value>, routeExtra: seq<Entry>)
    | Telemetry(api: i64)
    | Unsupported(opcode: byte, fields: seq<Value>)

  predicate IsKnownOpcode(tag: byte) {
    tag in {HELLO, GOODBYE, RESET, RUN, BEGIN, COMMIT, ROLLBACK, DISCARD, PULL, TELEMETRY, ROUTE, LOGON, LOGOFF}
  }

  /** The lowest minor of major 5 that defines an opcode. */
  function OpcodeMinMinor(tag: byte): byte {
    if tag == LOGON || tag == LOGOFF then 1
    else if tag == TELEMETRY then 4
    else Handshake.MIN_MINOR
  }

  predicate OpcodeAvailableAt(tag: byte, v: Handshake.Version) {
    v.major != Handshake.SUPPORTED_MAJOR || v.minor >= OpcodeMinMinor(tag)
  }

  // ---- Encoding ----------------------------------------------------------------------------

  const N_KEY: bytes := [0x6E]
  const QID_KEY: bytes := [0x71, 0x69, 0x64]

  function PullDiscardExtra(n: i64, qid: Option<i64>): seq<Entry> {
    [Entry(N_KEY, Integer(n))] + if qid.Some? then [Entry(QID_KEY, Integer(qid.value))] else []
  }

  function Opcode(r: Request): byte {
    match r
    case Hello(_) => HELLO
    case Logon(_) => LOGON
    case Logoff => LOGOFF
    case RunQuery(_, _, _) => RUN
    case Discard(_, _) => DISCARD
    case Pull(_, _) => PULL
    case Begin(_) => BEGIN
    case Commit => COMMIT
    case Rollback => ROLLBACK
    case Reset => RESET
    case Goodbye => GOODBYE
    case Route(_, _, _) => ROUTE
    case Telemetry(_) => TELEMETRY
    case Unsupported(opcode, _) => opcode
  }

  /** The fields of a request's structure, as values. */
  function Fields(r: Request): seq<Value> {
    match r
    case Hello(extra) => [Map(extra)]
    case Logon(auth) => [Map(auth)]
    case RunQuery(query, parameters, extra) => [String(query), Map(parameters), Map(extra)]
    case Discard(n, qid) => [Map(PullDiscardExtra(n, qid))]
    case Pull(n, qid) => [Map(PullDiscardExtra(n, qid))]
    case Begin(extra) => [Map(extra)]
    case Route(routing, bookmarks, extra) => [Map(routing), List(bookmarks), Map(extra)]
    case Telemetry(api) => [Integer(api)]
    case Unsupported(_, fields) => fields
    case _ => []
  }

  /** The bytes after the structure header; maps and lists are written entry by entry. */
  function BodyBytes(r: Request): bytes {
    match r
    case Hello(extra) => PropertyBytes(extra)
    case Logon(auth) => PropertyBytes(auth)
    case RunQuery(query, parameters, extra) => StringBytes(query) + PropertyBytes(parameters) + PropertyBytes(extra)
    case Discard(n, qid) => PropertyBytes(PullDiscardExtra(n, qid))
    case Pull(n, qid) => PropertyBytes(PullDiscardExtra(n, qid))
    case Begin(extra) => PropertyBytes(extra)
    case Route(routing, bookmarks, extra) =>
      PropertyBytes(routing) + (Header(LIST, |bookmarks|) + PackItems(bookmarks, 0)) + PropertyBytes(extra)
    case Telemetry(api) => Pack(Integer(api), 0)
    case Unsupported(_, fields) => PackItems(fields, 0)
    case _ => []
  }

  function BodyOverlong(r: Request): Option<nat> {
    match r
    case Hello(extra) => OverlongProperties(extra)
    case Logon(auth) => OverlongProperties(auth)
    case RunQuery(query, parameters, extra) =>
      First(Refused(|query|), First(OverlongProperties(parameters), OverlongProperties(extra)))
    case Begin(extra) => OverlongProperties(extra)
    case Route(routing, bookmarks, extra) =>
      First(OverlongProperties(routing),
            First(First(Refused(|bookmarks|), OverlongItems(bookmarks, 0)), OverlongProperties(extra)))
    case Unsupported(_, fields) => OverlongItems(fields, 0)
    case _ => None
  }

  /** The payload, or a refusal: too many fields, or a collection no header can describe. */
  function Encode(r: Request): Option<bytes> {
    if |Fields(r)| > MAX_STRUCT_FIELDS || BodyOverlong(r).Some? then None
    else Some(StructHeader(Opcode(r), |Fields(r)|) + BodyBytes(r))
  }

  // ---- Decoding ----------------------------------------------------------------------------

  datatype Outcome<+T> = Accepted(value: T) | Rejected(error: DecodeError)

  function FindInt(entries: seq<Entry>, key: bytes): Option<i64> {
    if entries == [] then None
    else if entries[0].key == key && entries[0].value.Integer? then Some(entries[0].value.n)
    else FindInt(entries[1..], key)
  }

  function FromMap(tag: byte, fields: seq<Value>, build: seq<Entry> -> Request): Outcome<Request> {
    if |fields| != 1 then Rejected(WrongFieldCount(tag, |fields|))
    else if !fields[0].Map? then Rejected(WrongFieldType(tag))
    else Accepted(build(fields[0].entries))
  }

  function FromNothing(tag: byte, fields: seq<Value>, r: Request): Outcome<Request> {
    if |fields| != 0 then Rejected(WrongFieldCount(tag, |fields|)) else Accepted(r)
  }

  /** `n` is mandatory in a PULL or DISCARD; `qid` is not. */
  function FromPullDiscard(tag: byte, fields: seq<Value>, build: (i64, Option<i64>) -> Request): Outcome<Request> {
    if |fields| != 1 then Rejected(WrongFieldCount(tag, |fields|))
    else if !fields[0].Map? then Rejected(WrongFieldType(tag))
    else
      match FindInt(fields[0].entries, N_KEY)
      case None => Rejected(MissingFetchSize(tag))
      case Some(n) => Accepted(build(n, FindInt(fields[0].entries, QID_KEY)))
  }

  function FromStructure(tag: byte, fields: seq<Value>): Outcome<Request> {
    if tag == HELLO then FromMap(tag, fields, extra => Hello(extra))
    else if tag == LOGON then FromMap(tag, fields, auth => Logon(auth))
    else if tag == LOGOFF then FromNothing(tag, fields, Logoff)
    else if tag == RUN then
      if |fields| != 3 then Rejected(WrongFieldCount(tag, |fields|))
      else if !fields[0].String? || !fields[1].Map? || !fields[2].Map? then Rejected(WrongFieldType(tag))
      else Accepted(RunQuery(fields[0].text, fields[1].entries, fields[2].entries))
    else if tag == DISCARD then FromPullDiscard(tag, fields, (n: i64, qid: Option<i64>) => Discard(n, qid))
    else if tag == PULL then FromPullDiscard(tag, fields, (n: i64, qid: Option<i64>) => Pull(n, qid))
    else if tag == BEGIN then FromMap(tag, fields, extra => Begin(extra))
    else if tag == COMMIT then FromNothing(tag, fields, Commit)
    else if tag == ROLLBACK then FromNothing(tag, fields, Rollback)
    else if tag == RESET then FromNothing(tag, fields, Reset)
    else if tag == GOODBYE then FromNothing(tag, fields, Goodbye)
    else if tag == ROUTE then
      if |fields| != 3 then Rejected(WrongFieldCount(tag, |fields|))
      else if !fields[0].Map? || !fields[1].List? || !fields[2].Map? then Rejected(WrongFieldType(tag))
      else Accepted(Route(fields[0].entries, fields[1].items, fields[2].entries))
    else if tag == TELEMETRY then
      if |fields| != 1 then Rejected(WrongFieldCount(tag, |fields|))
      else if !fields[0].Integer? then Rejected(WrongFieldType(tag))
      else Accepted(Telemetry(fields[0].n))
    else Accepted(Unsupported(tag, fields))
  }

  /** Each structure field is charged to the element budget like any other element. */
  function DecodeBody(h: Host, tag: byte, count: nat, s: bytes): Outcome<Request> {
    var fields := UnpackItems(h, count, s, 0, MAX_DECODE_ELEMENTS);
    if fields.Err? then Rejected(fields.error) else FromStructure(tag, fields.value)
  }

  function Decode(h: Host, payload: bytes): Outcome<Request> {
    match ReadStructHeader(payload)
    case Bad(e) => Rejected(e)
    case Got((tag, count), s) => DecodeBody(h, tag, count, s)
  }

  /** The session's decoder: a message the negotiated version does not define is refused unread. */
  function DecodeAt(h: Host, payload: bytes, v: Handshake.Version): Outcome<Request> {
    match ReadStructHeader(payload)
    case Bad(e) => Rejected(e)
    case Got((tag, count), s) =>
      if !OpcodeAvailableAt(tag, v) then Rejected(NotDefinedAtVersion(tag)) else DecodeBody(h, tag, count, s)
  }
}
