/**
 Bolt chunk framing. A message travels as length-prefixed chunks closed by a zero length; the reader
 must give the same frames however the bytes happen to arrive.
 */
module Framing {
  import opened Bytes

  const MAX_CHUNK_PAYLOAD := 0xFFFF
  const DEFAULT_MAX_MESSAGE_SIZE := 67_108_864

  const END_MARKER: bytes := [0, 0]

  datatype Frame = Message(payload: bytes) | Noop

  /** What one call of `next_frame` answers. */
  datatype Poll = Delivered(frame: Frame) | NeedMore | TooLarge

  /** Unparsed bytes, the payload assembled so far, and whether any chunk contributed to it. */
  datatype State = State(pending: bytes, assembling: bytes, inMessage: bool)

  const INITIAL := State([], [], false)

  function ChunkLength(s: bytes): nat
    requires |s| >= 2
  {
    (s[0] as int) * 0x100 + s[1]
  }

  /** Whether a whole data chunk is buffered. */
  predicate HasChunk(st: State) {
    |st.pending| >= 2 && 0 < ChunkLength(st.pending) <= |st.pending| - 2
  }

  /** Moves one data chunk from the pending bytes to the message being assembled. */
  function Take(st: State): (r: State)
    requires HasChunk(st)
    ensures |r.pending| < |st.pending|
  {
    var len := ChunkLength(st.pending);
    State(st.pending[2 + len..], st.assembling + st.pending[2..2 + len], true)
  }

  /** Consumes whole chunks until a message ends, bytes run out or the cap would be passed. */
  function Next(st: State, cap: nat): (r: (State, Poll))
    ensures |r.0.pending| <= |st.pending|
    ensures r.1.Delivered? ==> |r.0.pending| < |st.pending|
    decreases |st.pending|
  {
    if |st.pending| < 2 then (st, NeedMore) else
    var len := ChunkLength(st.pending);
    if len == 0 then
      if st.inMessage then (State(st.pending[2..], [], false), Delivered(Message(st.assembling)))
      else (st.(pending := st.pending[2..]), Delivered(Noop))
    else if |st.assembling| + len > cap then (st, TooLarge)
    else if |st.pending| < 2 + len then (st, NeedMore)
    else Next(Take(st), cap)
  }

  /** One turn of the parser's loop. */
  lemma NextStep(st: State, cap: nat)
    ensures |st.pending| < 2 ==> Next(st, cap) == (st, NeedMore)
    ensures |st.pending| >= 2 && ChunkLength(st.pending) == 0 ==>
              Next(st, cap) == if st.inMessage then (State(st.pending[2..], [], false), Delivered(Message(st.assembling)))
                               else (st.(pending := st.pending[2..]), Delivered(Noop))
    ensures |st.pending| >= 2 && ChunkLength(st.pending) > 0 && |st.assembling| + ChunkLength(st.pending) > cap ==>
              Next(st, cap) == (st, TooLarge)
    ensures |st.pending| >= 2 && ChunkLength(st.pending) > 0 && |st.assembling| + ChunkLength(st.pending) <= cap ==>
              Next(st, cap) == if HasChunk(st) then Next(Take(st), cap) else (st, NeedMore)
  {
  }

  // ---- Runs --------------------------------------------------------------------------------

  datatype Event = Push(data: bytes) | Ask

  function Feed(st: State, data: bytes): State {
    st.(pending := st.pending + data)
  }

  /** The state and the answers after any interleaving of deliveries and questions. */
  function Run(st: State, events: seq<Event>, cap: nat): (State, seq<Poll>)
    decreases |events|
  {
    if events == [] then (st, [])
    else
      match events[0]
      case Push(data) => Run(Feed(st, data), events[1..], cap)
      case Ask =>
        var (st', answer) := Next(st, cap);
        var (last, answers) := Run(st', events[1..], cap);
        (last, [answer] + answers)
  }

  /** Everything a run delivers, as one stream. */
  function Stream(events: seq<Event>): bytes {
    if events == [] then []
    else (if events[0].Push? then events[0].data else []) + Stream(events[1..])
  }

  /** The frames among the answers. */
  function Yielded(answers: seq<Poll>): seq<Frame> {
    if answers == [] then []
    else (if answers[0].Delivered? then [answers[0].frame] else []) + Yielded(answers[1..])
  }

  /** All frames in the pending bytes, where parsing then stops, and whether at a refusal. */
  datatype Parse = Parse(frames: seq<Frame>, last: State, refused: bool)

  function ParseAll(st: State, cap: nat): Parse
    decreases |st.pending|
  {
    var (st', answer) := Next(st, cap);
    match answer
    case Delivered(f) =>
      var tail := ParseAll(st', cap);
      tail.(frames := [f] + tail.frames)
    case NeedMore => Parse([], st', false)
    case TooLarge => Parse([], st', true)
  }

  lemma FeedTake(st: State, data: bytes)
    requires HasChunk(st)
    ensures HasChunk(Feed(st, data)) && Take(Feed(st, data)) == Feed(Take(st), data)
    ensures ChunkLength(Feed(st, data).pending) == ChunkLength(st.pending)
  {
  }

  /** Bytes that arrive later do not change an answer already given. */
  lemma {:induction false} NextAfterFeed(st: State, data: bytes, cap: nat)
    ensures var (st', answer) := Next(st, cap);
            if answer.NeedMore? then Next(Feed(st, data), cap) == Next(Feed(st', data), cap)
            else Next(Feed(st, data), cap) == (Feed(st', data), answer)
    decreases |st.pending|
  {
    if |st.pending| >= 2 {
      var len, fed := ChunkLength(st.pending), Feed(st, data);
      assert fed.pending[0] == st.pending[0] && fed.pending[1] == st.pending[1];
      assert ChunkLength(fed.pending) == len;
      if len == 0 {
        assert fed.pending[2..] == st.pending[2..] + data;
      } else if |st.assembling| + len <= cap && |st.pending| >= 2 + len {
        hide Take;
        FeedTake(st, data);
        NextAfterFeed(Take(st), data, cap);
      }
    }
  }

  lemma ParseAfterNext(st: State, data: bytes, cap: nat)
    ensures var (st', answer) := Next(st, cap);
            var tail := ParseAll(Feed(st', data), cap);
            var whole := ParseAll(Feed(st, data), cap);
            whole == if answer.Delivered? then tail.(frames := [answer.frame] + tail.frames) else tail
  {
    hide Next;
    var (st', answer) := Next(st, cap);
    NextAfterFeed(st, data, cap);
    if answer.TooLarge? {
      NextAfterFeed(st', data, cap);
      RefusalStays(st, cap);
    }
  }

  /** A refused state refuses again. */
  lemma {:induction false} RefusalStays(st: State, cap: nat)
    requires Next(st, cap).1.TooLarge?
    ensures Next(Next(st, cap).0, cap) == Next(st, cap)
    decreases |st.pending|
  {
    var len := ChunkLength(st.pending);
    if |st.assembling| + len <= cap {
      RefusalStays(Take(st), cap);
    }
  }

  /**
   However the bytes are cut and whenever frames are asked for, the frames answered, followed by the
   ones still buffered, are those of parsing the whole stream at once; so are the state left over
   and the verdict.
   */
  lemma {:induction false} DeliveryIndependence(st: State, events: seq<Event>, cap: nat)
    ensures var (last, answers) := Run(st, events, cap);
            var whole := ParseAll(Feed(st, Stream(events)), cap);
            var tail := ParseAll(last, cap);
            whole == tail.(frames := Yielded(answers) + tail.frames)
    decreases |events|
  {
    hide Next, ParseAll;
    if events == [] {
      assert Feed(st, []) == st;
      assert [] + ParseAll(st, cap).frames == ParseAll(st, cap).frames;
    } else {
      var rest := Stream(events[1..]);
      match events[0]
      case Push(data) =>
        DeliveryIndependence(Feed(st, data), events[1..], cap);
        assert st.pending + (data + rest) == st.pending + data + rest;
      case Ask =>
        var (st', answer) := Next(st, cap);
        DeliveryIndependence(st', events[1..], cap);
        ParseAfterNext(st, rest, cap);
        var (last, answers) := Run(st', events[1..], cap);
        var tail := ParseAll(last, cap).frames;
        assert [] + rest == rest;
        assert ([answer] + answers)[1..] == answers;
        if answer.Delivered? {
          assert [answer.frame] + (Yielded(answers) + tail) == [answer.frame] + Yielded(answers) + tail;
        } else {
          assert [] + Yielded(answers) == Yielded(answers);
        }
    }
  }

  /** Once a message has been refused for its size, every later answer is the same refusal. */
  lemma {:induction false} RefusalIsFinal(st: State, events: seq<Event>, cap: nat)
    requires Next(st, cap) == (st, TooLarge)
    ensures forall i :: 0 <= i < |Run(st, events, cap).1| ==> Run(st, events, cap).1[i] == TooLarge
    decreases |events|
  {
    hide Next;
    if events != [] {
      match events[0]
      case Push(data) =>
        NextAfterFeed(st, data, cap);
        RefusalIsFinal(Feed(st, data), events[1..], cap);
      case Ask =>
        RefusalIsFinal(st, events[1..], cap);
    }
  }

  /** A refusal leaves the reader in a state to which `RefusalIsFinal` applies. */
  lemma RefusalSettles(st: State, cap: nat)
    requires Next(st, cap).1.TooLarge?
    ensures Next(Next(st, cap).0, cap) == (Next(st, cap).0, TooLarge)
  {
    hide Next;
    RefusalStays(st, cap);
  }

  lemma {:induction false} NextWithinCap(st: State, cap: nat)
    requires |st.assembling| <= cap
    ensures var (st', answer) := Next(st, cap);
            |st'.assembling| <= cap && (answer.Delivered? && answer.frame.Message? ==> |answer.frame.payload| <= cap)
    decreases |st.pending|
  {
    if |st.pending| >= 2 {
      var len := ChunkLength(st.pending);
      if 0 < len && |st.assembling| + len <= cap && |st.pending| >= 2 + len {
        NextWithinCap(Take(st), cap);
      }
    }
  }

  /** No run ever holds or hands out a payload longer than the cap. */
  lemma {:induction false} RunWithinCap(st: State, events: seq<Event>, cap: nat)
    requires |st.assembling| <= cap
    ensures var (last, answers) := Run(st, events, cap);
            && |last.assembling| <= cap
            && forall f :: f in Yielded(answers) && f.Message? ==> |f.payload| <= cap
    decreases |events|
  {
    hide Next;
    if events != [] {
      match events[0]
      case Push(data) => RunWithinCap(Feed(st, data), events[1..], cap);
      case Ask =>
        NextWithinCap(st, cap);
        var (st', answer) := Next(st, cap);
        RunWithinCap(st', events[1..], cap);
        var answers := Run(st', events[1..], cap).1;
        assert ([answer] + answers)[1..] == answers;
    }
  }

  // ---- The wire format, read without a machine -------------------------------------------------

  /** The whole chunks at the front of a byte string, the empty ones being end markers. */
  function Chunks(s: bytes): seq<bytes>
    decreases |s|
  {
    if |s| < 2 || |s| < 2 + ChunkLength(s) then []
    else [s[2..2 + ChunkLength(s)]] + Chunks(s[2 + ChunkLength(s)..])
  }

  /** Data chunks run together up to their end marker; an end marker on its own is a no-op. */
  function Group(chunks: seq<bytes>, sofar: bytes, open: bool): seq<Frame>
    decreases |chunks|
  {
    if chunks == [] then []
    else if chunks[0] != [] then Group(chunks[1..], sofar + chunks[0], true)
    else [if open then Message(sofar) else Noop] + Group(chunks[1..], [], false)
  }

  ghost function Grouped(st: State): seq<Frame> {
    Group(Chunks(st.pending), st.assembling, st.inMessage)
  }

  lemma GroupedTake(st: State)
    requires HasChunk(st)
    ensures Grouped(Take(st)) == Grouped(st)
  {
  }

  lemma GroupedEnd(st: State)
    requires |st.pending| >= 2 && ChunkLength(st.pending) == 0
    ensures Grouped(st) == [if st.inMessage then Message(st.assembling) else Noop]
                           + Group(Chunks(st.pending[2..]), [], false)
  {
  }

  /** The payload bytes the headers announce for the message at the front, its last chunk arrived or not. */
  function Announced(s: bytes): nat
    decreases |s|
  {
    if |s| < 2 then 0
    else
      var len := ChunkLength(s);
      if len == 0 || |s| < 2 + len then len else len + Announced(s[2 + len..])
  }

  /** What follows the first end marker, or the bytes at which the chunks run out. */
  function Behind(s: bytes): (r: bytes)
    ensures |r| <= |s|
    decreases |s|
  {
    if |s| < 2 then s
    else
      var len := ChunkLength(s);
      if len == 0 then s[2..] else if |s| < 2 + len then s else Behind(s[2 + len..])
  }

  /** The reader's position once the first `n` frames are gone. */
  function Beyond(st: State, n: nat): State
    decreases n
  {
    if n == 0 then st else Beyond(State(Behind(st.pending), [], false), n - 1)
  }

  /** The message now open is announced to be longer than the cap. */
  predicate OverCap(st: State, cap: nat) {
    Announced(st.pending) > 0 && |st.assembling| + Announced(st.pending) > cap
  }

  lemma {:induction false} NextGrouped(st: State, cap: nat)
    requires st.inMessage || st.assembling == []
    ensures var (st', answer) := Next(st, cap);
            && (st'.inMessage || st'.assembling == [])
            && (answer.TooLarge? <==> OverCap(st, cap))
            && (answer.Delivered? ==> st' == Beyond(st, 1))
            && Grouped(st) == match answer
                              case Delivered(f) => [f] + Grouped(st')
                              case NeedMore => []
                              case TooLarge => Grouped(st')
    decreases |st.pending|
  {
    NextStep(st, cap);
    if |st.pending| >= 2 {
      hide Next;
      if ChunkLength(st.pending) == 0 {
        GroupedEnd(st);
      } else if |st.assembling| + ChunkLength(st.pending) <= cap && HasChunk(st) {
        GroupedTake(st);
        NextGrouped(Take(st), cap);
        assert Announced(st.pending) == ChunkLength(st.pending) + Announced(Take(st).pending);
        assert Behind(st.pending) == Behind(Take(st).pending);
      }
    }
  }

  /**
   The parser finds exactly the frames the wire format spells out, up to the message it refuses if
   there is one; and it refuses exactly when the headers behind those frames announce, for the
   message then open, more bytes than the cap.
   */
  lemma {:induction false} ParseIsGrouping(st: State, cap: nat)
    requires st.inMessage || st.assembling == []
    ensures var p := ParseAll(st, cap);
            && p.frames <= Grouped(st)
            && (!p.refused ==> p.frames == Grouped(st))
            && (p.refused <==> OverCap(Beyond(st, |p.frames|), cap))
            && forall n :: 0 <= n < |p.frames| ==> !OverCap(Beyond(st, n), cap)
    decreases |st.pending|
  {
    hide Next, Grouped, OverCap, Behind;
    NextGrouped(st, cap);
    var (st', answer) := Next(st, cap);
    if answer.Delivered? {
      ParseIsGrouping(st', cap);
      var tail := ParseAll(st', cap).frames;
      assert [answer.frame] + tail <= [answer.frame] + Grouped(st');
      forall n | 0 < n <= |tail| + 1 ensures Beyond(st, n) == Beyond(st', n - 1) {
        BeyondStep(st, n);
      }
    }
  }

  lemma BeyondStep(st: State, n: nat)
    requires n > 0
    ensures Beyond(st, n) == Beyond(Beyond(st, 1), n - 1)
  {
  }

  // ---- Chunking ----------------------------------------------------------------------------

  function ChunkSize(payload: bytes): nat {
    if |payload| <= MAX_CHUNK_PAYLOAD then |payload| else MAX_CHUNK_PAYLOAD
  }

  /** A payload cut into full chunks, then the end marker. */
  function Chunk(payload: bytes): bytes
    decreases |payload|
  {
    if payload == [] then END_MARKER else
    var n := ChunkSize(payload);
    Be(2, n) + payload[..n] + Chunk(payload[n..])
  }

  method ChunkMessageInto(out: bytes, payload: bytes) returns (r: bytes)
    ensures r == out + Chunk(payload)
  {
    r := out;
    var at := 0;
    while at < |payload|
      invariant at <= |payload|
      invariant r + Chunk(payload[at..]) == out + Chunk(payload)
    {
      var n := ChunkSize(payload[at..]);
      var piece := payload[at..at + n];
      assert piece == payload[at..][..n] && payload[at..][n..] == payload[at + n..];
      assert r + (Be(2, n) + piece + Chunk(payload[at + n..])) == r + Be(2, n) + piece + Chunk(payload[at + n..]);
      r := r + Be(2, n);
      r := r + piece;
      at := at + n;
    }
    r := r + END_MARKER;
  }

  lemma BeTwo(n: nat)
    requires n <= 0xFFFF
    ensures Be(2, n) == [n / 0x100, n % 0x100]
  {
  }

  /** One chunk, met by a reader that has room for it, is taken in whole. */
  lemma NextOfChunk(piece: bytes, tail: bytes, a: bytes, m: bool, cap: nat)
    requires 0 < |piece| <= MAX_CHUNK_PAYLOAD
    ensures Next(State(Be(2, |piece|) + piece + tail, a, m), cap)
         == if |a| + |piece| > cap then (State(Be(2, |piece|) + piece + tail, a, m), TooLarge)
            else Next(State(tail, a + piece, true), cap)
  {
    BeTwo(|piece|);
    var pending := Be(2, |piece|) + piece + tail;
    assert ChunkLength(pending) == |piece|;
    assert pending[2..2 + |piece|] == piece && pending[2 + |piece|..] == tail;
  }

  lemma NextOfEnd(tail: bytes, a: bytes, m: bool, cap: nat)
    ensures Next(State(END_MARKER + tail, a, m), cap)
         == if m then (State(tail, [], false), Delivered(Message(a))) else (State(tail, a, m), Delivered(Noop))
  {
  }

  /**
   A chunked payload is reassembled exactly when it fits under the cap, with whatever follows it
   left unread; otherwise it is refused.
   */
  lemma {:induction false} ChunkedPayload(payload: bytes, tail: bytes, a: bytes, m: bool, cap: nat)
    requires payload != [] || m
    requires |a| <= cap
    ensures var r := Next(State(Chunk(payload) + tail, a, m), cap);
            if |a| + |payload| <= cap then r == (State(tail, [], false), Delivered(Message(a + payload)))
            else r.1 == TooLarge
    decreases |payload|
  {
    hide Next, Be;
    if payload == [] {
      NextOfEnd(tail, a, m, cap);
      assert a + payload == a;
    } else {
      var n := ChunkSize(payload);
      var piece, rest := payload[..n], payload[n..];
      var after := Chunk(rest) + tail;
      assert Chunk(payload) + tail == Be(2, n) + piece + after;
      NextOfChunk(piece, after, a, m, cap);
      if |a| + n <= cap {
        ChunkedPayload(rest, tail, a + piece, true, cap);
        assert a + piece + rest == a + payload;
      }
    }
  }

  function ChunkAll(payloads: seq<bytes>): bytes {
    if payloads == [] then [] else Chunk(payloads[0]) + ChunkAll(payloads[1..])
  }

  lemma {:induction false} ChunkOneMore(payloads: seq<bytes>, payload: bytes)
    ensures ChunkAll(payloads + [payload]) == ChunkAll(payloads) + Chunk(payload)
  {
    hide Chunk;
    if payloads == [] {
      assert [payload][1..] == [] && Chunk(payload) + [] == Chunk(payload);
    } else {
      ChunkOneMore(payloads[1..], payload);
      assert (payloads + [payload])[1..] == payloads[1..] + [payload];
    }
  }

  function Messages(payloads: seq<bytes>): seq<Frame> {
    if payloads == [] then [] else [Message(payloads[0])] + Messages(payloads[1..])
  }

  lemma {:induction false} ParseOfChunks(payloads: seq<bytes>, cap: nat)
    requires forall i :: 0 <= i < |payloads| ==> 0 < |payloads[i]| <= cap
    ensures ParseAll(State(ChunkAll(payloads), [], false), cap) == Parse(Messages(payloads), INITIAL, false)
  {
    hide Next, Chunk;
    if payloads == [] {
      NextOfNothing(cap);
    } else {
      ChunkedPayload(payloads[0], ChunkAll(payloads[1..]), [], false, cap);
      assert [] + payloads[0] == payloads[0];
      ParseOfChunks(payloads[1..], cap);
    }
  }

  lemma NextOfNothing(cap: nat)
    ensures Next(INITIAL, cap) == (INITIAL, NeedMore)
  {
  }

  /** Any number of chunked messages, delivered in any pieces, come out as themselves, in order. */
  lemma MessagesSurviveDelivery(payloads: seq<bytes>, events: seq<Event>, cap: nat)
    requires forall i :: 0 <= i < |payloads| ==> 0 < |payloads[i]| <= cap
    requires Stream(events) == ChunkAll(payloads)
    ensures var (last, answers) := Run(INITIAL, events, cap);
            Yielded(answers) + ParseAll(last, cap).frames == Messages(payloads)
  {
    hide Next, ParseAll, Run;
    DeliveryIndependence(INITIAL, events, cap);
    assert [] + Stream(events) == Stream(events);
    ParseOfChunks(payloads, cap);
  }

  // ---- Asking until nothing is left ------------------------------------------------------------

  function Asks(n: nat): seq<Event> {
    if n == 0 then [] else [Ask] + Asks(n - 1)
  }

  lemma {:induction false} RunThen(st: State, events: seq<Event>, more: seq<Event>, cap: nat)
    ensures var (mid, answers) := Run(st, events, cap);
            var (last, answers') := Run(mid, more, cap);
            Run(st, events + more, cap) == (last, answers + answers')
    ensures Stream(events + more) == Stream(events) + Stream(more)
    decreases |events|
  {
    hide Next;
    if events == [] {
      assert events + more == more;
      assert [] + Run(st, more, cap).1 == Run(st, more, cap).1;
    } else {
      assert (events + more)[1..] == events[1..] + more;
      match events[0]
      case Push(data) =>
        RunThen(Feed(st, data), events[1..], more, cap);
        assert data + (Stream(events[1..]) + Stream(more)) == data + Stream(events[1..]) + Stream(more);
      case Ask =>
        var (st', answer) := Next(st, cap);
        RunThen(st', events[1..], more, cap);
        var (mid, answers) := Run(st', events[1..], cap);
        var answers' := Run(mid, more, cap).1;
        assert [answer] + (answers + answers') == [answer] + answers + answers';
        assert [] + (Stream(events[1..]) + Stream(more)) == [] + Stream(events[1..]) + Stream(more);
    }
  }

  /** Each question takes one frame off the buffer, if there is one. */
  lemma {:induction false} AsksDrain(st: State, n: nat, cap: nat)
    ensures Stream(Asks(n)) == []
    ensures var left := |ParseAll(st, cap).frames|;
            |ParseAll(Run(st, Asks(n), cap).0, cap).frames| == if left <= n then 0 else left - n
    decreases n
  {
    hide Next, ParseAll;
    if n > 0 {
      var st' := Next(st, cap).0;
      assert Asks(n)[1..] == Asks(n - 1);
      AsksDrain(st', n - 1, cap);
      ParseAfterNext(st, [], cap);
      assert Feed(st, []) == st && Feed(st', []) == st';
      StuckIsEmpty(st, cap);
    }
  }

  lemma StuckIsEmpty(st: State, cap: nat)
    ensures !Next(st, cap).1.Delivered? ==> ParseAll(st, cap).frames == []
  {
    hide Next;
  }

  /** A question that yields no frame leaves none to be found. */
  lemma StuckStays(st: State, cap: nat)
    ensures !Next(st, cap).1.Delivered? ==> ParseAll(Next(st, cap).0, cap).frames == []
  {
    hide Next;
    ParseAfterNext(st, [], cap);
    assert Feed(st, []) == st && Feed(Next(st, cap).0, []) == Next(st, cap).0;
    StuckIsEmpty(st, cap);
  }

  /** Once enough questions follow the last delivery, the answers alone are the frames of the stream. */
  lemma AllFramesAnswered(st: State, events: seq<Event>, n: nat, cap: nat)
    requires n >= |ParseAll(Run(st, events, cap).0, cap).frames|
    ensures Yielded(Run(st, events + Asks(n), cap).1) == ParseAll(Feed(st, Stream(events)), cap).frames
  {
    hide Next, ParseAll, Run, Yielded;
    RunThen(st, events, Asks(n), cap);
    AsksDrain(Run(st, events, cap).0, n, cap);
    DeliveryIndependence(st, events + Asks(n), cap);
    assert Stream(events) + [] == Stream(events);
    var answers := Run(st, events + Asks(n), cap).1;
    assert Yielded(answers) + [] == Yielded(answers);
  }

  /** As many questions as messages are always enough. */
  lemma AllMessagesAnswered(payloads: seq<bytes>, events: seq<Event>, n: nat, cap: nat)
    requires forall i :: 0 <= i < |payloads| ==> 0 < |payloads[i]| <= cap
    requires Stream(events) == ChunkAll(payloads) && n >= |payloads|
    ensures Yielded(Run(INITIAL, events + Asks(n), cap).1) == Messages(payloads)
  {
    hide Next, ParseAll, Run, Yielded, ChunkAll;
    MessagesSurviveDelivery(payloads, events, cap);
    MessageCount(payloads);
    AllFramesAnswered(INITIAL, events, n, cap);
    assert [] + Stream(events) == Stream(events);
    ParseOfChunks(payloads, cap);
  }

  lemma {:induction false} MessageCount(payloads: seq<bytes>)
    ensures |Messages(payloads)| == |payloads|
    ensures forall i :: 0 <= i < |payloads| ==> Messages(payloads)[i] == Message(payloads[i])
  {
    if payloads != [] {
      MessageCount(payloads[1..]);
    }
  }
}
