/** A client and a server joined: requests encoded, chunked, delivered in pieces, reassembled, decoded. */
module Conversations {
  import opened Bytes
  import opened Wrappers
  import opened Values
  import opened Messages
  import opened Dechunkers
  import Framing
  import Handshake
  import MessageCursors
  import MessageRoundTrip

  /** What the frames of a stream decode to at a version; keep-alives are passed over. */
  function Decoded(h: Host, v: Handshake.Version, frames: seq<Framing.Frame>): seq<Outcome<Request>> {
    if frames == [] then []
    else (if frames[0].Message? then [DecodeAt(h, frames[0].payload, v)] else []) + Decoded(h, v, frames[1..])
  }

  lemma {:induction false} DecodedThen(h: Host, v: Handshake.Version, a: seq<Framing.Frame>, b: seq<Framing.Frame>)
    ensures Decoded(h, v, a + b) == Decoded(h, v, a) + Decoded(h, v, b)
  {
    hide DecodeAt;
    if a == [] {
      assert a + b == b;
    } else {
      assert (a + b)[1..] == a[1..] + b;
      DecodedThen(h, v, a[1..], b);
    }
  }

  lemma {:induction false} DecodedMessages(h: Host, v: Handshake.Version, payloads: seq<bytes>)
    ensures |Decoded(h, v, Framing.Messages(payloads))| == |payloads|
    ensures forall i :: 0 <= i < |payloads| ==>
              Decoded(h, v, Framing.Messages(payloads))[i] == DecodeAt(h, payloads[i], v)
  {
    hide DecodeAt;
    if payloads != [] {
      DecodedMessages(h, v, payloads[1..]);
    }
  }

  /**
   Takes every frame now buffered, decoding the messages. Whatever arrives later, the frames taken
   and those still to come are those of the whole stream.
   */
  method Drain(d: Dechunker, h: Host, v: Handshake.Version, ghost later: bytes)
    returns (got: seq<Outcome<Request>>, ghost frames: seq<Framing.Frame>)
    requires d.Valid()
    modifies d
    ensures d.Valid() && got == Decoded(h, v, frames)
    ensures var tail := Framing.ParseAll(Framing.Feed(d.View(), later), d.maxMessageSize);
            Framing.ParseAll(Framing.Feed(old(d.View()), later), d.maxMessageSize)
              == tail.(frames := frames + tail.frames)
    ensures Framing.ParseAll(d.View(), d.maxMessageSize).frames == []
  {
    hide Framing.Next, Framing.ParseAll, DecodeAt;
    got, frames := [], [];
    ghost var whole := Framing.ParseAll(Framing.Feed(d.View(), later), d.maxMessageSize);
    assert [] + whole.frames == whole.frames;
    while true
      invariant d.Valid() && got == Decoded(h, v, frames)
      invariant var tail := Framing.ParseAll(Framing.Feed(d.View(), later), d.maxMessageSize);
                whole == tail.(frames := frames + tail.frames)
      decreases |d.View().pending|
    {
      Framing.ParseAfterNext(d.View(), later, d.maxMessageSize);
      Framing.StuckStays(d.View(), d.maxMessageSize);
      var answer := d.NextFrame();
      if !answer.Delivered? {
        return;
      }
      ghost var tail := Framing.ParseAll(Framing.Feed(d.View(), later), d.maxMessageSize).frames;
      assert frames + ([answer.frame] + tail) == frames + [answer.frame] + tail;
      DecodedThen(h, v, frames, [answer.frame]);
      if answer.frame.Message? {
        var r := MessageCursors.DecodeRequestAt(h, answer.frame.payload, v);
        got := got + [r];
      }
      frames := frames + [answer.frame];
    }
  }

  /** The payloads of requests that can be encoded. */
  function Payloads(rs: seq<Request>): seq<bytes>
    requires forall i :: 0 <= i < |rs| ==> Encode(rs[i]).Some?
  {
    seq(|rs|, i requires 0 <= i < |rs| => Encode(rs[i]).value)
  }

  /** Every request encoded and chunked onto one stream. */
  method Send(rs: seq<Request>) returns (wire: bytes)
    requires forall i :: 0 <= i < |rs| ==> Encode(rs[i]).Some?
    ensures wire == Framing.ChunkAll(Payloads(rs))
  {
    hide Encode, Framing.Chunk;
    wire := [];
    for k := 0 to |rs|
      invariant wire == Framing.ChunkAll(Payloads(rs[..k]))
    {
      var payload := MessageCursors.EncodeRequest(rs[k]);
      wire := Framing.ChunkMessageInto(wire, payload.value);
      assert Payloads(rs[..k + 1]) == Payloads(rs[..k]) + [payload.value];
      Framing.ChunkOneMore(Payloads(rs[..k]), payload.value);
    }
    assert rs[..|rs|] == rs;
  }

  /**
   The pipeline as it runs, its stream cut wherever `cuts` says: every request sent is received as
   itself, in order, and nothing else is received.
   */
  method Converse(h: Host, rs: seq<Request>, v: Handshake.Version, cap: nat, cuts: seq<nat>)
    returns (received: seq<Outcome<Request>>)
    requires forall i :: 0 <= i < |rs| ==> MessageRoundTrip.InDomain(h, rs[i])
    requires forall i :: 0 <= i < |rs| ==> OpcodeAvailableAt(Opcode(rs[i]), v)
    requires forall i :: 0 <= i < |rs| ==> Encode(rs[i]).Some? && |Encode(rs[i]).value| <= cap
    ensures |received| == |rs| && forall i :: 0 <= i < |rs| ==> received[i] == Accepted(rs[i])
  {
    hide Encode, DecodeAt, MessageRoundTrip.InDomain, Opcode, OpcodeAvailableAt, Framing.Next, Framing.ParseAll,
      Framing.ChunkAll, Framing.Chunk, Decoded;
    var wire := Send(rs);
    ghost var payloads := Payloads(rs);
    var d := new Dechunker(cap);
    ghost var frames: seq<Framing.Frame> := [];
    received := [];
    var at := 0;
    EmptyDecoded(h, v);
    assert Framing.Feed(d.View(), wire[0..]) == Framing.State(wire, [], false);
    ghost var whole := Framing.ParseAll(Framing.State(wire, [], false), cap);
    assert [] + whole.frames == whole.frames;
    for k := 0 to |cuts| + 1
      invariant fresh(d) && d.Valid() && d.maxMessageSize == cap && at <= |wire|
      invariant received == Decoded(h, v, frames)
      invariant var tail := Framing.ParseAll(Framing.Feed(d.View(), wire[at..]), cap);
                whole == tail.(frames := frames + tail.frames)
      invariant k == |cuts| + 1 ==> at == |wire| && Framing.ParseAll(d.View(), cap).frames == []
    {
      var next := if k < |cuts| && at + cuts[k] < |wire| then at + cuts[k] else |wire|;
      assert Framing.Feed(Framing.Feed(d.View(), wire[at..next]), wire[next..]) == Framing.Feed(d.View(), wire[at..]);
      d.Push(wire[at..next]);
      at := next;
      var got;
      ghost var taken;
      got, taken := Drain(d, h, v, wire[at..]);
      DecodedThen(h, v, frames, taken);
      ghost var tail := Framing.ParseAll(Framing.Feed(d.View(), wire[at..]), cap).frames;
      assert frames + (taken + tail) == frames + taken + tail;
      received, frames := received + got, frames + taken;
    }
    assert Framing.Feed(d.View(), wire[at..]) == d.View();
    assert frames + [] == frames;
    StreamDecodes(h, rs, payloads, v, cap);
  }

  /** The stream the requests were chunked onto, read at once, decodes to those requests. */
  lemma StreamDecodes(h: Host, rs: seq<Request>, payloads: seq<bytes>, v: Handshake.Version, cap: nat)
    requires |payloads| == |rs|
    requires forall i :: 0 <= i < |rs| ==> MessageRoundTrip.Sendable(h, rs[i], payloads[i], v, cap)
    ensures var got := Decoded(h, v, Framing.ParseAll(Framing.State(Framing.ChunkAll(payloads), [], false), cap).frames);
            |got| == |rs| && forall i :: 0 <= i < |rs| ==> got[i] == Accepted(rs[i])
  {
    hide Encode, DecodeAt, MessageRoundTrip.InDomain, Opcode, OpcodeAvailableAt, Framing.ParseAll, Framing.ChunkAll,
      Decoded;
    forall i | 0 <= i < |rs|
      ensures 0 < |payloads[i]| <= cap && DecodeAt(h, payloads[i], v) == Accepted(rs[i])
    {
      MessageRoundTrip.EncodedDecodesAt(h, rs[i], v);
      MessageRoundTrip.EncodingIsNotEmpty(rs[i]);
    }
    Framing.ParseOfChunks(payloads, cap);
    DecodedMessages(h, v, payloads);
  }

  lemma EmptyDecoded(h: Host, v: Handshake.Version)
    ensures Decoded(h, v, []) == []
  {
  }
}
