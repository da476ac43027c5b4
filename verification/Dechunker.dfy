/** The incremental reader: a byte buffer with a lazily compacted read cursor. */
module Dechunkers {
  import opened Bytes
  import opened Framing

  lemma TakeIs(st: State, after: State, len: nat)
    requires HasChunk(st) && len == ChunkLength(st.pending)
    requires after == State(st.pending[2 + len..], st.assembling + st.pending[2..2 + len], true)
    ensures after == Take(st)
  {
  }

  class Dechunker {
    var inbox: bytes
    var readCursor: nat
    var assembling: bytes
    var inMessage: bool
    const maxMessageSize: nat

    ghost predicate Valid()
      reads this
    {
      readCursor <= |inbox|
    }

    /** What the cursor and the buffer stand for: only the bytes behind the cursor are pending. */
    ghost function View(): State
      requires Valid()
      reads this
    {
      State(inbox[readCursor..], assembling, inMessage)
    }

    constructor (maxMessageSize: nat := DEFAULT_MAX_MESSAGE_SIZE)
      ensures Valid() && View() == INITIAL && this.maxMessageSize == maxMessageSize
    {
      inbox, readCursor, assembling, inMessage := [], 0, [], false;
      this.maxMessageSize := maxMessageSize;
    }

    method Push(data: bytes)
      requires Valid()
      modifies this
      ensures Valid() && View() == Feed(old(View()), data)
    {
      Compact();
      inbox := inbox + data;
    }

    /** Drops consumed bytes; nothing observable changes. */
    method Compact()
      requires Valid()
      modifies this`inbox, this`readCursor
      ensures Valid() && View() == old(View()) && readCursor == 0
    {
      if readCursor == 0 {
        return;
      }
      if readCursor >= |inbox| {
        inbox := [];
      } else {
        inbox := inbox[readCursor..];
      }
      readCursor := 0;
    }

    method CompactIfDrained()
      requires Valid()
      modifies this`inbox, this`readCursor
      ensures Valid() && View() == old(View())
    {
      if readCursor >= |inbox| {
        inbox, readCursor := [], 0;
      }
    }

    method NextFrame() returns (answer: Poll)
      requires Valid()
      modifies this
      ensures Valid() && (View(), answer) == Next(old(View()), maxMessageSize)
    {
      hide Next, Take;
      while true
        invariant Valid() && Next(View(), maxMessageSize) == Next(old(View()), maxMessageSize)
        decreases |inbox| - readCursor
      {
        if readCursor > 8192 && readCursor > |inbox| / 2 {
          Compact();
        }
        ghost var st := View();
        NextStep(st, maxMessageSize);
        var avail := |inbox| - readCursor;
        if avail < 2 {
          return NeedMore;
        }
        var base := readCursor;
        var len := (inbox[base] as int) * 0x100 + inbox[base + 1];
        assert len == ChunkLength(st.pending);
        if len == 0 {
          readCursor := readCursor + 2;
          assert inbox[readCursor..] == st.pending[2..];
          if inMessage {
            var payload := assembling;
            assembling, inMessage := [], false;
            CompactIfDrained();
            return Delivered(Message(payload));
          }
          CompactIfDrained();
          return Delivered(Noop);
        }
        if |assembling| + len > maxMessageSize {
          return TooLarge;
        }
        var total := 2 + len;
        if avail < total {
          return NeedMore;
        }
        TakeChunk(len);
      }
    }

    /** Moves one whole chunk from behind the cursor to the message being assembled. */
    method TakeChunk(len: nat)
      requires Valid() && HasChunk(View()) && len == ChunkLength(View().pending)
      modifies this`assembling, this`inMessage, this`readCursor
      ensures Valid() && View() == Take(old(View())) && inbox == old(inbox) && readCursor > old(readCursor)
    {
      hide Take;
      ghost var st := View();
      var base, total := readCursor, 2 + len;
      assert inbox[base + 2..base + total] == st.pending[2..total] && inbox[base + total..] == st.pending[total..];
      assembling := assembling + inbox[base + 2..base + total];
      inMessage := true;
      readCursor := readCursor + total;
      TakeIs(st, View(), len);
    }

    /** Whether a partial chunk or message is waiting for more input. */
    predicate HasBuffered(): (b: bool)
      requires Valid()
      reads this
      ensures b <==> View().pending != [] || View().assembling != []
    {
      readCursor < |inbox| || assembling != []
    }
  }

  /** Any run of the reader itself: answers and state left are those of the same run of the pure machine. */
  method Drive(events: seq<Event>, cap: nat) returns (answers: seq<Poll>, d: Dechunker)
    ensures fresh(d) && d.Valid() && (d.View(), answers) == Run(INITIAL, events, cap)
  {
    d := new Dechunker(cap);
    answers := [];
    for i := 0 to |events|
      invariant fresh(d) && d.Valid() && d.maxMessageSize == cap
      invariant Run(INITIAL, events, cap).0 == Run(d.View(), events[i..], cap).0
      invariant Run(INITIAL, events, cap).1 == answers + Run(d.View(), events[i..], cap).1
    {
      hide Next;
      assert events[i..][0] == events[i] && events[i..][1..] == events[i + 1..];
      match events[i]
      case Push(data) => d.Push(data);
      case Ask =>
        ghost var tail := Run(Next(d.View(), cap).0, events[i + 1..], cap).1;
        var answer := d.NextFrame();
        assert answers + ([answer] + tail) == answers + [answer] + tail;
        answers := answers + [answer];
    }
    assert answers + [] == answers;
  }
}
