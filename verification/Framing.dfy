/** Messages over a socket that moves any number of bytes per call and may be interrupted. */
module Framing {
  import opened Records
  import opened Wire

  datatype Message = Message(operation: U32, payload: seq<Byte>)

  /** Both loops count in a C `int`. */
  const SIZE_LIMIT := 0x8000_0000 - HEADER_SIZE

  predicate Sendable(m: Message) {
    |m.payload| < SIZE_LIMIT
  }

  predicate AllSendable(ms: seq<Message>) {
    forall i :: 0 <= i < |ms| ==> Sendable(ms[i])
  }

  function Frame(o: Order, m: Message): seq<Byte>
    requires Sendable(m)
  {
    HeaderBytes(o, Header(m.operation, |m.payload|)) + m.payload
  }

  function Stream(o: Order, ms: seq<Message>): seq<Byte>
    requires AllSendable(ms)
  {
    if ms == [] then [] else Frame(o, ms[0]) + Stream(o, ms[1..])
  }

  // ---------- receiving ----------

  datatype Event = Interrupted | Moved(count: nat)

  /** The receiving end.  `stream` is all the peer will still send before closing; `events` is what the kernel makes of
      the next calls, with finitely many interrupts. */
  class Source {
    var stream: seq<Byte>
    var events: seq<Event>

    constructor (stream: seq<Byte>, events: seq<Event>)
      ensures this.stream == stream && this.events == events
    {
      this.stream, this.events := stream, events;
    }

    /** `read`: -1 when interrupted, 0 at the end of the stream, else the number of bytes delivered. */
    method Read(max: nat) returns (n: int, data: seq<Byte>)
      requires max > 0
      modifies this
      ensures -1 <= n <= max && |events| <= old(|events|)
      ensures n == -1 ==> stream == old(stream) && |events| < old(|events|)
      ensures n >= 0 ==> n <= old(|stream|) && data == old(stream)[..n] && stream == old(stream)[n..]
      ensures n == 0 ==> old(stream) == []
    {
      if events != [] && events[0].Interrupted? {
        events := events[1..];
        return -1, [];
      }
      var count := max;
      if events != [] {
        count := if events[0].count == 0 then 1 else if events[0].count < max then events[0].count else max;
        events := events[1..];
      }
      n := if count < |stream| then count else |stream|;
      data, stream := stream[..n], stream[n..];
    }

    /** Fewer bytes than asked for only if the peer closes first; nothing beyond them is taken off the stream. */
    method ReadExact(buffer: array<Byte>, size: nat) returns (total: nat)
      requires size <= buffer.Length && size < 0x8000_0000
      modifies this, buffer
      ensures total == if size <= old(|stream|) then size else old(|stream|)
      ensures buffer[..total] == old(stream)[..total]
      ensures buffer[total..] == old(buffer[total..])
      ensures stream == old(stream)[total..]
    {
      total := 0;
      while total < size
        invariant total <= size && total <= old(|stream|)
        invariant buffer[..total] == old(stream)[..total]
        invariant buffer[total..] == old(buffer[total..])
        invariant stream == old(stream)[total..]
        decreases size - total, |events|
      {
        var n, data := Read(size - total);
        if n <= 0 {
          if n == -1 {
            continue;
          }
          return;
        }
        forall k | 0 <= k < n {
          buffer[total + k] := data[k];
        }
        assert buffer[..total + n] == buffer[..total] + data;
        total := total + n;
      }
    }

    /** A header, then the payload it announces: how the dispatch loop and a handler read one request.  A stream that
        ends in between, or a size no handler accepts, ends the reader with an error. */
    method ReceiveMessage(receiver: Order) returns (got: bool, closed: bool, m: Message)
      modifies this
      ensures got == Complete(receiver, old(stream)) && closed == (old(stream) == [])
      ensures got ==> m == FirstMessage(receiver, old(stream)) && stream == Rest(receiver, old(stream))
    {
      got, closed, m := false, false, Message(0, []);
      var headerBuffer := new Byte[HEADER_SIZE];
      var bytesRead := ReadExact(headerBuffer, HEADER_SIZE);
      if bytesRead == 0 {
        closed := true;
        return;
      }
      if bytesRead != HEADER_SIZE {
        return;
      }
      assert headerBuffer[..] == headerBuffer[..HEADER_SIZE] == old(stream)[..HEADER_SIZE];
      var header := ReadHeader(receiver, headerBuffer[..]);
      if header.payloadSize >= 0x8000_0000 {
        return;
      }
      var payload := new Byte[header.payloadSize];
      bytesRead := ReadExact(payload, header.payloadSize);
      if bytesRead < header.payloadSize {
        return;
      }
      assert payload[..] == payload[..bytesRead];
      return true, false, Message(header.operation, payload[..]);
    }

    /** Until the peer closes or an error: the messages are those the bytes stand for, whatever the splits and
        interrupts, and the end is clean exactly if no bytes are left over. */
    method ReceiveAll(receiver: Order) returns (received: seq<Message>, clean: bool)
      modifies this
      ensures received == Parsed(receiver, old(stream))
      ensures clean == (LeftOver(receiver, old(stream)) == [])
    {
      received := [];
      clean := false;
      ghost var left := stream;
      while true
        invariant stream == left
        invariant received + Parsed(receiver, left) == Parsed(receiver, old(stream))
        invariant LeftOver(receiver, left) == LeftOver(receiver, old(stream))
        decreases |stream|
      {
        var got, closed, m := ReceiveMessage(receiver);
        if !got {
          clean := closed;
          break;
        }
        assert received + Parsed(receiver, left) == (received + [m]) + Parsed(receiver, Rest(receiver, left));
        received := received + [m];
        left := Rest(receiver, left);
      }
    }
  }

  // ---------- the first message of a stream ----------

  predicate Complete(o: Order, s: seq<Byte>) {
    && HEADER_SIZE <= |s|
    && ReadHeader(o, s[..HEADER_SIZE]).payloadSize < 0x8000_0000
    && ReadHeader(o, s[..HEADER_SIZE]).payloadSize <= |s| - HEADER_SIZE
  }

  function FirstMessage(o: Order, s: seq<Byte>): Message
    requires Complete(o, s)
  {
    var h := ReadHeader(o, s[..HEADER_SIZE]);
    Message(h.operation, s[HEADER_SIZE..][..h.payloadSize])
  }

  function Rest(o: Order, s: seq<Byte>): seq<Byte>
    requires Complete(o, s)
  {
    s[HEADER_SIZE..][ReadHeader(o, s[..HEADER_SIZE]).payloadSize..]
  }

  /** The messages at the start of a stream, as far as they are complete. */
  function Parsed(o: Order, s: seq<Byte>): seq<Message>
    decreases |s|
  {
    if Complete(o, s) then [FirstMessage(o, s)] + Parsed(o, Rest(o, s)) else []
  }

  /** What is behind the last complete message. */
  function LeftOver(o: Order, s: seq<Byte>): seq<Byte>
    decreases |s|
  {
    if Complete(o, s) then LeftOver(o, Rest(o, s)) else s
  }

  lemma SplitsOfThree(a: seq<Byte>, b: seq<Byte>, c: seq<Byte>)
    ensures var s := a + b + c;
      s[..|a|] == a && s[|a|..][..|b|] == b && s[|a|..][|b|..] == c
  {}

  /** Reading undoes framing, on any pair of hosts. */
  lemma FrameParts(sender: Order, receiver: Order, ms: seq<Message>)
    requires AllSendable(ms) && ms != []
    ensures var s := Stream(sender, ms);
      Complete(receiver, s) && FirstMessage(receiver, s) == ms[0] && Rest(receiver, s) == Stream(sender, ms[1..])
  {
    var h := Header(ms[0].operation, |ms[0].payload|);
    HeaderCrosses(sender, receiver, h);
    SplitsOfThree(HeaderBytes(sender, h), ms[0].payload, Stream(sender, ms[1..]));
  }

  /** Framing round trip: any list of messages comes out as it went in, whatever the byte orders of the two hosts. */
  lemma {:induction false} StreamRoundTrip(sender: Order, receiver: Order, ms: seq<Message>)
    requires AllSendable(ms)
    ensures Parsed(receiver, Stream(sender, ms)) == ms && LeftOver(receiver, Stream(sender, ms)) == []
  {
    if ms != [] {
      FrameParts(sender, receiver, ms);
      StreamRoundTrip(sender, receiver, ms[1..]);
    }
  }

  // ---------- sending ----------

  /** The sending end.  `accepts` is how many bytes the kernel takes at the next calls; 0 is a failing call. */
  class Sink {
    var sent: seq<Byte>
    var accepts: seq<nat>

    constructor (accepts: seq<nat>)
      ensures sent == [] && this.accepts == accepts
    {
      sent, this.accepts := [], accepts;
    }

    method Send(data: seq<Byte>) returns (n: nat)
      requires data != []
      modifies this
      ensures n <= |data| && sent == old(sent) + data[..n]
      ensures 0 !in old(accepts) ==> 0 !in accepts && n > 0
    {
      n := |data|;
      if accepts != [] {
        n := if accepts[0] < |data| then accepts[0] else |data|;
        accepts := accepts[1..];
      }
      sent := sent + data[..n];
    }

    /** The loop of `send_header_and_payload`, which it runs over the header and again over the payload. */
    method SendBytes(bytes: seq<Byte>) returns (total: nat)
      modifies this
      ensures total <= |bytes| && sent == old(sent) + bytes[..total]
      ensures 0 !in old(accepts) ==> 0 !in accepts && total == |bytes|
    {
      total := 0;
      while total < |bytes|
        invariant total <= |bytes| && sent == old(sent) + bytes[..total]
        invariant 0 !in old(accepts) ==> 0 !in accepts
        decreases |bytes| - total
      {
        var n := Send(bytes[total..]);
        if n <= 0 {
          return;
        }
        assert bytes[..total] + bytes[total..][..n] == bytes[..total + n];
        total := total + n;
      }
    }

    /** What arrives is a prefix of the frame, as long as the returned number, and the whole frame if no call fails.
        `payload` is `None` for the handlers that stream the payload themselves. */
    method SendHeaderAndPayload(o: Order, header: Header, payload: Option<seq<Byte>>) returns (total: nat)
      requires header.payloadSize < SIZE_LIMIT
      requires payload.Some? ==> header.payloadSize <= |payload.value|
      modifies this
      ensures var frame := HeaderBytes(o, header) + if payload.Some? then payload.value[..header.payloadSize] else [];
        && total <= |frame| && sent == old(sent) + frame[..total]
        && (0 !in old(accepts) ==> 0 !in accepts && total == |frame|)
    {
      total := SendFrame(HeaderBytes(o, header), header.payloadSize, payload);
    }

    method SendFrame(networkHeader: seq<Byte>, payloadSize: nat, payload: Option<seq<Byte>>) returns (total: nat)
      requires payload.Some? ==> payloadSize <= |payload.value|
      modifies this
      ensures var frame := networkHeader + if payload.Some? then payload.value[..payloadSize] else [];
        && total <= |frame| && sent == old(sent) + frame[..total]
        && (0 !in old(accepts) ==> 0 !in accepts && total == |frame|)
    {
      ghost var body := if payload.Some? then payload.value[..payloadSize] else [];
      total := SendBytes(networkHeader);
      PrefixOfFrame(networkHeader, body, total);
      if total < |networkHeader| {
        return;
      }
      if payloadSize <= 0 || payload.None? {
        return |networkHeader|;
      }
      total := SendBytes(payload.value[..payloadSize]);
      PrefixOfFrame(networkHeader, body, |networkHeader| + total);
      total := total + |networkHeader|;
    }
  }

  // ---------- from one end to the other ----------

  lemma StreamStep(o: Order, ms: seq<Message>)
    requires AllSendable(ms) && ms != []
    ensures Stream(o, ms) == Frame(o, ms[0]) + Stream(o, ms[1..])
  {}

  lemma FrameIsWhole(o: Order, m: Message)
    requires Sendable(m)
    ensures HeaderBytes(o, Header(m.operation, |m.payload|)) + m.payload[..|m.payload|] == Frame(o, m)
  {
    assert m.payload[..|m.payload|] == m.payload;
  }

  method SendMessage(sender: Order, m: Message, sink: Sink) returns (complete: bool)
    requires Sendable(m)
    modifies sink
    ensures 0 !in old(sink.accepts) ==>
              complete && 0 !in sink.accepts && sink.sent == old(sink.sent) + Frame(sender, m)
  {
    FrameIsWhole(sender, m);
    var total := sink.SendHeaderAndPayload(sender, Header(m.operation, |m.payload|), Some(m.payload));
    complete := total == HEADER_SIZE + |m.payload|;
  }

  lemma OneFrameOn(before: seq<Byte>, o: Order, ms: seq<Message>, i: nat)
    requires AllSendable(ms) && i < |ms|
    ensures AllSendable(ms[i..]) && AllSendable(ms[i + 1..])
    ensures before + Stream(o, ms[i..]) == (before + Frame(o, ms[i])) + Stream(o, ms[i + 1..])
  {
    StreamStep(o, ms[i..]);
    assert ms[i..][1..] == ms[i + 1..];
  }

  /** Messages sent one after the other over a socket whose calls do not fail put exactly their stream on it. */
  method SendAll(sender: Order, ms: seq<Message>, sink: Sink) returns (complete: bool)
    requires AllSendable(ms)
    modifies sink
    ensures 0 !in old(sink.accepts) ==> complete && sink.sent == old(sink.sent) + Stream(sender, ms)
  {
    complete := true;
    assert ms[0..] == ms;
    for i := 0 to |ms|
      invariant 0 !in old(sink.accepts) ==>
                  complete && 0 !in sink.accepts
                  && sink.sent + Stream(sender, ms[i..]) == old(sink.sent) + Stream(sender, ms)
    {
      OneFrameOn(sink.sent, sender, ms, i);
      var whole := SendMessage(sender, ms[i], sink);
      complete := complete && whole;
    }
    assert sink.sent + Stream(sender, ms[|ms|..]) == sink.sent;
  }

  /** Framing round trip, end to end: whatever the sender's socket takes per call and the receiver's delivers, with
      finitely many interrupts, and whatever the byte orders of the hosts, the messages arrive as they were sent. */
  method Transfer(sender: Order, receiver: Order, ms: seq<Message>, accepts: seq<nat>, events: seq<Event>)
    returns (received: seq<Message>, clean: bool)
    requires AllSendable(ms) && 0 !in accepts
    ensures received == ms && clean
  {
    var sink := new Sink(accepts);
    var complete := SendAll(sender, ms, sink);
    var source := new Source(sink.sent, events);
    StreamRoundTrip(sender, receiver, ms);
    assert sink.sent == [] + Stream(sender, ms) == Stream(sender, ms);
    received, clean := source.ReceiveAll(receiver);
  }

  lemma PrefixOfFrame(bytes: seq<Byte>, body: seq<Byte>, n: nat)
    requires n <= |bytes| + |body|
    ensures (bytes + body)[..n] == if n <= |bytes| then bytes[..n] else bytes + body[..n - |bytes|]
  {}

  datatype Option<T> = None | Some(value: T)
}
