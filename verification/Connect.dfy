/** The Connect streaming envelope and the Rust SDK's stream reader
    (crates/app-sdk/src/connect_client.rs). */
module Connect {
  import opened Bytes
  import opened Incremental

  const MESSAGE_FLAGS: byte := 0x00
  const END_STREAM_FLAGS: byte := 0x02

  datatype StreamError =
    | CompressedFrame | UnknownFrameFlags(flags: byte) | MalformedTrailer | PartialFrame
    | Undecodable | Trailer(error: bytes) | Body(error: bytes)

  /** What the reader sends to its channel. */
  datatype Item = Message(value: bytes) | Error(error: StreamError)

  datatype TrailerBody = NotJson | Parsed(error: Option<bytes>)

  /** The protobuf and JSON decoders of the frame bodies. */
  datatype Bodies = Bodies(decode: bytes -> Option<bytes>, trailer: bytes -> TrailerBody)

  datatype Frame = MessageFrame(body: bytes) | EndStream(error: Option<bytes>)

  datatype Decoded = Incomplete | Bad(error: StreamError) | Complete(frame: Frame, used: nat)

  /** Panics when the message is longer than its length field can say. */
  function Encode(flags: byte, message: bytes): (framed: bytes)
    requires |message| < U32_LIMIT
    ensures |framed| == 5 + |message|
  {
    Pow256Values();
    [flags] + BigEndian(|message|, 4) + message
  }

  function DecodeNext(bodies: Bodies, input: bytes): (d: Decoded)
    ensures d.Complete? ==> 5 <= d.used <= |input|
  {
    if |input| < 5 then Incomplete
    else
      var flags, used := input[0], 5 + FromBigEndian(input[1..5]);
      if |input| < used then Incomplete
      else
        var body := input[5..used];
        if flags == MESSAGE_FLAGS then Complete(MessageFrame(body), used)
        else if flags == END_STREAM_FLAGS then
          if body == [] then Complete(EndStream(None), used)
          else match bodies.trailer(body)
            case NotJson => Bad(MalformedTrailer)
            case Parsed(error) => Complete(EndStream(error), used)
        else if flags % 2 == 1 then Bad(CompressedFrame)
        else Bad(UnknownFrameFlags(flags))
  }

  function ItemOf(bodies: Bodies, body: bytes): Item
  {
    match bodies.decode(body)
    case Some(value) => Message(value)
    case None => Error(Undecodable)
  }

  function EndOf(error: Option<bytes>): seq<Item>
  {
    match error
    case Some(e) => [Error(Trailer(e))]
    case None => []
  }

  function ReadStep(bodies: Bodies, items: seq<Item>, input: bytes): Step<seq<Item>>
  {
    match DecodeNext(bodies, input)
    case Incomplete => NeedMore
    case Bad(e) => Halt(items + [Error(e)])
    case Complete(MessageFrame(body), used) => Advance(items + [ItemOf(bodies, body)], used)
    case Complete(EndStream(error), _) => Halt(items + EndOf(error))
  }

  function Reader(bodies: Bodies): Stepper<seq<Item>>
  {
    (items: seq<Item>, input: bytes) => ReadStep(bodies, items, input)
  }

  lemma DecodeNextIsStable(bodies: Bodies, input: bytes, more: bytes)
    requires !DecodeNext(bodies, input).Incomplete?
    ensures DecodeNext(bodies, input + more) == DecodeNext(bodies, input)
  {
    var used := 5 + FromBigEndian(input[1..5]);
    assert (input + more)[1..5] == input[1..5] && (input + more)[5..used] == input[5..used];
  }

  lemma ReaderIsStable(bodies: Bodies)
    ensures Stable(Reader(bodies))
  {
    var step := Reader(bodies);
    forall s, b, more {:trigger step(s, b + more)} | !step(s, b).NeedMore?
      ensures step(s, b + more) == step(s, b) && (step(s, b).Advance? ==> 0 < step(s, b).used <= |b|)
    {
      DecodeNextIsStable(bodies, b, more);
    }
  }

  // ---- The reader ----

  /** The next thing the response body yields. */
  datatype BodyEvent = Data(data: bytes) | NotData | Broken(error: bytes)

  /** The data before the body ends or breaks. */
  function Received(events: seq<BodyEvent>): bytes
  {
    if events == [] || events[0].Broken? then []
    else (if events[0].Data? then events[0].data else []) + Received(events[1..])
  }

  function Breakage(events: seq<BodyEvent>): Option<bytes>
  {
    if events == [] then None else if events[0].Broken? then Some(events[0].error) else Breakage(events[1..])
  }

  /** What the reader must deliver, given only the received bytes as one chunk. */
  function Delivery(bodies: Bodies, received: bytes, breakage: Option<bytes>): seq<Item>
  {
    Finish(Drain(Reader(bodies), [], received), breakage)
  }

  function Finish(d: Drained<seq<Item>>, breakage: Option<bytes>): seq<Item>
  {
    if d.halted then d.state
    else match breakage
      case Some(e) => d.state + [Error(Body(e))]
      case None => if d.rest != [] then d.state + [Error(PartialFrame)] else d.state
  }

  /** Decodes every complete frame in the buffer; `halted` when the reader must return. */
  method DrainBuffer(bodies: Bodies, start: seq<Item>, data: bytes)
    returns (items: seq<Item>, buffer: bytes, halted: bool)
    ensures Drain(Reader(bodies), start, data) == Drained(items, if halted then [] else buffer, halted)
  {
    items, buffer, halted := start, data, false;
    while true
      invariant !halted && Drain(Reader(bodies), start, data) == Drain(Reader(bodies), items, buffer)
      decreases |buffer|
    {
      var decoded := DecodeNext(bodies, buffer);
      match decoded {
        case Incomplete =>
          return;
        case Bad(e) =>
          items, halted := items + [Error(e)], true;
          return;
        case Complete(MessageFrame(body), used) =>
          buffer := buffer[used..];
          items := items + [ItemOf(bodies, body)];
        case Complete(EndStream(error), used) =>
          buffer := buffer[used..];
          if error.Some? {
            items := items + [Error(Trailer(error.value))];
          } else {
            assert items + [] == items;
          }
          halted := true;
          return;
      }
    }
  }

  lemma ReceivedNext(events: seq<BodyEvent>, i: nat)
    requires i < |events|
    ensures events[i].Broken? ==> Received(events[i..]) == [] && Breakage(events[i..]) == Some(events[i].error)
    ensures !events[i].Broken? ==>
              && Received(events[i..]) == (if events[i].Data? then events[i].data else []) + Received(events[i + 1..])
              && Breakage(events[i..]) == Breakage(events[i + 1..])
  {
    assert events[i..][1..] == events[i + 1..];
  }

  /** The answer still to come, with `items` sent and `buffer` in hand. */
  function Remaining(bodies: Bodies, items: seq<Item>, buffer: bytes, events: seq<BodyEvent>): seq<Item>
  {
    Finish(Drain(Reader(bodies), items, buffer + Received(events)), Breakage(events))
  }

  predicate Idle(bodies: Bodies, items: seq<Item>, buffer: bytes)
  {
    Drain(Reader(bodies), items, buffer) == Drained(items, buffer, false)
  }

  lemma RemainingAtData(bodies: Bodies, items: seq<Item>, buffer: bytes, events: seq<BodyEvent>, i: nat)
    requires i < |events| && events[i].Data?
    ensures var d := Drain(Reader(bodies), items, buffer + events[i].data);
            && Remaining(bodies, items, buffer, events[i..]) ==
               (if d.halted then d.state else Remaining(bodies, d.state, d.rest, events[i + 1..]))
            && (!d.halted ==> Idle(bodies, d.state, d.rest))
  {
    ReceivedNext(events, i);
    ReaderIsStable(bodies);
    var data, later := events[i].data, Received(events[i + 1..]);
    assert buffer + (data + later) == (buffer + data) + later;
    DrainConcat(Reader(bodies), items, buffer + data, later);
    DrainIsIdle(Reader(bodies), items, buffer + data);
  }

  lemma RemainingAtOther(bodies: Bodies, items: seq<Item>, buffer: bytes, events: seq<BodyEvent>, i: nat)
    requires i < |events| && !events[i].Data? && Idle(bodies, items, buffer)
    ensures Remaining(bodies, items, buffer, events[i..]) ==
            if events[i].Broken? then items + [Error(Body(events[i].error))]
            else Remaining(bodies, items, buffer, events[i + 1..])
  {
    ReceivedNext(events, i);
    assert buffer + [] == buffer;
    assert [] + Received(events[i + 1..]) == Received(events[i + 1..]);
  }

  /** The reader delivers what one chunk of the received bytes would give, however the body cuts
      them and whatever else it yields in between. */
  method ReadStreamingResponse(bodies: Bodies, events: seq<BodyEvent>) returns (items: seq<Item>)
    ensures items == Delivery(bodies, Received(events), Breakage(events))
  {
    var buffer := [];
    items := [];
    assert events[0..] == events && [] + Received(events) == Received(events);
    for i := 0 to |events|
      invariant Remaining(bodies, items, buffer, events[i..]) == Delivery(bodies, Received(events), Breakage(events))
      invariant Idle(bodies, items, buffer)
    {
      if events[i].Data? {
        RemainingAtData(bodies, items, buffer, events, i);
        var halted;
        items, buffer, halted := DrainBuffer(bodies, items, buffer + events[i].data);
        if halted {
          return;
        }
      } else {
        RemainingAtOther(bodies, items, buffer, events, i);
        if events[i].Broken? {
          return items + [Error(Body(events[i].error))];
        }
      }
    }
    assert buffer + [] == buffer;
    if buffer != [] {
      items := items + [Error(PartialFrame)];
    }
  }

  // ---- Encoded frames read back ----

  function EncodeAll(messages: seq<bytes>): bytes
    requires forall i :: 0 <= i < |messages| ==> |messages[i]| < U32_LIMIT
  {
    if messages == [] then [] else Encode(MESSAGE_FLAGS, messages[0]) + EncodeAll(messages[1..])
  }

  function Items(bodies: Bodies, messages: seq<bytes>): seq<Item>
  {
    if messages == [] then [] else [ItemOf(bodies, messages[0])] + Items(bodies, messages[1..])
  }

  lemma EncodedParts(flags: byte, message: bytes, rest: bytes)
    requires |message| < U32_LIMIT
    ensures var input := Encode(flags, message) + rest;
            && input[0] == flags && FromBigEndian(input[1..5]) == |message|
            && input[5..5 + |message|] == message && input[5 + |message|..] == rest
  {
    Pow256Values();
    BigEndianRoundTrip(|message|, 4);
    var input := Encode(flags, message) + rest;
    assert input[1..5] == BigEndian(|message|, 4);
  }

  lemma DrainOneFrame(bodies: Bodies, items: seq<Item>, message: bytes, rest: bytes)
    requires |message| < U32_LIMIT
    ensures Drain(Reader(bodies), items, Encode(MESSAGE_FLAGS, message) + rest) ==
            Drain(Reader(bodies), items + [ItemOf(bodies, message)], rest)
  {
    EncodedParts(MESSAGE_FLAGS, message, rest);
    var input := Encode(MESSAGE_FLAGS, message) + rest;
    assert Reader(bodies)(items, input) == ReadStep(bodies, items, input);
  }

  lemma {:induction false} DrainEncoded(bodies: Bodies, items: seq<Item>, messages: seq<bytes>, rest: bytes)
    requires forall i :: 0 <= i < |messages| ==> |messages[i]| < U32_LIMIT
    ensures Drain(Reader(bodies), items, EncodeAll(messages) + rest) ==
            Drain(Reader(bodies), items + Items(bodies, messages), rest)
    decreases |messages|
  {
    if messages == [] {
      assert EncodeAll(messages) + rest == rest && items + Items(bodies, messages) == items;
    } else {
      var tail, next := EncodeAll(messages[1..]) + rest, items + [ItemOf(bodies, messages[0])];
      assert EncodeAll(messages) + rest == Encode(MESSAGE_FLAGS, messages[0]) + tail;
      DrainOneFrame(bodies, items, messages[0], tail);
      DrainEncoded(bodies, next, messages[1..], rest);
      assert next + Items(bodies, messages[1..]) == items + Items(bodies, messages);
    }
  }

  // ---- How a stream can end ----

  /** After the last message frame: bytes that are not yet a frame, or a frame that is not a message
      and whatever follows it. */
  datatype Ending = Cut(partial: bytes) | Stop(flags: byte, body: bytes, after: bytes)

  predicate IsEnding(ending: Ending)
  {
    match ending
    case Cut(partial) => |partial| < 5 || |partial| < 5 + FromBigEndian(partial[1..5])
    case Stop(flags, body, _) => flags != MESSAGE_FLAGS && |body| < U32_LIMIT
  }

  function EndBytes(ending: Ending): bytes
    requires IsEnding(ending)
  {
    match ending
    case Cut(partial) => partial
    case Stop(flags, body, after) => Encode(flags, body) + after
  }

  /** What the ending adds to the messages: nothing for an end of stream without an error or a clean
      end of the body, one error for every other ending. */
  function EndItems(bodies: Bodies, ending: Ending, breakage: Option<bytes>): seq<Item>
  {
    match ending
    case Cut(partial) =>
      if breakage.Some? then [Error(Body(breakage.value))]
      else if partial == [] then [] else [Error(PartialFrame)]
    case Stop(flags, body, _) =>
      if flags != END_STREAM_FLAGS then [Error(if flags % 2 == 1 then CompressedFrame else UnknownFrameFlags(flags))]
      else if body == [] || bodies.trailer(body) == Parsed(None) then []
      else if bodies.trailer(body) == NotJson then [Error(MalformedTrailer)]
      else [Error(Trailer(bodies.trailer(body).error.value))]
  }

  lemma FinishEnding(bodies: Bodies, items: seq<Item>, ending: Ending, breakage: Option<bytes>)
    requires IsEnding(ending)
    ensures Finish(Drain(Reader(bodies), items, EndBytes(ending)), breakage) == items + EndItems(bodies, ending, breakage)
  {
    var input := EndBytes(ending);
    assert Reader(bodies)(items, input) == ReadStep(bodies, items, input);
    assert items + [] == items;
    if ending.Stop? {
      EncodedParts(ending.flags, ending.body, ending.after);
    }
  }

  /** Concatenated message frames and an ending are delivered as exactly those messages in order and
      what the ending adds, however the body cuts them. */
  lemma EncodedStreamReadsBack(bodies: Bodies, messages: seq<bytes>, ending: Ending, events: seq<BodyEvent>)
    requires forall i :: 0 <= i < |messages| ==> |messages[i]| < U32_LIMIT
    requires IsEnding(ending) && Received(events) == EncodeAll(messages) + EndBytes(ending)
    ensures Delivery(bodies, Received(events), Breakage(events)) ==
            Items(bodies, messages) + EndItems(bodies, ending, Breakage(events))
  {
    DrainEncoded(bodies, [], messages, EndBytes(ending));
    assert [] + Items(bodies, messages) == Items(bodies, messages);
    FinishEnding(bodies, Items(bodies, messages), ending, Breakage(events));
  }

  lemma FrontFrame(input: bytes, used: nat)
    requires |input| >= 5 && used == 5 + FromBigEndian(input[1..5]) <= |input|
    ensures used - 5 < U32_LIMIT && input == Encode(input[0], input[5..used]) + input[used..]
  {
    Pow256Values();
    FromBigEndianRoundTrip(input[1..5]);
    assert input == [input[0]] + input[1..5] + input[5..used] + input[used..];
  }

  /** Every byte stream is message frames and an ending, so the reader is specified on all of them. */
  lemma {:induction false} EveryStreamIsEncoded(received: bytes) returns (messages: seq<bytes>, ending: Ending)
    ensures forall i :: 0 <= i < |messages| ==> |messages[i]| < U32_LIMIT
    ensures IsEnding(ending) && received == EncodeAll(messages) + EndBytes(ending)
    decreases |received|
  {
    if |received| < 5 || |received| < 5 + FromBigEndian(received[1..5]) {
      messages, ending := [], Cut(received);
    } else {
      var used := 5 + FromBigEndian(received[1..5]);
      FrontFrame(received, used);
      if received[0] == MESSAGE_FLAGS {
        var later;
        later, ending := EveryStreamIsEncoded(received[used..]);
        messages := [received[5..used]] + later;
        assert messages[1..] == later;
      } else {
        messages, ending := [], Stop(received[0], received[5..used], received[used..]);
      }
    }
  }
}
