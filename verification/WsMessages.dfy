/** Fragment reassembly (section 5.4 of RFC 6455): which messages the application sees, and how large
    anything the session buffers or delivers can get. */
module WsMessages {
  import opened Text
  import opened WsFrame
  import opened WsSession

  // ---------------------------------------------------------------- sizes, in every run

  predicate Fits(d: Delivered, max: nat) {
    d.Message? ==> |d.payload| <= max && d.opcode in {TEXT, BINARY}
  }

  /** Neither the partial buffer nor any delivered message is larger than the limit, and nothing is
      buffered between messages. */
  predicate Sized(s: Session, c: Config) {
    && |s.partial| <= c.maxMessageBytes
    && (s.fragment.None? ==> s.partial == [])
    && (s.fragment.Some? ==> s.fragment.value in {TEXT, BINARY})
    && forall i :: 0 <= i < |s.delivered| ==> Fits(s.delivered[i], c.maxMessageBytes)
  }

  lemma {:induction false} DeliverSized(s: Session, d: Delivered, c: Config)
    requires Sized(s, c) && Fits(d, c.maxMessageBytes)
    ensures Sized(Deliver(s, d), c)
  {
  }

  /** Sending and failing leave the receiving half alone. */
  lemma {:induction false} OutputKeepsInput(s: Session, code: nat, e: ErrorKind, opcode: nat, payload: bytes, c: Config)
    requires opcode < 16
    ensures SameInput(s, CloseWithError(s, code, e))
    ensures SameInput(s, SendFrame(s, opcode, payload, c))
    ensures SameInput(s, Queue(s, Out(opcode, payload)))
    ensures SameInput(s, CloseTransport(s)) && SameInput(s, Fail(s, e))
  {
    hide MakeFrame;
  }

  predicate SameInput(s: Session, r: Session) {
    s.fragment == r.fragment && s.partial == r.partial && s.delivered == r.delivered
  }

  lemma {:induction false} SameInputSized(s: Session, r: Session, c: Config)
    requires Sized(s, c) && SameInput(s, r)
    ensures Sized(r, c)
  {
  }

  lemma {:induction false} CloseSized(s: Session, f: Frame, c: Config)
    requires Sized(s, c)
    ensures Sized(HandleClose(s, f), c)
  {
    hide Sized, CloseWithError, Queue, CloseTransport, Number, ValidCloseCode;
    OutputKeepsInput(s, PROTOCOL_ERROR, ProtocolError, CLOSE, f.payload, c);
    SameInputSized(s, CloseWithError(s, PROTOCOL_ERROR, ProtocolError), c);
    if |f.payload| != 1 {
      var d := if f.payload == [] then Closing(NORMAL, []) else Closing(Number(f.payload[..2]), f.payload[2..]);
      DeliverSized(s, d, c);
      var heard := Deliver(s, d);
      OutputKeepsInput(heard, 0, ProtocolError, CLOSE, f.payload, c);
      OutputKeepsInput(heard.(closeSent := true), 0, ProtocolError, CLOSE, f.payload, c);
      SameInputSized(heard, CloseTransport(heard), c);
      SameInputSized(heard, Queue(heard.(closeSent := true), Out(CLOSE, f.payload)), c);
    }
  }

  lemma {:induction false} DataSized(s: Session, f: Frame, c: Config)
    requires Sized(s, c) && |f.payload| <= c.maxMessageBytes
    ensures f.opcode in {TEXT, BINARY} ==> Sized(HandleData(s, f), c)
    ensures Sized(HandleContinuation(s, f, c), c)
  {
    hide CloseWithError;
    OutputKeepsInput(s, PROTOCOL_ERROR, ProtocolError, PONG, f.payload, c);
    OutputKeepsInput(s, MESSAGE_TOO_LARGE, MessageSize, PONG, f.payload, c);
  }

  lemma {:induction false} FrameSized(s: Session, f: Frame, c: Config)
    requires Sized(s, c) && |f.payload| <= c.maxMessageBytes
    ensures Sized(HandleFrame(s, f, c), c)
  {
    hide Sized, CloseWithError, SendFrame, HandleClose, HandleData, HandleContinuation;
    OutputKeepsInput(s, PROTOCOL_ERROR, ProtocolError, PONG, f.payload, c);
    SameInputSized(s, CloseWithError(s, PROTOCOL_ERROR, ProtocolError), c);
    DataSized(s, f, c);
    DeliverSized(s, Pong(f.payload), c);
    var heard := Deliver(s, Ping(f.payload));
    DeliverSized(s, Ping(f.payload), c);
    OutputKeepsInput(heard, 0, ProtocolError, PONG, f.payload, c);
    SameInputSized(heard, SendFrame(heard, PONG, f.payload, c), c);
    CloseSized(s, f, c);
  }

  lemma {:induction false} DrainSized(s: Session, c: Config)
    requires Sized(s, c)
    ensures Sized(Drain(s, c), c)
    decreases |s.unread|
  {
    hide Sized, ParseFrame, HandleFrame, CloseWithError;
    OutputKeepsInput(s, PROTOCOL_ERROR, ProtocolError, PONG, [], c);
    OutputKeepsInput(s, MESSAGE_TOO_LARGE, MessageSize, PONG, [], c);
    SameInputSized(s, CloseWithError(s, PROTOCOL_ERROR, ProtocolError), c);
    SameInputSized(s, CloseWithError(s, MESSAGE_TOO_LARGE, MessageSize), c);
    if !s.closed {
      var parsed := ParseFrame(s.unread, c.maxMessageBytes);
      if parsed.Complete? {
        var rest := s.(unread := s.unread[parsed.size..]);
        SameInputSized(s, rest, c);
        FrameSized(rest, parsed.frame, c);
        HandleKeepsUnread(rest, parsed.frame, c);
        DrainSized(HandleFrame(rest, parsed.frame, c), c);
      }
    }
  }

  lemma {:induction false} EventSized(s: Session, e: Event, c: Config)
    requires Sized(s, c)
    ensures Sized(Handle(s, e, c), c)
  {
    hide Sized, Drain, MakeFrame;
    match e
    case Read(more) =>
      if !s.closed {
        SameInputSized(s, Append(s, more), c);
        DrainSized(Append(s, more), c);
      }
    case _ => SameInputSized(s, Handle(s, e, c), c);
  }

  lemma {:induction false} RunSized(s: Session, events: seq<Event>, c: Config)
    requires Sized(s, c)
    ensures Sized(Run(s, events, c), c)
    decreases |events|
  {
    hide Sized, Handle;
    if events != [] {
      EventSized(s, events[0], c);
      RunSized(Handle(s, events[0], c), events[1..], c);
    }
  }

  /** In every run, legal input or not: the partial buffer and every delivered message are within the
      limit, and only text and binary messages are delivered. */
  lemma {:induction false} MessagesAreBounded(events: seq<Event>, c: Config)
    ensures var s := Run(FRESH, events, c);
            && |s.partial| <= c.maxMessageBytes
            && forall i :: 0 <= i < |s.delivered| && s.delivered[i].Message? ==>
                 |s.delivered[i].payload| <= c.maxMessageBytes && s.delivered[i].opcode in {TEXT, BINARY}
  {
    hide Run;
    RunSized(FRESH, events, c);
    var s := Run(FRESH, events, c);
    forall i | 0 <= i < |s.delivered| && s.delivered[i].Message?
      ensures |s.delivered[i].payload| <= c.maxMessageBytes && s.delivered[i].opcode in {TEXT, BINARY}
    {
      assert Fits(s.delivered[i], c.maxMessageBytes);
    }
  }

  // ---------------------------------------------------------------- what a sender means

  /** A message as its sender cut it. */
  datatype Fragmented = Fragmented(opcode: nat, parts: seq<bytes>)

  function Join(parts: seq<bytes>): bytes {
    if parts == [] then [] else parts[0] + Join(parts[1..])
  }

  /** The continuation frames that finish a message. */
  function Rest(parts: seq<bytes>): seq<Frame> {
    if parts == [] then [] else [Frame(|parts| == 1, CONTINUATION, parts[0])] + Rest(parts[1..])
  }

  function FramesOf(m: Fragmented): seq<Frame>
    requires m.parts != []
  {
    [Frame(|m.parts| == 1, m.opcode, m.parts[0])] + Rest(m.parts[1..])
  }

  predicate Sendable(m: Fragmented, max: nat) {
    m.opcode in {TEXT, BINARY} && m.parts != [] && |Join(m.parts)| <= max
  }

  predicate AllSendable(ms: seq<Fragmented>, max: nat) {
    forall i :: 0 <= i < |ms| ==> Sendable(ms[i], max)
  }

  function AllFrames(ms: seq<Fragmented>, max: nat): seq<Frame>
    requires AllSendable(ms, max)
  {
    if ms == [] then [] else FramesOf(ms[0]) + AllFrames(ms[1..], max)
  }

  /** The messages themselves: each with its first frame's opcode and all its parts joined. */
  function Meant(ms: seq<Fragmented>): seq<Delivered> {
    if ms == [] then [] else [Message(ms[0].opcode, Join(ms[0].parts))] + Meant(ms[1..])
  }

  function Control(f: Frame): bool { f.opcode / 8 % 2 == 1 }

  /** Frames other than control frames, in order. */
  function DataOnly(frames: seq<Masked>): seq<Frame> {
    if frames == [] then []
    else (if Control(frames[0].frame) then [] else [frames[0].frame]) + DataOnly(frames[1..])
  }

  predicate LegalControl(f: Frame) {
    Control(f) ==> f.opcode in {PING, PONG} && f.fin && |f.payload| <= 125
  }

  function MessagesIn(ds: seq<Delivered>): seq<Delivered> {
    if ds == [] then []
    else MessagesIn(ds[..|ds| - 1]) + if ds[|ds| - 1].Message? then [ds[|ds| - 1]] else []
  }

  lemma {:induction false} MessagesSnoc(ds: seq<Delivered>, d: Delivered)
    ensures MessagesIn(ds + [d]) == MessagesIn(ds) + if d.Message? then [d] else []
  {
    assert (ds + [d])[..|ds|] == ds;
  }

  // ---------------------------------------------------------------- one frame

  lemma {:induction false} LegalControlStep(s: Session, f: Frame, c: Config)
    requires !s.closed && Control(f) && LegalControl(f)
    ensures var r := HandleFrame(s, f, c);
            && !r.closed && r.fragment == s.fragment && r.partial == s.partial
            && MessagesIn(r.delivered) == MessagesIn(s.delivered)
  {
    hide SendFrame, MessagesIn;
    MessagesSnoc(s.delivered, Ping(f.payload));
    MessagesSnoc(s.delivered, Pong(f.payload));
    var heard := Deliver(s, Ping(f.payload));
    OutputKeepsInput(heard, 0, ProtocolError, PONG, f.payload, c);
    SendBlind(heard, [], PONG, f.payload, c);
  }

  lemma {:induction false} JoinSize(parts: seq<bytes>)
    requires parts != []
    ensures |Join(parts)| == |parts[0]| + |Join(parts[1..])|
    ensures |parts| == 1 ==> Join(parts) == parts[0]
  {
    assert parts[0] + [] == parts[0];
  }

  /** A session in the middle of a message whose remaining parts are `more` (none between messages), about
      to get frames whose data frames are the rest of that message followed by the frames of `ms`, with any
      legal pings and pongs in between. */
  predicate Ready(s: Session, frames: seq<Masked>, more: seq<bytes>, ms: seq<Fragmented>, c: Config) {
    && !s.closed && (s.fragment.None? <==> more == []) && (s.fragment.None? ==> s.partial == [])
    && |s.partial| + |Join(more)| <= c.maxMessageBytes && AllSendable(ms, c.maxMessageBytes)
    && (forall i :: 0 <= i < |frames| ==> LegalControl(frames[i].frame))
    && DataOnly(frames) == Rest(more) + AllFrames(ms, c.maxMessageBytes)
  }

  /** The message under way, then the others. */
  function Expected(s: Session, more: seq<bytes>, ms: seq<Fragmented>): seq<Delivered>
    requires s.fragment.None? <==> more == []
  {
    (if more == [] then [] else [Message(s.fragment.value, s.partial + Join(more))]) + Meant(ms)
  }

  /** Reassembly, for any interleaving: exactly the expected messages are delivered, in order, and nothing
      is left over. */
  lemma {:induction false} ReassembleFrom(
    s: Session, frames: seq<Masked>, more: seq<bytes>, ms: seq<Fragmented>, c: Config)
    requires Ready(s, frames, more, ms, c)
    ensures var r := HandleAll(s, frames, c);
            && !r.closed && r.fragment == None && r.partial == []
            && MessagesIn(r.delivered) == MessagesIn(s.delivered) + Expected(s, more, ms)
    decreases |frames|, 1
  {
    hide HandleFrame, MessagesIn, Join, LegalControl;
    if frames == [] {
      NothingExpected(s, more, ms, c);
    } else {
      var f := frames[0].frame;
      assert LegalControl(f);
      if Control(f) {
        LegalControlStep(s, f, c);
        ReassembleFrom(HandleFrame(s, f, c), frames[1..], more, ms, c);
      } else if more != [] {
        ReassembleRest(s, frames, more, ms, c);
      } else {
        assert DataOnly(frames) != [];
        ReassembleFirst(s, frames, ms, c);
      }
    }
  }

  lemma {:induction false} NothingExpected(s: Session, more: seq<bytes>, ms: seq<Fragmented>, c: Config)
    requires Ready(s, [], more, ms, c)
    ensures more == [] && ms == [] && Expected(s, more, ms) == []
  {
    hide Join;
    assert more != [] ==> |Rest(more)| > 0;
    assert AllFrames(ms, c.maxMessageBytes) == [];
    SomeFrames(ms, c.maxMessageBytes);
  }

  lemma {:induction false} SomeFrames(ms: seq<Fragmented>, max: nat)
    requires AllSendable(ms, max)
    ensures ms != [] <==> AllFrames(ms, max) != []
  {
    hide Join;
    if ms != [] {
      assert Sendable(ms[0], max);
      assert |FramesOf(ms[0])| > 0;
    }
  }

  lemma {:induction false} ReassembleRest(
    s: Session, frames: seq<Masked>, more: seq<bytes>, ms: seq<Fragmented>, c: Config)
    requires Ready(s, frames, more, ms, c) && frames != [] && more != [] && !Control(frames[0].frame)
    ensures var r := HandleAll(s, frames, c);
            && !r.closed && r.fragment == None && r.partial == []
            && MessagesIn(r.delivered) == MessagesIn(s.delivered) + Expected(s, more, ms)
    decreases |frames|, 0
  {
    hide HandleFrame, MessagesIn, Join, LegalControl, Meant, AllFrames;
    var f := frames[0].frame;
    assert DataOnly(frames)[0] == f && DataOnly(frames)[1..] == DataOnly(frames[1..]);
    assert Rest(more)[1..] == Rest(more[1..]);
    assert DataOnly(frames[1..]) == Rest(more[1..]) + AllFrames(ms, c.maxMessageBytes);
    JoinSize(more);
    ContinuationStep(s, more, c);
    ReassembleFrom(HandleFrame(s, f, c), frames[1..], more[1..], ms, c);
    JoinUnfold(s.partial, more);
  }

  lemma {:induction false} ReassembleFirst(s: Session, frames: seq<Masked>, ms: seq<Fragmented>, c: Config)
    requires Ready(s, frames, [], ms, c) && frames != [] && ms != [] && !Control(frames[0].frame)
    ensures var r := HandleAll(s, frames, c);
            && !r.closed && r.fragment == None && r.partial == []
            && MessagesIn(r.delivered) == MessagesIn(s.delivered) + Expected(s, [], ms)
    decreases |frames|, 0
  {
    hide HandleFrame, MessagesIn, Join, LegalControl, AllFrames, Expected;
    var parts := ms[0].parts;
    assert Sendable(ms[0], c.maxMessageBytes);
    assert Rest([]) + AllFrames(ms, c.maxMessageBytes) == AllFrames(ms, c.maxMessageBytes);
    FirstDataStep(s, frames, ms, c);
    JoinSize(parts);
    ReassembleFrom(HandleFrame(s, frames[0].frame, c), frames[1..], parts[1..], ms[1..], c);
    FirstExpected(s, HandleFrame(s, frames[0].frame, c), ms);
  }

  lemma {:induction false} FirstExpected(s: Session, r: Session, ms: seq<Fragmented>)
    requires s.fragment.None? && ms != [] && ms[0].parts != []
    requires r.fragment.None? <==> |ms[0].parts| == 1
    requires if r.fragment.None? then
               MessagesIn(r.delivered) == MessagesIn(s.delivered) + [Message(ms[0].opcode, ms[0].parts[0])]
             else
               && MessagesIn(r.delivered) == MessagesIn(s.delivered)
               && r.fragment == Some(ms[0].opcode) && r.partial == ms[0].parts[0]
    ensures MessagesIn(r.delivered) + Expected(r, ms[0].parts[1..], ms[1..])
            == MessagesIn(s.delivered) + Expected(s, [], ms)
  {
    hide MessagesIn, Join;
    JoinSize(ms[0].parts);
    var whole, a := [Message(ms[0].opcode, Join(ms[0].parts))], MessagesIn(s.delivered);
    assert Expected(s, [], ms) == whole + Meant(ms[1..]);
    assert a + (whole + Meant(ms[1..])) == a + whole + Meant(ms[1..]);
    JoinUnfold([], ms[0].parts);
    assert [] + Join(ms[0].parts) == Join(ms[0].parts) && [] + ms[0].parts[0] == ms[0].parts[0];
  }

  lemma {:induction false} JoinUnfold(front: bytes, parts: seq<bytes>)
    requires parts != []
    ensures front + Join(parts) == (front + parts[0]) + Join(parts[1..])
    ensures |parts| == 1 ==> front + Join(parts) == front + parts[0]
  {
  }

  lemma {:induction false} ContinuationStep(s: Session, more: seq<bytes>, c: Config)
    requires !s.closed && s.fragment.Some? && more != []
    requires |s.partial| + |more[0]| <= c.maxMessageBytes
    ensures var r := HandleFrame(s, Frame(|more| == 1, CONTINUATION, more[0]), c);
            && !r.closed
            && if |more| == 1 then
                 && r.fragment == None && r.partial == []
                 && MessagesIn(r.delivered) == MessagesIn(s.delivered) + [Message(s.fragment.value, s.partial + more[0])]
               else r == s.(partial := s.partial + more[0])
  {
    hide CloseWithError, MessagesIn;
    MessagesSnoc(s.delivered, Message(s.fragment.value, s.partial + more[0]));
  }

  lemma {:induction false} FirstDataStep(s: Session, frames: seq<Masked>, ms: seq<Fragmented>, c: Config)
    requires !s.closed && s.fragment.None? && s.partial == [] && ms != [] && AllSendable(ms, c.maxMessageBytes)
    requires frames != [] && !Control(frames[0].frame) && DataOnly(frames) == AllFrames(ms, c.maxMessageBytes)
    ensures DataOnly(frames[1..]) == Rest(ms[0].parts[1..]) + AllFrames(ms[1..], c.maxMessageBytes)
    ensures var r := HandleFrame(s, frames[0].frame, c);
            && !r.closed
            && if |ms[0].parts| == 1 then
                 && r.fragment == None && r.partial == []
                 && MessagesIn(r.delivered) == MessagesIn(s.delivered) + [Message(ms[0].opcode, ms[0].parts[0])]
               else r == s.(fragment := Some(ms[0].opcode), partial := ms[0].parts[0])
  {
    hide CloseWithError, MessagesIn, Join;
    var m := ms[0];
    assert Sendable(m, c.maxMessageBytes);
    var all := AllFrames(ms, c.maxMessageBytes);
    assert all == [Frame(|m.parts| == 1, m.opcode, m.parts[0])]
                  + (Rest(m.parts[1..]) + AllFrames(ms[1..], c.maxMessageBytes));
    assert DataOnly(frames)[1..] == DataOnly(frames[1..]);
    MessagesSnoc(s.delivered, Message(m.opcode, m.parts[0]));
  }

  /** From a fresh session, on the wire: however the messages were fragmented, pings and pongs interleaved
      and the bytes cut into reads, the application gets exactly the messages, in order. */
  lemma {:induction false} MessagesArrive(frames: seq<Masked>, ms: seq<Fragmented>, cuts: seq<bytes>, c: Config)
    requires forall i :: 0 <= i < |frames| ==> Encodable(frames[i], c) && LegalControl(frames[i].frame)
    requires AllSendable(ms, c.maxMessageBytes) && DataOnly(frames) == AllFrames(ms, c.maxMessageBytes)
    requires cuts != [] && FlattenBytes(cuts) == EncodeAll(frames, c)
    ensures MessagesIn(Reads(FRESH, cuts, c).delivered) == Meant(ms)
  {
    hide HandleAll, Reads, Meant, AllFrames, EncodeAll, FlattenBytes;
    assert Rest([]) + AllFrames(ms, c.maxMessageBytes) == AllFrames(ms, c.maxMessageBytes);
    ReassembleFrom(FRESH, frames, [], ms, c);
    FramesArrive(FRESH, frames, cuts, c);
    assert [] + [] + Meant(ms) == Meant(ms);
  }

  // ---------------------------------------------------------------- exactly the legal sequences

  /** Section 5.4 of RFC 6455 as a grammar of data frames: `size` bytes of a message are already there
      when one is `open`. */
  predicate Legal(data: seq<Frame>, open: bool, size: nat, max: nat) {
    data == [] ||
    var f := data[0];
    if open then
      f.opcode == CONTINUATION && size + |f.payload| <= max && Legal(data[1..], !f.fin, size + |f.payload|, max)
    else
      f.opcode in {TEXT, BINARY} && Legal(data[1..], !f.fin, |f.payload|, max)
  }

  predicate AllControlsLegal(frames: seq<Masked>) {
    forall i :: 0 <= i < |frames| ==> LegalControl(frames[i].frame)
  }

  /** The answer to a ping: a frame as long as the ping with a two-byte header. */
  function PongBytes(f: Frame): nat {
    if f.opcode == PING then 2 + |f.payload| else 0
  }

  function AllPongBytes(frames: seq<Masked>): nat {
    if frames == [] then 0 else PongBytes(frames[0].frame) + AllPongBytes(frames[1..])
  }

  /** Each ping finds room for its answer behind what is pending and the answers to the pings before it. */
  predicate PongsFit(frames: seq<Masked>, pending: nat, max: nat) {
    forall i :: 0 <= i < |frames| && frames[i].frame.opcode == PING ==>
      pending + AllPongBytes(frames[..i]) + |frames[i].frame.payload| <= max
  }

  lemma {:induction false} PongsSplit(frames: seq<Masked>, pending: nat, max: nat)
    requires frames != []
    ensures var f := frames[0].frame;
            PongsFit(frames, pending, max) <==>
              (f.opcode == PING ==> pending + |f.payload| <= max) && PongsFit(frames[1..], pending + PongBytes(f), max)
  {
    var f, rest := frames[0].frame, frames[1..];
    assert frames[..0] == [];
    forall i | 0 <= i < |rest|
      ensures frames[i + 1] == rest[i] && AllPongBytes(frames[..i + 1]) == PongBytes(f) + AllPongBytes(rest[..i])
    {
      assert frames[..i + 1][1..] == rest[..i];
    }
    if PongsFit(frames, pending, max) {
      forall i | 0 <= i < |rest| && rest[i].frame.opcode == PING
        ensures pending + PongBytes(f) + AllPongBytes(rest[..i]) + |rest[i].frame.payload| <= max
      {
        assert frames[i + 1].frame.opcode == PING;
      }
    }
    if (f.opcode == PING ==> pending + |f.payload| <= max) && PongsFit(rest, pending + PongBytes(f), max) {
      forall i | 0 <= i < |frames| && frames[i].frame.opcode == PING
        ensures pending + AllPongBytes(frames[..i]) + |frames[i].frame.payload| <= max
      {
        assert i > 0 ==> frames[i] == rest[i - 1];
      }
    }
  }

  lemma {:induction false} PongSent(s: Session, payload: bytes, c: Config)
    requires !s.closed && |payload| <= 125
    ensures var r := SendFrame(s, PONG, payload, c);
            if s.pending + |payload| <= c.maxPendingBytes then
              r.errors == s.errors && !r.closed && r.pending == s.pending + 2 + |payload|
            else |s.errors| < |r.errors|
  {
  }

  /** One frame: no error exactly when the grammar allows it and there is room for an automatic answer. */
  lemma {:induction false} StepExact(s: Session, f: Frame, c: Config)
    requires !s.closed && f.opcode != CLOSE && f.opcode < 16
    requires s.fragment.None? ==> s.partial == []
    ensures var r := HandleFrame(s, f, c);
            && (if Control(f) then
                  && (r.errors == s.errors <==>
                        LegalControl(f) && (c.autoPong && f.opcode == PING ==> s.pending + |f.payload| <= c.maxPendingBytes))
                  && (LegalControl(f) ==> r.fragment == s.fragment && r.partial == s.partial)
                else
                  && (r.errors == s.errors <==> Legal([f], s.fragment.Some?, |s.partial|, c.maxMessageBytes))
                  && (r.errors == s.errors ==>
                        && r.fragment.Some? == !f.fin && (r.fragment.None? ==> r.partial == [])
                        && (!f.fin ==> |r.partial| == (if s.fragment.Some? then |s.partial| else 0) + |f.payload|)))
            && (r.errors == s.errors ==> !r.closed && r.pending == s.pending + if c.autoPong then PongBytes(f) else 0)
            && (r.errors != s.errors ==> |s.errors| < |r.errors|)
  {
    hide CloseWithError, HandleData, HandleContinuation, HandlePing, LegalControl, Legal;
    if Control(f) {
      ControlExact(s, f, c);
    } else {
      DataIsNotControl(f);
      Reports(s, PROTOCOL_ERROR, ProtocolError);
      if f.opcode in {TEXT, BINARY, CONTINUATION} {
        DataExact(s, f, c);
      } else {
        UnknownData(f, s.fragment.Some?, |s.partial|, c.maxMessageBytes);
      }
    }
  }

  lemma {:induction false} UnknownData(f: Frame, open: bool, size: nat, max: nat)
    requires f.opcode !in {TEXT, BINARY, CONTINUATION}
    ensures !Legal([f], open, size, max)
  {
  }

  lemma {:induction false} ControlExact(s: Session, f: Frame, c: Config)
    requires !s.closed && f.opcode != CLOSE && Control(f)
    ensures var r := HandleFrame(s, f, c);
            && (r.errors == s.errors <==>
                  LegalControl(f) && (c.autoPong && f.opcode == PING ==> s.pending + |f.payload| <= c.maxPendingBytes))
            && (LegalControl(f) ==> r.fragment == s.fragment && r.partial == s.partial)
            && (r.errors == s.errors ==> !r.closed && r.pending == s.pending + if c.autoPong then PongBytes(f) else 0)
            && (r.errors != s.errors ==> |s.errors| < |r.errors|)
  {
    hide CloseWithError, SendFrame, HandleData, HandleContinuation;
    Reports(s, PROTOCOL_ERROR, ProtocolError);
    if f.opcode == PING && |f.payload| <= 125 {
      PongSent(Deliver(s, Ping(f.payload)), f.payload, c);
      OutputKeepsInput(Deliver(s, Ping(f.payload)), 0, ProtocolError, PONG, f.payload, c);
    }
  }

  lemma {:induction false} Reports(s: Session, code: nat, e: ErrorKind)
    ensures |s.errors| < |CloseWithError(s, code, e).errors|
  {
    hide MakeFrame;
  }

  lemma {:induction false} DataExact(s: Session, f: Frame, c: Config)
    requires !s.closed && !Control(f) && (s.fragment.None? ==> s.partial == [])
    requires f.opcode in {TEXT, BINARY, CONTINUATION}
    ensures var r := if f.opcode == CONTINUATION then HandleContinuation(s, f, c) else HandleData(s, f);
            && (r.errors == s.errors <==> Legal([f], s.fragment.Some?, |s.partial|, c.maxMessageBytes))
            && (r.errors == s.errors ==>
                  && r.fragment.Some? == !f.fin && (r.fragment.None? ==> r.partial == [])
                  && (!f.fin ==> |r.partial| == (if s.fragment.Some? then |s.partial| else 0) + |f.payload|)
                  && !r.closed && r.pending == s.pending)
            && (r.errors != s.errors ==> |s.errors| < |r.errors|)
  {
    hide CloseWithError;
    Reports(s, PROTOCOL_ERROR, ProtocolError);
    Reports(s, MESSAGE_TOO_LARGE, MessageSize);
  }

  lemma {:induction false} SendingReports(s: Session, code: nat, e: ErrorKind, payload: bytes, c: Config)
    ensures |s.errors| <= |CloseWithError(s, code, e).errors|
    ensures |s.errors| <= |SendFrame(s, PONG, payload, c).errors|
    ensures Queue(s, Out(CLOSE, payload)).errors == s.errors && CloseTransport(s).errors == s.errors
  {
    hide MakeFrame;
  }

  /** No handler takes a report back. */
  lemma {:induction false} ErrorSticks(s: Session, f: Frame, c: Config)
    ensures |s.errors| <= |HandleFrame(s, f, c).errors|
  {
    hide Number, ValidCloseCode, CloseWithError, SendFrame, Queue, CloseTransport;
    SendingReports(s, PROTOCOL_ERROR, ProtocolError, f.payload, c);
    SendingReports(s, MESSAGE_TOO_LARGE, MessageSize, f.payload, c);
    SendingReports(Deliver(s, Ping(f.payload)), 0, ProtocolError, f.payload, c);
    if |f.payload| != 1 {
      var heard :=
        if f.payload == [] then Deliver(s, Closing(NORMAL, []))
        else Deliver(s, Closing(Number(f.payload[..2]), f.payload[2..]));
      SendingReports(heard, 0, ProtocolError, f.payload, c);
      SendingReports(heard.(closeSent := true), 0, ProtocolError, f.payload, c);
    }
  }

  lemma {:induction false} ErrorStays(s: Session, frames: seq<Masked>, c: Config)
    ensures |s.errors| <= |HandleAll(s, frames, c).errors|
    decreases |frames|
  {
    hide HandleFrame;
    if !s.closed && frames != [] {
      ErrorSticks(s, frames[0].frame, c);
      ErrorStays(HandleFrame(s, frames[0].frame, c), frames[1..], c);
    }
  }

  lemma {:induction false} LegalFirst(data: seq<Frame>, open: bool, size: nat, max: nat)
    requires data != []
    ensures Legal(data, open, size, max) <==>
              && Legal([data[0]], open, size, max)
              && Legal(data[1..], !data[0].fin, (if open then size else 0) + |data[0].payload|, max)
  {
  }

  /** Up to a close frame, the session reports an error exactly when some control frame is malformed, the data
      frames break the fragmentation rules or outgrow the limit, or the answer to some ping, when pongs are
      automatic, finds no room in the output queue. */
  lemma {:induction false} ErrorFreeExactly(s: Session, frames: seq<Masked>, c: Config)
    requires !s.closed && (s.fragment.None? ==> s.partial == [])
    requires forall i :: 0 <= i < |frames| ==> frames[i].frame.opcode < 16 && frames[i].frame.opcode != CLOSE
    ensures HandleAll(s, frames, c).errors == s.errors <==>
              && AllControlsLegal(frames)
              && Legal(DataOnly(frames), s.fragment.Some?, |s.partial|, c.maxMessageBytes)
              && (c.autoPong ==> PongsFit(frames, s.pending, c.maxPendingBytes))
    decreases |frames|
  {
    hide HandleFrame, LegalControl, Legal, PongsFit;
    if frames == [] {
      NothingIsLegal(s.fragment.Some?, |s.partial|, c.maxMessageBytes);
      NothingToAnswer(s.pending, c.maxPendingBytes);
    } else {
      var f := frames[0].frame;
      var r := HandleFrame(s, f, c);
      StepExact(s, f, c);
      ControlsSplit(frames);
      PongsSplit(frames, s.pending, c.maxPendingBytes);
      if !Control(f) {
        DataIsNotControl(f);
        assert DataOnly(frames)[0] == f && DataOnly(frames)[1..] == DataOnly(frames[1..]);
        LegalFirst(DataOnly(frames), s.fragment.Some?, |s.partial|, c.maxMessageBytes);
      }
      if r.errors != s.errors {
        ErrorStays(r, frames[1..], c);
      } else {
        ErrorFreeExactly(r, frames[1..], c);
        if Control(f) {
          assert DataOnly(frames) == DataOnly(frames[1..]);
        } else if f.fin {
          LegalAnySize(DataOnly(frames[1..]), |r.partial|,
                       (if s.fragment.Some? then |s.partial| else 0) + |f.payload|, c.maxMessageBytes);
        }
      }
    }
  }

  lemma {:induction false} NothingToAnswer(pending: nat, max: nat)
    ensures PongsFit([], pending, max)
  {
  }

  lemma {:induction false} ControlsSplit(frames: seq<Masked>)
    requires frames != []
    ensures AllControlsLegal(frames) <==> LegalControl(frames[0].frame) && AllControlsLegal(frames[1..])
  {
    hide LegalControl;
    if LegalControl(frames[0].frame) && AllControlsLegal(frames[1..]) {
      forall i | 0 <= i < |frames| ensures LegalControl(frames[i].frame) {
        assert i > 0 ==> frames[i] == frames[1..][i - 1];
      }
    }
  }

  lemma {:induction false} DataIsNotControl(f: Frame)
    requires !Control(f)
    ensures LegalControl(f)
  {
  }

  lemma {:induction false} NothingIsLegal(open: bool, size: nat, max: nat)
    ensures Legal([], open, size, max)
  {
  }

  lemma {:induction false} LegalAnySize(data: seq<Frame>, a: nat, b: nat, max: nat)
    ensures Legal(data, false, a, max) == Legal(data, false, b, max)
  {
  }
}
