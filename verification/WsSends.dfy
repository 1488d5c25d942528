/** What a session puts out: the frames the application asked for and the answers section 5.5 of RFC 6455 asks
    for, and nothing else. */
module WsSends {
  import opened Text
  import opened WsFrame
  import opened WsSession
  import opened WsMessages

  // ---------------------------------------------------------------- one call

  predicate Room(s: Session, payload: bytes, c: Config) {
    s.pending + |payload| <= c.maxPendingBytes
  }

  /** What reporting an error and closing with a code adds: the report, and one close frame if none went out. */
  predicate ClosesWith(s: Session, r: Session, code: nat, e: ErrorKind) {
    && r.errors == s.errors + [e] && r.closeSent && r.delivered == s.delivered
    && r.sent == s.sent + if s.closeSent then [] else [Out(CLOSE, BigEndian(code, 2))]
  }

  lemma ErrorCloses(s: Session, code: nat, e: ErrorKind)
    requires !s.closed
    ensures ClosesWith(s, CloseWithError(s, code, e), code, e)
  {
    hide MakeFrame;
    assert BigEndian(code, 2) + [] == BigEndian(code, 2);
  }

  lemma QueueAdds(s: Session, out: Out)
    requires out.opcode < 16
    ensures var r := Queue(s, out);
            && r.sent == s.sent + [out] && r.errors == s.errors && r.delivered == s.delivered
            && r.closed == s.closed && r.closeSent == s.closeSent
  {
    hide MakeFrame;
  }

  /** A send on an open session: the frame that was asked for, or, without room, an error and a close frame
      with code 1011. On a closed session nothing. */
  lemma SendAsked(s: Session, opcode: nat, payload: bytes, c: Config)
    requires opcode in {TEXT, BINARY, PING, PONG}
    ensures var r := Handle(s, Send(opcode, payload), c);
            && (s.closed ==> r == s)
            && (!s.closed && Room(s, payload, c) ==>
                  r.sent == s.sent + [Out(opcode, payload)] && r.errors == s.errors && r.delivered == s.delivered)
            && (!s.closed && !Room(s, payload, c) ==> ClosesWith(s, r, 1011, WouldBlock))
  {
    hide Queue, CloseWithError, ClosesWith;
    QueueAdds(s, Out(opcode, payload));
    if !s.closed {
      ErrorCloses(s, INTERNAL_ERROR, WouldBlock);
    }
  }

  /** Closing: one close frame with the code and reason, once. */
  lemma CloseAsked(s: Session, code: nat, reason: bytes, c: Config)
    ensures var r := Handle(s, Close(code, reason), c);
            if s.closed || s.closeSent then r == s
            else r.closeSent && !r.closed && r.sent == s.sent + [Out(CLOSE, BigEndian(code, 2) + reason)]
  {
    hide Queue;
    QueueAdds(s.(closeSent := true), Out(CLOSE, BigEndian(code, 2) + reason));
  }

  /** The end of the stream closes the transport: in order after a close frame went out, else with an error. */
  lemma EndOfStream(s: Session, c: Config)
    requires !s.closed
    ensures var r := Handle(s, Eof, c);
            && r.closed && r.sent == s.sent && r.delivered == s.delivered
            && r.errors == s.errors + if s.closeSent then [] else [NotConnected]
    ensures var r := Handle(s, ReadFailed, c);
            r.closed && r.sent == s.sent && r.delivered == s.delivered && r.errors == s.errors + [TransportError]
    ensures var r := Handle(s, Shut, c);
            r.closed && r.sent == s.sent && r.delivered == s.delivered && r.errors == s.errors
  {
  }

  /** The close timer closes the transport of a session that has sent its close frame and of no other. */
  lemma TimerCloses(s: Session, c: Config)
    ensures var r := Handle(s, CloseTimeout, c);
            && (r.closed <==> s.closed || s.closeSent) && r.sent == s.sent && r.errors == s.errors
            && (!s.closeSent ==> r == s)
  {
  }

  // ---------------------------------------------------------------- one frame

  predicate WellFormedControl(f: Frame) { f.fin && |f.payload| <= 125 }

  /** A ping is heard; with automatic pongs and room it is answered with its own payload. */
  lemma PingAnswered(s: Session, f: Frame, c: Config)
    requires !s.closed && f.opcode == PING && WellFormedControl(f)
    ensures var r := HandleFrame(s, f, c);
            && r.delivered == s.delivered + [Ping(f.payload)]
            && (c.autoPong && Room(s, f.payload, c) ==> r.sent == s.sent + [Out(PONG, f.payload)] && r.errors == s.errors)
            && (c.autoPong && !Room(s, f.payload, c) ==>
                  ClosesWith(Deliver(s, Ping(f.payload)), r, 1011, WouldBlock))
            && (!c.autoPong ==> r.sent == s.sent && r.errors == s.errors)
  {
    hide Queue, CloseWithError;
    var heard := Deliver(s, Ping(f.payload));
    QueueAdds(heard, Out(PONG, f.payload));
    ErrorCloses(heard, INTERNAL_ERROR, WouldBlock);
    ErrorCloses(s, PROTOCOL_ERROR, ProtocolError);
  }

  lemma PongHeard(s: Session, f: Frame, c: Config)
    requires !s.closed && f.opcode == PONG && WellFormedControl(f)
    ensures HandleFrame(s, f, c) == s.(delivered := s.delivered + [Pong(f.payload)])
  {
  }

  /** The codes that may not stand in a close frame (section 7.4 of RFC 6455): below 1000, the reserved ones,
      the unassigned ones and everything from 5000 on. */
  predicate ForbiddenCode(code: nat) {
    code < 1000 || code == 1004 || code == 1005 || code == 1006 || 1012 <= code < 3000 || 5000 <= code
  }

  lemma CodesComplement(code: nat)
    ensures ValidCloseCode(code) <==> !ForbiddenCode(code)
  {
  }

  /** A close frame: heard with its code and reason, 1000 and none when empty; echoed, unless a close frame went
      out before, and then the transport closes. One byte, or a forbidden code, is a protocol error. */
  lemma CloseAnswered(s: Session, f: Frame, c: Config, code: nat)
    requires !s.closed && f.opcode == CLOSE && WellFormedControl(f)
    requires |f.payload| >= 2 ==> code == 256 * f.payload[0] as nat + f.payload[1] as nat
    ensures var r := HandleFrame(s, f, c);
            if |f.payload| == 1 || (|f.payload| >= 2 && ForbiddenCode(code)) then
              ClosesWith(s, r, 1002, ProtocolError) && !r.closed
            else
              && r.errors == s.errors
              && r.delivered ==
                 s.delivered + [if f.payload == [] then Closing(1000, []) else Closing(code, f.payload[2..])]
              && (if s.closeSent then r.closed && r.sent == s.sent
                  else !r.closed && r.closeSent && r.sent == s.sent + [Out(CLOSE, f.payload)])
  {
    hide Queue, CloseWithError, ClosesWith, ValidCloseCode, Number, ForbiddenCode;
    ErrorCloses(s, PROTOCOL_ERROR, ProtocolError);
    ErrorBlind(s, [], PROTOCOL_ERROR, ProtocolError);
    CodesComplement(code);
    if |f.payload| >= 2 {
      TwoBytes(f.payload);
    }
    var heard := Deliver(s, if f.payload == [] then Closing(1000, []) else if |f.payload| == 1 then Closing(0, [])
                            else Closing(code, f.payload[2..]));
    QueueAdds(heard.(closeSent := true), Out(CLOSE, f.payload));
  }

  lemma TwoBytes(b: bytes)
    requires |b| >= 2
    ensures Number(b[..2]) == 256 * b[0] as nat + b[1] as nat
  {
    assert b[..2] == [b[0], b[1]];
    NumberOfTwo(b[0], b[1]);
  }

  lemma NumberOfTwo(a: byte, b: byte)
    ensures Number([a, b]) == 256 * a as nat + b as nat
  {
    assert [a, b][..1] == [a] && [a][..0] == [];
    assert Number([]) == 0 && Number([a]) == a as nat;
  }

  /** A malformed control frame or an unknown opcode is a protocol error. */
  lemma MalformedRefused(s: Session, f: Frame, c: Config)
    requires !s.closed && f.opcode < 16
    requires if f.opcode in {PING, PONG, CLOSE} then !WellFormedControl(f) else f.opcode !in {TEXT, BINARY, CONTINUATION}
    ensures ClosesWith(s, HandleFrame(s, f, c), 1002, ProtocolError)
  {
    hide CloseWithError, ClosesWith;
    ErrorCloses(s, PROTOCOL_ERROR, ProtocolError);
  }

  /** Data frames out of place are protocol errors; one that outgrows the limit closes with 1009. Data frames
      never put anything else out. */
  lemma DataAnswered(s: Session, f: Frame, c: Config)
    requires !s.closed && f.opcode in {TEXT, BINARY, CONTINUATION}
    ensures var r := HandleFrame(s, f, c);
            if (f.opcode == CONTINUATION) != s.fragment.Some? then ClosesWith(s, r, 1002, ProtocolError)
            else if f.opcode == CONTINUATION && c.maxMessageBytes < |s.partial| + |f.payload| then
              ClosesWith(s, r, 1009, MessageSize)
            else r.sent == s.sent && r.errors == s.errors && !r.closed && r.closeSent == s.closeSent
  {
    hide CloseWithError, ClosesWith;
    ErrorCloses(s, PROTOCOL_ERROR, ProtocolError);
    ErrorCloses(s, MESSAGE_TOO_LARGE, MessageSize);
  }

  // ---------------------------------------------------------------- every run

  /** Frames only the application can ask for. */
  predicate Own(out: Out) { out.opcode in {TEXT, BINARY, PING} }

  function OwnFrames(sent: seq<Out>): seq<Out> {
    if sent == [] then []
    else OwnFrames(sent[..|sent| - 1]) + if Own(sent[|sent| - 1]) then [sent[|sent| - 1]] else []
  }

  /** The sends of a run that found the session open and room in its queue. */
  function Accepted(s: Session, events: seq<Event>, c: Config): seq<Out>
    decreases |events|
  {
    if events == [] then []
    else
      (if events[0].Send? && !s.closed && Room(s, events[0].payload, c) && Own(Out(events[0].opcode, events[0].payload))
       then [Out(events[0].opcode, events[0].payload)] else [])
      + Accepted(Handle(s, events[0], c), events[1..], c)
  }

  lemma {:induction false} OwnSnoc(sent: seq<Out>, out: Out)
    ensures OwnFrames(sent + [out]) == OwnFrames(sent) + if Own(out) then [out] else []
  {
    assert (sent + [out])[..|sent|] == sent;
  }

  /** What the session adds on its own are answers: pongs and close frames. */
  predicate OnlyAnswers(s: Session, r: Session) {
    OwnFrames(r.sent) == OwnFrames(s.sent)
  }

  lemma {:induction false} ErrorOnlyAnswers(s: Session, code: nat, e: ErrorKind)
    ensures OnlyAnswers(s, CloseWithError(s, code, e)) && OnlyAnswers(s, CloseTransport(s)) && OnlyAnswers(s, Fail(s, e))
  {
    hide Queue, OwnFrames;
    var notified := Notify(s, e);
    var out := Out(CLOSE, BigEndian(code, 2) + []);
    QueueAdds(notified.(closeSent := true), out);
    OwnSnoc(s.sent, out);
  }

  lemma {:induction false} FrameOnlyAnswers(s: Session, f: Frame, c: Config)
    requires !s.closed && f.opcode < 16
    ensures OnlyAnswers(s, HandleFrame(s, f, c))
  {
    hide HandleFrame, OwnFrames, ClosesWith;
    if f.opcode in {TEXT, BINARY, CONTINUATION} {
      DataAnswered(s, f, c);
      ClosedOnlyAnswers(s, HandleFrame(s, f, c), 1002, ProtocolError);
      ClosedOnlyAnswers(s, HandleFrame(s, f, c), 1009, MessageSize);
    } else if f.opcode !in {PING, PONG, CLOSE} || !WellFormedControl(f) {
      MalformedRefused(s, f, c);
      ClosedOnlyAnswers(s, HandleFrame(s, f, c), 1002, ProtocolError);
    } else {
      ControlOnlyAnswers(s, f, c);
    }
  }

  lemma ClosedOnlyAnswers(s: Session, r: Session, code: nat, e: ErrorKind)
    ensures ClosesWith(s, r, code, e) ==> OnlyAnswers(s, r)
  {
    hide OwnFrames;
    OwnSnoc(s.sent, Out(CLOSE, BigEndian(code, 2)));
    assert s.sent + [] == s.sent;
  }

  lemma ControlOnlyAnswers(s: Session, f: Frame, c: Config)
    requires !s.closed && f.opcode in {PING, PONG, CLOSE} && WellFormedControl(f)
    ensures OnlyAnswers(s, HandleFrame(s, f, c))
  {
    hide HandleFrame, OwnFrames, ClosesWith, ForbiddenCode;
    var r := HandleFrame(s, f, c);
    if f.opcode == PING {
      PingAnswered(s, f, c);
      OwnSnoc(s.sent, Out(PONG, f.payload));
      ClosedOnlyAnswers(Deliver(s, Ping(f.payload)), r, 1011, WouldBlock);
    } else if f.opcode == PONG {
      PongHeard(s, f, c);
    } else {
      CloseAnswered(s, f, c, if |f.payload| >= 2 then 256 * f.payload[0] as nat + f.payload[1] as nat else 0);
      OwnSnoc(s.sent, Out(CLOSE, f.payload));
      ClosedOnlyAnswers(s, r, 1002, ProtocolError);
    }
  }

  lemma {:induction false} DrainOnlyAnswers(s: Session, c: Config)
    ensures OnlyAnswers(s, Drain(s, c))
    decreases |s.unread|
  {
    hide ParseFrame, HandleFrame, CloseWithError, OwnFrames;
    ErrorOnlyAnswers(s, PROTOCOL_ERROR, ProtocolError);
    ErrorOnlyAnswers(s, MESSAGE_TOO_LARGE, MessageSize);
    if !s.closed {
      var parsed := ParseFrame(s.unread, c.maxMessageBytes);
      if parsed.Complete? {
        var rest := s.(unread := s.unread[parsed.size..]);
        FrameOnlyAnswers(rest, parsed.frame, c);
        HandleKeepsUnread(rest, parsed.frame, c);
        DrainOnlyAnswers(HandleFrame(rest, parsed.frame, c), c);
      }
    }
  }

  lemma {:induction false} EventSends(s: Session, e: Event, c: Config)
    ensures OwnFrames(Handle(s, e, c).sent) ==
            OwnFrames(s.sent)
            + if e.Send? && !s.closed && Room(s, e.payload, c) && Own(Out(e.opcode, e.payload))
              then [Out(e.opcode, e.payload)] else []
  {
    hide Drain, OwnFrames, SendFrame, CloseWith, CloseTransport, Fail, CloseWithError, ClosesWith;
    assert OwnFrames(s.sent) + [] == OwnFrames(s.sent);
    match e
    case Read(more) =>
      if !s.closed {
        DrainOnlyAnswers(Append(s, more), c);
      }
    case Send(opcode, payload) =>
      if opcode in {TEXT, BINARY, PING, PONG} {
        SendAsked(s, opcode, payload, c);
        OwnSnoc(s.sent, Out(opcode, payload));
        ClosedOnlyAnswers(s, Handle(s, e, c), 1011, WouldBlock);
      }
    case Close(code, reason) =>
      CloseAsked(s, code, reason, c);
      OwnSnoc(s.sent, Out(CLOSE, BigEndian(code, 2) + reason));
    case Written(ok) => WrittenOnlyAnswers(s, ok);
    case _ =>
      ErrorOnlyAnswers(s, 0, NotConnected);
      ErrorOnlyAnswers(s, 0, TransportError);
  }

  lemma WrittenOnlyAnswers(s: Session, ok: bool)
    ensures OnlyAnswers(s, WriteDone(s, ok))
  {
    hide OwnFrames, Fail;
    ErrorOnlyAnswers(s.(writing := false), 0, TransportError);
  }

  /** In every run, whatever is read meanwhile: the text, binary and ping frames put out are exactly the
      accepted sends, unchanged and in order. */
  lemma {:induction false} SendsAreSent(s: Session, events: seq<Event>, c: Config)
    ensures OwnFrames(Run(s, events, c).sent) == OwnFrames(s.sent) + Accepted(s, events, c)
    decreases |events|
  {
    hide Handle, OwnFrames, Room, Own;
    if events == [] {
      assert OwnFrames(s.sent) + [] == OwnFrames(s.sent);
    } else {
      EventSends(s, events[0], c);
      SendsAreSent(Handle(s, events[0], c), events[1..], c);
    }
  }

  // ---------------------------------------------------------------- pings

  /** The answers to the pings among some frames, in order. */
  function Answers(frames: seq<Masked>): seq<Out> {
    if frames == [] then []
    else (if frames[0].frame.opcode == PING then [Out(PONG, frames[0].frame.payload)] else []) + Answers(frames[1..])
  }

  /** The pings and pongs among some frames, in order. */
  function Heard(frames: seq<Masked>): seq<Delivered> {
    if frames == [] then []
    else
      (if frames[0].frame.opcode == PING then [Ping(frames[0].frame.payload)]
       else if frames[0].frame.opcode == PONG then [Pong(frames[0].frame.payload)] else [])
      + Heard(frames[1..])
  }

  function ControlsIn(ds: seq<Delivered>): seq<Delivered> {
    if ds == [] then []
    else ControlsIn(ds[..|ds| - 1]) + if ds[|ds| - 1].Message? then [] else [ds[|ds| - 1]]
  }

  lemma {:induction false} ControlsSnoc(ds: seq<Delivered>, d: Delivered)
    ensures ControlsIn(ds + [d]) == ControlsIn(ds) + if d.Message? then [] else [d]
  {
    assert (ds + [d])[..|ds|] == ds;
  }

  lemma {:induction false} FrameHeard(s: Session, f: Frame, c: Config)
    requires !s.closed && f.opcode < 16 && f.opcode != CLOSE && HandleFrame(s, f, c).errors == s.errors
    ensures var r := HandleFrame(s, f, c);
            && !r.closed
            && r.sent == s.sent + (if c.autoPong && f.opcode == PING then [Out(PONG, f.payload)] else [])
            && ControlsIn(r.delivered) == ControlsIn(s.delivered) + Heard([Masked(f, [])])
  {
    hide HandleFrame, ControlsIn, ClosesWith;
    var r := HandleFrame(s, f, c);
    HeardOne(f);
    assert s.sent + [] == s.sent && ControlsIn(s.delivered) + [] == ControlsIn(s.delivered);
    if f.opcode in {TEXT, BINARY, CONTINUATION} {
      DataAnswered(s, f, c);
      DataHeard(s, f, c);
      NotClosesWith(s, r, 1002, ProtocolError);
      NotClosesWith(s, r, 1009, MessageSize);
    } else if f.opcode !in {PING, PONG} || !WellFormedControl(f) {
      MalformedRefused(s, f, c);
      NotClosesWith(s, r, 1002, ProtocolError);
    } else if f.opcode == PING {
      PingAnswered(s, f, c);
      NotClosesWith(Deliver(s, Ping(f.payload)), r, 1011, WouldBlock);
      ControlsSnoc(s.delivered, Ping(f.payload));
      PingOpen(s, f, c);
    } else {
      PongHeard(s, f, c);
      ControlsSnoc(s.delivered, Pong(f.payload));
    }
  }

  lemma NotClosesWith(s: Session, r: Session, code: nat, e: ErrorKind)
    ensures r.errors == s.errors ==> !ClosesWith(s, r, code, e)
  {
  }

  lemma HeardOne(f: Frame)
    ensures Heard([Masked(f, [])]) ==
            if f.opcode == PING then [Ping(f.payload)] else if f.opcode == PONG then [Pong(f.payload)] else []
  {
    assert [Masked(f, [])][1..] == [];
  }

  lemma PingOpen(s: Session, f: Frame, c: Config)
    requires !s.closed && f.opcode == PING && WellFormedControl(f)
    ensures !HandleFrame(s, f, c).closed
  {
    hide SendFrame;
    SendBlind(Deliver(s, Ping(f.payload)), [], PONG, f.payload, c);
  }

  lemma DataHeard(s: Session, f: Frame, c: Config)
    requires !s.closed && f.opcode in {TEXT, BINARY, CONTINUATION}
    ensures ControlsIn(HandleFrame(s, f, c).delivered) == ControlsIn(s.delivered)
  {
    hide CloseWithError, ControlsIn;
    ErrorCloses(s, PROTOCOL_ERROR, ProtocolError);
    ErrorCloses(s, MESSAGE_TOO_LARGE, MessageSize);
    ControlsSnoc(s.delivered, Message(f.opcode, f.payload));
    if s.fragment.Some? {
      ControlsSnoc(s.delivered, Message(s.fragment.value, s.partial + f.payload));
    }
  }

  /** Up to a close frame and without an error: every ping and pong is heard in order, and with automatic pongs
      exactly the pings are answered, each with its own payload, in order. */
  lemma {:induction false} PingsAnswered(s: Session, frames: seq<Masked>, c: Config)
    requires !s.closed && HandleAll(s, frames, c).errors == s.errors
    requires forall i :: 0 <= i < |frames| ==> frames[i].frame.opcode < 16 && frames[i].frame.opcode != CLOSE
    ensures var r := HandleAll(s, frames, c);
            && r.sent == s.sent + (if c.autoPong then Answers(frames) else [])
            && ControlsIn(r.delivered) == ControlsIn(s.delivered) + Heard(frames)
    decreases |frames|
  {
    hide HandleFrame, ControlsIn, Heard, Answers;
    HeardUnfold(frames);
    if frames == [] {
      assert s.sent + [] == s.sent && ControlsIn(s.delivered) + [] == ControlsIn(s.delivered);
    } else {
      var f, rest := frames[0].frame, frames[1..];
      var r := HandleFrame(s, f, c);
      NoErrorFirst(s, frames, c);
      FrameHeard(s, f, c);
      PingsAnswered(r, rest, c);
      var answer := if f.opcode == PING then [Out(PONG, f.payload)] else [];
      assert s.sent + answer + Answers(rest) == s.sent + (answer + Answers(rest));
      assert s.sent + [] + [] == s.sent + [];
      var before, here := ControlsIn(s.delivered), Heard([Masked(f, [])]);
      assert before + here + Heard(rest) == before + (here + Heard(rest));
    }
  }

  lemma HeardUnfold(frames: seq<Masked>)
    ensures frames == [] ==> Answers(frames) == [] && Heard(frames) == []
    ensures frames != [] ==>
              var f, rest := frames[0].frame, frames[1..];
              && Answers(frames) == (if f.opcode == PING then [Out(PONG, f.payload)] else []) + Answers(rest)
              && Heard(frames) == Heard([Masked(f, [])]) + Heard(rest)
  {
    if frames != [] {
      HeardOne(frames[0].frame);
    }
  }

  /** Reports are never taken back, so no error in the end is no error at the first frame. */
  lemma {:induction false} NoErrorFirst(s: Session, frames: seq<Masked>, c: Config)
    requires !s.closed && frames != [] && HandleAll(s, frames, c).errors == s.errors
    requires frames[0].frame.opcode < 16 && frames[0].frame.opcode != CLOSE
    ensures var r := HandleFrame(s, frames[0].frame, c);
            r.errors == s.errors && HandleAll(s, frames, c) == HandleAll(r, frames[1..], c)
  {
    hide HandleFrame;
    ErrorsGrow(s, frames[0].frame, c);
    ErrorStays(HandleFrame(s, frames[0].frame, c), frames[1..], c);
  }

  lemma {:induction false} ErrorsGrow(s: Session, f: Frame, c: Config)
    requires !s.closed && f.opcode < 16 && f.opcode != CLOSE
    ensures var r := HandleFrame(s, f, c); r.errors == s.errors || |s.errors| < |r.errors|
  {
    hide HandleFrame;
    if f.opcode in {TEXT, BINARY, CONTINUATION} {
      DataAnswered(s, f, c);
    } else if f.opcode !in {PING, PONG} || !WellFormedControl(f) {
      MalformedRefused(s, f, c);
    } else if f.opcode == PING {
      PingAnswered(s, f, c);
    } else {
      PongHeard(s, f, c);
    }
  }
}
