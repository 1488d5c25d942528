/** The WebSocket output queue in every reachable state: accounting, bound, order, one close frame. */
module WsOutput {
  import opened Text
  import opened WsFrame
  import opened WsSession

  function Total(writes: seq<bytes>): nat {
    if writes == [] then 0 else |writes[0]| + Total(writes[1..])
  }

  predicate AllSmall(sent: seq<Out>) {
    forall i :: 0 <= i < |sent| ==> sent[i].opcode < 16
  }

  /** The wire form of every frame. */
  function Frames(sent: seq<Out>): (frames: seq<bytes>)
    requires AllSmall(sent)
    ensures |frames| == |sent|
    ensures forall i :: 0 <= i < |sent| ==> frames[i] == MakeFrame(sent[i].opcode, sent[i].payload)
  {
    seq(|sent|, i requires 0 <= i < |sent| => MakeFrame(sent[i].opcode, sent[i].payload))
  }

  function CloseFrames(sent: seq<Out>): seq<Out> {
    if sent == [] then []
    else CloseFrames(sent[..|sent| - 1])
         + if sent[|sent| - 1].opcode == CLOSE then [sent[|sent| - 1]] else []
  }

  /** The size of the close frame, if one was queued. */
  function CloseSize(sent: seq<Out>): nat {
    if CloseFrames(sent) == [] then 0 else |MakeFrame(CLOSE, CloseFrames(sent)[0].payload)|
  }

  /** Queue order and byte count. While open, the queue is the tail of what was queued, a write is in
      flight exactly when the queue is not empty, and the transport has been handed everything before the
      queue plus the write in flight. Once closed nothing more is handed over. */
  predicate InOrder(s: Session) {
    && AllSmall(s.sent)
    && if s.closed then s.writes == [] && s.pending == 0 && s.wire <= Frames(s.sent)
       else
         && |s.writes| <= |s.sent|
         && s.writes == Frames(s.sent)[|s.sent| - |s.writes|..]
         && (s.writing <==> s.writes != [])
         && s.wire == Frames(s.sent)[..|s.sent| - |s.writes| + if s.writing then 1 else 0]
         && s.pending == Total(s.writes)
  }

  /** The bound of the output queue, and at most one close frame ever. */
  predicate Bounded(s: Session, c: Config) {
    && |CloseFrames(s.sent)| == (if s.closeSent then 1 else 0)
    && s.pending <= c.maxPendingBytes + 10 + CloseSize(s.sent)
  }

  predicate OutputInv(s: Session, c: Config) { InOrder(s) && Bounded(s, c) }

  lemma {:induction false} TotalSnoc(writes: seq<bytes>, frame: bytes)
    ensures Total(writes + [frame]) == Total(writes) + |frame|
  {
    if writes != [] {
      assert (writes + [frame])[1..] == writes[1..] + [frame];
      TotalSnoc(writes[1..], frame);
    } else {
      assert [frame][1..] == [];
    }
  }

  lemma FramesSnoc(sent: seq<Out>, out: Out)
    requires AllSmall(sent) && out.opcode < 16
    ensures AllSmall(sent + [out])
    ensures Frames(sent + [out]) == Frames(sent) + [MakeFrame(out.opcode, out.payload)]
  {
  }

  lemma QueueInOrder(s: Session, out: Out)
    requires InOrder(s) && !s.closed && out.opcode < 16
    ensures var r := Queue(s, out);
            && InOrder(r) && r.sent == s.sent + [out] && r.closed == s.closed && r.closeSent == s.closeSent
            && r.pending == s.pending + |MakeFrame(out.opcode, out.payload)|
  {
    hide MakeFrame, Frames, Total;
    FramesSnoc(s.sent, out);
    var frame := MakeFrame(out.opcode, out.payload);
    TotalSnoc(s.writes, frame);
    if s.writing {
      QueueBehind(s, out, frame, Frames(s.sent));
    } else {
      QueueIdle(s, out, frame, Frames(s.sent));
    }
  }

  lemma QueueBehind(s: Session, out: Out, frame: bytes, all: seq<bytes>)
    requires InOrder(s) && !s.closed && s.writing && out.opcode < 16
    requires frame == MakeFrame(out.opcode, out.payload) && all == Frames(s.sent)
    requires AllSmall(s.sent + [out]) && Frames(s.sent + [out]) == all + [frame]
    requires Total(s.writes + [frame]) == Total(s.writes) + |frame|
    ensures var r := Queue(s, out);
            InOrder(r) && r == s.(pending := s.pending + |frame|, writes := s.writes + [frame], sent := s.sent + [out])
  {
    hide MakeFrame, Frames, Total, AllSmall;
    var k := |s.sent| - |s.writes|;
    assert all[k..] + [frame] == (all + [frame])[k..];
    assert (all + [frame])[..k + 1] == all[..k + 1];
  }

  lemma QueueIdle(s: Session, out: Out, frame: bytes, all: seq<bytes>)
    requires InOrder(s) && !s.closed && !s.writing && out.opcode < 16
    requires frame == MakeFrame(out.opcode, out.payload) && all == Frames(s.sent)
    requires AllSmall(s.sent + [out]) && Frames(s.sent + [out]) == all + [frame]
    requires Total(s.writes + [frame]) == Total(s.writes) + |frame|
    ensures var r := Queue(s, out);
            && InOrder(r) && r.sent == s.sent + [out] && r.closed == s.closed && r.closeSent == s.closeSent
            && r.pending == s.pending + |frame|
  {
    hide MakeFrame, Frames, Total, AllSmall;
    assert s.writes + [frame] == [frame];
    assert [frame] == (all + [frame])[|s.sent|..];
    assert all[..|s.sent|] + [frame] == (all + [frame])[..|s.sent| + 1];
  }

  lemma CloseFramesSnoc(sent: seq<Out>, out: Out)
    ensures CloseFrames(sent + [out]) == CloseFrames(sent) + if out.opcode == CLOSE then [out] else []
    ensures out.opcode != CLOSE ==> CloseSize(sent + [out]) == CloseSize(sent)
    ensures out.opcode == CLOSE && CloseFrames(sent) == [] ==>
              CloseSize(sent + [out]) == |MakeFrame(CLOSE, out.payload)| && CloseSize(sent) == 0
  {
    hide MakeFrame;
    assert (sent + [out])[..|sent|] == sent;
  }

  /** Queueing the one close frame. */
  lemma QueueClose(s: Session, payload: bytes, c: Config)
    requires OutputInv(s, c) && !s.closed && !s.closeSent
    ensures var r := Queue(s.(closeSent := true), Out(CLOSE, payload)); OutputInv(r, c) && !r.closed && r.closeSent
  {
    hide MakeFrame, Frames, Total, CloseSize, CloseFrames, Queue, InOrder;
    assert InOrder(s.(closeSent := true)) by { OrderIgnores(s, s.(closeSent := true)); }
    QueueInOrder(s.(closeSent := true), Out(CLOSE, payload));
    CloseFramesSnoc(s.sent, Out(CLOSE, payload));
  }

  lemma OrderIgnores(s: Session, r: Session)
    requires InOrder(s) && s.sent == r.sent && s.writes == r.writes && s.pending == r.pending
    requires s.writing == r.writing && s.wire == r.wire && s.closed == r.closed
    ensures InOrder(r)
  {
  }

  lemma QueueData(s: Session, opcode: nat, payload: bytes, c: Config)
    requires OutputInv(s, c) && !s.closed && opcode < 16 && opcode != CLOSE
    requires s.pending + |payload| <= c.maxPendingBytes
    ensures var r := Queue(s, Out(opcode, payload)); OutputInv(r, c) && !r.closed
  {
    hide Frames, Total, CloseSize, CloseFrames, Queue, InOrder;
    QueueInOrder(s, Out(opcode, payload));
    CloseFramesSnoc(s.sent, Out(opcode, payload));
  }

  lemma CloseWithInv(s: Session, code: nat, reason: bytes, c: Config)
    requires OutputInv(s, c)
    ensures OutputInv(CloseWith(s, code, reason), c)
  {
    hide OutputInv, Queue;
    if !s.closed && !s.closeSent {
      QueueClose(s, BigEndian(code, 2) + reason, c);
    }
  }

  /** The parts of the state that the output invariant does not look at. */
  lemma InvIgnores(s: Session, r: Session, c: Config)
    requires OutputInv(s, c) && s.sent == r.sent && s.writes == r.writes && s.pending == r.pending
    requires s.writing == r.writing && s.wire == r.wire && s.closed == r.closed && s.closeSent == r.closeSent
    ensures OutputInv(r, c)
  {
  }

  lemma ErrorInv(s: Session, code: nat, e: ErrorKind, c: Config)
    requires OutputInv(s, c)
    ensures OutputInv(CloseWithError(s, code, e), c)
  {
    hide OutputInv, CloseWith;
    InvIgnores(s, Notify(s, e), c);
    CloseWithInv(Notify(s, e), code, [], c);
  }

  lemma SendInv(s: Session, opcode: nat, payload: bytes, c: Config)
    requires OutputInv(s, c) && opcode < 16 && opcode != CLOSE
    ensures OutputInv(SendFrame(s, opcode, payload, c), c)
  {
    hide OutputInv, CloseWithError, Queue;
    if !s.closed {
      if c.maxPendingBytes < s.pending + |payload| {
        ErrorInv(s, INTERNAL_ERROR, WouldBlock, c);
      } else {
        QueueData(s, opcode, payload, c);
      }
    }
  }

  lemma ShutInv(s: Session, c: Config)
    requires OutputInv(s, c)
    ensures OutputInv(CloseTransport(s), c)
  {
    hide MakeFrame, Frames, CloseFrames, Total;
  }

  lemma FailInv(s: Session, e: ErrorKind, c: Config)
    requires OutputInv(s, c)
    ensures OutputInv(Fail(s, e), c)
  {
    hide OutputInv, CloseTransport;
    InvIgnores(s, Notify(s, e), c);
    ShutInv(Notify(s, e), c);
  }

  /** The queue after its front has been written. */
  lemma PopInOrder(s: Session)
    requires InOrder(s) && !s.closed && s.writing
    ensures s.writes != [] && |s.writes[0]| <= s.pending
    ensures InOrder(FlushNext(s.(writing := false, pending := s.pending - |s.writes[0]|, writes := s.writes[1..])))
  {
    hide MakeFrame, Frames, AllSmall;
    var all, k := Frames(s.sent), |s.sent| - |s.writes|;
    assert |all| == |s.sent| by { FramesSize(s.sent); }
    assert s.writes[1..] == all[k + 1..] && s.writes[0] == all[k];
    if s.writes[1..] != [] {
      assert all[..k + 1] + [all[k + 1]] == all[..k + 2];
    }
  }

  lemma FramesSize(sent: seq<Out>)
    requires AllSmall(sent)
    ensures |Frames(sent)| == |sent|
  {
  }

  /** A completed write: the size subtracted never exceeds what is pending, so the clamp never acts. */
  lemma WriteDoneInv(s: Session, ok: bool, c: Config)
    requires OutputInv(s, c) && s.writing
    ensures OutputInv(WriteDone(s, ok), c)
    ensures !s.closed ==> s.writes != [] && |s.writes[0]| <= s.pending
  {
    hide MakeFrame, CloseFrames, CloseSize, InOrder;
    if s.closed {
      ClosedIdle(s);
    } else {
      PopInOrder(s);
      if !ok {
        ShutIdle(s);
      }
    }
  }

  lemma ClosedIdle(s: Session)
    requires InOrder(s) && s.closed
    ensures InOrder(s.(writing := false))
  {
    hide MakeFrame;
  }

  lemma ShutIdle(s: Session)
    requires InOrder(s) && !s.closed
    ensures InOrder(Fail(s.(writing := false), TransportError))
  {
    hide MakeFrame, Frames;
  }

  lemma HandleFrameInv(s: Session, f: Frame, c: Config)
    requires OutputInv(s, c) && !s.closed
    ensures OutputInv(HandleFrame(s, f, c), c)
  {
    hide OutputInv, CloseWithError, SendFrame, Queue, CloseTransport, Number, ValidCloseCode;
    ErrorInv(s, PROTOCOL_ERROR, ProtocolError, c);
    ErrorInv(s, MESSAGE_TOO_LARGE, MessageSize, c);
    var r := HandleFrame(s, f, c);
    if f.opcode == PING {
      InvIgnores(s, Deliver(s, Ping(f.payload)), c);
      SendInv(Deliver(s, Ping(f.payload)), PONG, f.payload, c);
    } else if f.opcode == CLOSE {
      HandleCloseInv(s, f, c);
    } else if r.sent == s.sent && r.errors == s.errors {
      QuietHandlers(s, f, c);
    }
  }

  lemma HandleCloseInv(s: Session, f: Frame, c: Config)
    requires OutputInv(s, c) && !s.closed
    ensures OutputInv(HandleClose(s, f), c)
  {
    hide OutputInv, CloseWithError, Queue, CloseTransport, Number, ValidCloseCode;
    ErrorInv(s, PROTOCOL_ERROR, ProtocolError, c);
    if |f.payload| != 1 {
      var heard :=
        if f.payload == [] then Deliver(s, Closing(NORMAL, []))
        else Deliver(s, Closing(Number(f.payload[..2]), f.payload[2..]));
      InvIgnores(s, heard, c);
      if s.closeSent {
        ShutInv(heard, c);
      } else {
        QueueClose(heard, f.payload, c);
      }
    }
  }

  /** Data, continuation and pong frames either report an error or leave the output alone. */
  lemma QuietHandlers(s: Session, f: Frame, c: Config)
    requires OutputInv(s, c) && !s.closed && f.opcode != PING && f.opcode != CLOSE
    ensures OutputInv(HandleFrame(s, f, c), c)
  {
    hide OutputInv, CloseWithError;
    ErrorInv(s, PROTOCOL_ERROR, ProtocolError, c);
    ErrorInv(s, MESSAGE_TOO_LARGE, MessageSize, c);
    InvIgnores(s, Deliver(s, Message(f.opcode, f.payload)), c);
    InvIgnores(s, s.(fragment := Some(f.opcode), partial := f.payload), c);
    InvIgnores(s, s.(partial := s.partial + f.payload), c);
    InvIgnores(s, Deliver(s, Pong(f.payload)), c);
    if s.fragment.Some? {
      InvIgnores(s, Deliver(s.(fragment := None, partial := []), Message(s.fragment.value, s.partial + f.payload)), c);
    }
  }

  lemma {:induction false} DrainInv(s: Session, c: Config)
    requires OutputInv(s, c)
    ensures OutputInv(Drain(s, c), c)
    decreases |s.unread|
  {
    hide OutputInv, ParseFrame, HandleFrame, CloseWithError;
    if !s.closed {
      ErrorInv(s, PROTOCOL_ERROR, ProtocolError, c);
      ErrorInv(s, MESSAGE_TOO_LARGE, MessageSize, c);
      var parsed := ParseFrame(s.unread, c.maxMessageBytes);
      if parsed.Complete? {
        var rest := s.(unread := s.unread[parsed.size..]);
        InvIgnores(s, rest, c);
        HandleFrameInv(rest, parsed.frame, c);
        HandleKeepsUnread(rest, parsed.frame, c);
        DrainInv(HandleFrame(rest, parsed.frame, c), c);
      }
    }
  }

  lemma HandleInv(s: Session, e: Event, c: Config)
    requires OutputInv(s, c)
    ensures OutputInv(Handle(s, e, c), c)
  {
    hide OutputInv, Drain, Fail, CloseTransport, CloseWith, SendFrame, WriteDone;
    match e
    case Read(more) =>
      if !s.closed {
        InvIgnores(s, Append(s, more), c);
        DrainInv(Append(s, more), c);
      }
    case Eof => ShutInv(s, c); FailInv(s, NotConnected, c);
    case ReadFailed => FailInv(s, TransportError, c);
    case Send(opcode, payload) =>
      if opcode in {TEXT, BINARY, PING, PONG} {
        SendInv(s, opcode, payload, c);
      }
    case Close(code, reason) => CloseWithInv(s, code, reason, c);
    case Written(ok) =>
      if s.writing {
        WriteDoneInv(s, ok, c);
      }
    case CloseTimeout => ShutInv(s, c);
    case Shut => ShutInv(s, c);
  }

  lemma FreshInv(c: Config)
    ensures OutputInv(FRESH, c)
  {
  }

  lemma {:induction false} RunInv(s: Session, events: seq<Event>, c: Config)
    requires OutputInv(s, c)
    ensures OutputInv(Run(s, events, c), c)
    decreases |events|
  {
    hide OutputInv, Handle;
    if events != [] {
      HandleInv(s, events[0], c);
      RunInv(Handle(s, events[0], c), events[1..], c);
    }
  }

  /** In every reachable state: the pending count is the size of the queue and within the limit plus one
      frame header and one close frame; at most one close frame was ever queued; a non-empty queue of an
      open session has exactly one write in flight; and the transport has been handed a prefix of the
      queued frames, in order, each of which a client reads back as its opcode and payload. */
  lemma OutputQueue(events: seq<Event>, c: Config)
    ensures var s := Run(FRESH, events, c);
            && s.pending == Total(s.writes)
            && s.pending <= c.maxPendingBytes + 10 + CloseSize(s.sent)
            && |CloseFrames(s.sent)| <= 1
            && (!s.closed ==> (s.writing <==> s.writes != []))
            && |s.wire| <= |s.sent|
            && forall i :: 0 <= i < |s.wire| ==>
                 && s.sent[i].opcode < 16
                 && s.wire[i] == MakeFrame(s.sent[i].opcode, s.sent[i].payload)
                 && (|s.sent[i].payload| < 0x1_0000_0000_0000_0000 ==>
                       ReadServerFrame(s.wire[i]) == Some(Frame(true, s.sent[i].opcode, s.sent[i].payload)))
  {
    hide Run, MakeFrame, ReadServerFrame, CloseFrames, CloseSize;
    FreshInv(c);
    RunInv(FRESH, events, c);
    var s := Run(FRESH, events, c);
    forall i | 0 <= i < |s.wire|
      ensures s.sent[i].opcode < 16 && s.wire[i] == MakeFrame(s.sent[i].opcode, s.sent[i].payload)
      ensures |s.sent[i].payload| < 0x1_0000_0000_0000_0000 ==>
                ReadServerFrame(s.wire[i]) == Some(Frame(true, s.sent[i].opcode, s.sent[i].payload))
    {
      assert s.wire[i] == Frames(s.sent)[i];
      if |s.sent[i].payload| < 0x1_0000_0000_0000_0000 {
        ServerFrameRoundTrip(s.sent[i].opcode, s.sent[i].payload);
      }
    }
  }
}
