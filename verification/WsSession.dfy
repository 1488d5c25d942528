/** The WebSocket session: frame parsing over a growing buffer, fragment reassembly, the close handshake
    and the output queue (sections 5.4, 5.5 and 7 of RFC 6455). */
module WsSession {
  import opened Text
  import opened WsFrame

  const PROTOCOL_ERROR := 1002
  const MESSAGE_TOO_LARGE := 1009
  const INTERNAL_ERROR := 1011
  const NORMAL := 1000

  datatype ErrorKind = ProtocolError | MessageSize | WouldBlock | NotConnected | TransportError

  /** What reaches the application. */
  datatype Delivered =
    | Message(opcode: nat, payload: bytes)
    | Ping(payload: bytes)
    | Pong(payload: bytes)
    | Closing(code: nat, reason: bytes)

  /** A frame the session decided to send. */
  datatype Out = Out(opcode: nat, payload: bytes)

  datatype Config = Config(maxMessageBytes: nat, maxPendingBytes: nat, autoPong: bool)

  /** `unread` are the bytes the parser still has to look at, none once closed; `sent` are all frames
      ever queued, `wire` the buffers handed to the transport, `errors` the runs of the error callback. */
  datatype Session = Session(
    unread: bytes,
    fragment: Option<nat>,
    partial: bytes,
    sent: seq<Out>,
    writes: seq<bytes>,
    pending: nat,
    writing: bool,
    wire: seq<bytes>,
    closeSent: bool,
    closed: bool,
    delivered: seq<Delivered>,
    errors: seq<ErrorKind>)

  const FRESH := Session([], None, [], [], [], 0, false, [], false, false, [], [])

  // ---------------------------------------------------------------- output

  function FlushNext(s: Session): Session {
    if s.closed || s.writing || s.writes == [] then s
    else s.(writing := true, wire := s.wire + [s.writes[0]])
  }

  function Queue(s: Session, out: Out): Session
    requires out.opcode < 16
  {
    var frame := MakeFrame(out.opcode, out.payload);
    FlushNext(s.(pending := s.pending + |frame|, writes := s.writes + [frame], sent := s.sent + [out]))
  }

  function CloseWith(s: Session, code: nat, reason: bytes): Session {
    if s.closed || s.closeSent then s
    else Queue(s.(closeSent := true), Out(CLOSE, BigEndian(code, 2) + reason))
  }

  function Notify(s: Session, e: ErrorKind): Session {
    s.(errors := s.errors + [e])
  }

  function CloseWithError(s: Session, code: nat, e: ErrorKind): Session {
    CloseWith(Notify(s, e), code, [])
  }

  function CloseTransport(s: Session): Session {
    if s.closed then s else s.(closed := true, writes := [], pending := 0, unread := [])
  }

  function Fail(s: Session, e: ErrorKind): Session {
    CloseTransport(Notify(s, e))
  }

  function SendFrame(s: Session, opcode: nat, payload: bytes, c: Config): Session
    requires opcode < 16
  {
    if s.closed then s
    else if c.maxPendingBytes < s.pending + |payload| then CloseWithError(s, INTERNAL_ERROR, WouldBlock)
    else Queue(s, Out(opcode, payload))
  }

  /** A completed transport write; the subtraction is clamped at zero as in the code. */
  function WriteDone(s: Session, ok: bool): Session {
    var idle := s.(writing := false);
    if s.closed then idle
    else if !ok then Fail(idle, TransportError)
    else if s.writes == [] then idle
    else
      var size := |s.writes[0]|;
      FlushNext(idle.(pending := if size <= s.pending then s.pending - size else 0, writes := s.writes[1..]))
  }

  // ---------------------------------------------------------------- input

  predicate ValidCloseCode(code: nat) {
    3000 <= code <= 4999 || code in {1000, 1001, 1002, 1003, 1007, 1008, 1009, 1010, 1011}
  }

  function Deliver(s: Session, d: Delivered): Session {
    s.(delivered := s.delivered + [d])
  }

  function HandleData(s: Session, f: Frame): Session {
    if s.fragment.Some? then CloseWithError(s, PROTOCOL_ERROR, ProtocolError)
    else if f.fin then Deliver(s, Message(f.opcode, f.payload))
    else s.(fragment := Some(f.opcode), partial := f.payload)
  }

  function HandleContinuation(s: Session, f: Frame, c: Config): Session {
    if s.fragment.None? then CloseWithError(s, PROTOCOL_ERROR, ProtocolError)
    else if c.maxMessageBytes < |s.partial| + |f.payload| then
      CloseWithError(s, MESSAGE_TOO_LARGE, MessageSize)
    else if !f.fin then s.(partial := s.partial + f.payload)
    else Deliver(s.(fragment := None, partial := []), Message(s.fragment.value, s.partial + f.payload))
  }

  function HandlePing(s: Session, f: Frame, c: Config): Session {
    var heard := Deliver(s, Ping(f.payload));
    if c.autoPong then SendFrame(heard, PONG, f.payload, c) else heard
  }

  function HandleClose(s: Session, f: Frame): Session {
    if s.closed then s
    else if |f.payload| == 1 then CloseWithError(s, PROTOCOL_ERROR, ProtocolError)
    else if |f.payload| >= 2 && !ValidCloseCode(Number(f.payload[..2])) then
      CloseWithError(s, PROTOCOL_ERROR, ProtocolError)
    else
      var heard :=
        if f.payload == [] then Deliver(s, Closing(NORMAL, []))
        else Deliver(s, Closing(Number(f.payload[..2]), f.payload[2..]));
      if s.closeSent then CloseTransport(heard)
      else Queue(heard.(closeSent := true), Out(CLOSE, f.payload))
  }

  function HandleFrame(s: Session, f: Frame, c: Config): Session {
    if f.opcode / 8 % 2 == 1 && (!f.fin || 125 < |f.payload|) then
      CloseWithError(s, PROTOCOL_ERROR, ProtocolError)
    else if f.opcode == TEXT || f.opcode == BINARY then HandleData(s, f)
    else if f.opcode == CONTINUATION then HandleContinuation(s, f, c)
    else if f.opcode == PING then HandlePing(s, f, c)
    else if f.opcode == PONG then Deliver(s, Pong(f.payload))
    else if f.opcode == CLOSE then HandleClose(s, f)
    else CloseWithError(s, PROTOCOL_ERROR, ProtocolError)
  }

  /** Handlers neither look at nor change the unread bytes, unless they close the transport. */
  predicate Blind(s: Session, u: bytes, r: Session, ru: Session) {
    if r.closed then ru == r && r.unread == [] else r.unread == s.unread && ru == r.(unread := u)
  }

  lemma QueueBlind(s: Session, u: bytes, out: Out)
    requires !s.closed && out.opcode < 16
    ensures Blind(s, u, Queue(s, out), Queue(s.(unread := u), out)) && !Queue(s, out).closed
  {
    hide MakeFrame;
  }

  lemma ErrorBlind(s: Session, u: bytes, code: nat, e: ErrorKind)
    requires !s.closed
    ensures Blind(s, u, CloseWithError(s, code, e), CloseWithError(s.(unread := u), code, e))
    ensures !CloseWithError(s, code, e).closed
  {
    hide Queue;
    var notified := Notify(s, e);
    QueueBlind(notified.(closeSent := true), u, Out(CLOSE, BigEndian(code, 2) + []));
  }

  lemma SendBlind(s: Session, u: bytes, opcode: nat, payload: bytes, c: Config)
    requires !s.closed && opcode < 16
    ensures Blind(s, u, SendFrame(s, opcode, payload, c), SendFrame(s.(unread := u), opcode, payload, c))
    ensures !SendFrame(s, opcode, payload, c).closed
  {
    hide Queue, CloseWithError;
    QueueBlind(s, u, Out(opcode, payload));
    ErrorBlind(s, u, INTERNAL_ERROR, WouldBlock);
  }

  lemma DataBlind(s: Session, u: bytes, f: Frame, c: Config)
    requires !s.closed
    ensures Blind(s, u, HandleData(s, f), HandleData(s.(unread := u), f)) && !HandleData(s, f).closed
    ensures Blind(s, u, HandleContinuation(s, f, c), HandleContinuation(s.(unread := u), f, c))
    ensures !HandleContinuation(s, f, c).closed
  {
    hide CloseWithError;
    ErrorBlind(s, u, PROTOCOL_ERROR, ProtocolError);
    ErrorBlind(s, u, MESSAGE_TOO_LARGE, MessageSize);
  }

  lemma ControlBlind(s: Session, u: bytes, f: Frame, c: Config)
    requires !s.closed
    ensures Blind(s, u, HandlePing(s, f, c), HandlePing(s.(unread := u), f, c)) && !HandlePing(s, f, c).closed
    ensures Blind(s, u, HandleClose(s, f), HandleClose(s.(unread := u), f))
  {
    hide CloseWithError, SendFrame, Queue, Number, ValidCloseCode;
    ErrorBlind(s, u, PROTOCOL_ERROR, ProtocolError);
    SendBlind(Deliver(s, Ping(f.payload)), u, PONG, f.payload, c);
    var heard :=
      if |f.payload| < 2 then Deliver(s, Closing(NORMAL, []))
      else Deliver(s, Closing(Number(f.payload[..2]), f.payload[2..]));
    QueueBlind(heard.(closeSent := true), u, Out(CLOSE, f.payload));
  }

  lemma HandleBlind(s: Session, u: bytes, f: Frame, c: Config)
    requires !s.closed
    ensures Blind(s, u, HandleFrame(s, f, c), HandleFrame(s.(unread := u), f, c))
  {
    hide CloseWithError, HandleData, HandleContinuation, HandlePing, HandleClose;
    ErrorBlind(s, u, PROTOCOL_ERROR, ProtocolError);
    DataBlind(s, u, f, c);
    ControlBlind(s, u, f, c);
  }

  lemma HandleKeepsUnread(s: Session, f: Frame, c: Config)
    requires !s.closed
    ensures var r := HandleFrame(s, f, c); r.unread == if r.closed then [] else s.unread
  {
    hide HandleFrame;
    HandleBlind(s, s.unread, f, c);
  }

  /** `parse_frames`: until the buffer runs dry, a header is bad, or the session closes. */
  function Drain(s: Session, c: Config): Session
    decreases |s.unread|
  {
    if s.closed then s
    else
      match ParseFrame(s.unread, c.maxMessageBytes)
      case NeedMore => s
      case BadHeader => CloseWithError(s, PROTOCOL_ERROR, ProtocolError)
      case TooBig => CloseWithError(s, MESSAGE_TOO_LARGE, MessageSize)
      case Complete(f, size) =>
        HandleKeepsUnread(s.(unread := s.unread[size..]), f, c);
        Drain(HandleFrame(s.(unread := s.unread[size..]), f, c), c)
  }

  function Append(s: Session, more: bytes): Session {
    if s.closed then s else s.(unread := s.unread + more)
  }

  function OnRead(s: Session, more: bytes, c: Config): Session {
    if s.closed then s else Drain(Append(s, more), c)
  }

  function OnEof(s: Session): Session {
    if s.closed then s else if s.closeSent then CloseTransport(s) else Fail(s, NotConnected)
  }

  datatype Event =
    | Read(bytes_: bytes)
    | Eof
    | ReadFailed
    | Send(opcode: nat, payload: bytes)
    | Close(code: nat, reason: bytes)
    | Written(ok: bool)
    | CloseTimeout
    | Shut

  /** The application may send messages, pings and pongs; the transport completes a write only while one
      is in flight; the close timer runs only after a close frame was queued. */
  function Handle(s: Session, e: Event, c: Config): Session {
    match e
    case Read(more) => OnRead(s, more, c)
    case Eof => OnEof(s)
    case ReadFailed => if s.closed then s else Fail(s, TransportError)
    case Send(opcode, payload) =>
      if opcode in {TEXT, BINARY, PING, PONG} then SendFrame(s, opcode, payload, c) else s
    case Close(code, reason) => CloseWith(s, code, reason)
    case Written(ok) => if s.writing then WriteDone(s, ok) else s
    case CloseTimeout => if s.closeSent then CloseTransport(s) else s
    case Shut => CloseTransport(s)
  }

  function Run(s: Session, events: seq<Event>, c: Config): Session
    decreases |events|
  {
    if events == [] then s else Run(Handle(s, events[0], c), events[1..], c)
  }

  // ---------------------------------------------------------------- read boundaries

  /** A header that is refused stays at the front of the buffer. */
  predicate Refused(s: Session, c: Config) {
    !s.closed && var parsed := ParseFrame(s.unread, c.maxMessageBytes); parsed.BadHeader? || parsed.TooBig?
  }

  function Refusal(s: Session, c: Config): ErrorKind {
    if ParseFrame(s.unread, c.maxMessageBytes).TooBig? then MessageSize else ProtocolError
  }

  /** `s` after its refused header was reported `n` times more. */
  function Reported(s: Session, n: nat, c: Config): Session {
    s.(errors := s.errors + seq(n, _ => Refusal(s, c)))
  }

  lemma ReportedTwice(s: Session, m: nat, n: nat, c: Config)
    ensures Reported(Reported(s, m, c), n, c) == Reported(s, m + n, c)
    ensures Reported(s, 0, c) == s
    ensures Refused(Reported(s, n, c), c) == Refused(s, c)
    ensures Reported(s, n, c) == s ==> n == 0
  {
    var e := Refusal(s, c);
    assert s.errors + seq(m, _ => e) + seq(n, _ => e) == s.errors + seq(m + n, _ => e);
    assert s.errors + seq(0, _ => e) == s.errors;
    assert |Reported(s, n, c).errors| == |s.errors| + n;
  }

  lemma CloseWithErrorTwice(s: Session, code: nat, e: ErrorKind)
    requires !s.closed
    ensures var r := CloseWithError(s, code, e);
            r.closeSent && CloseWithError(r, code, e) == Notify(r, e)
  {
    hide MakeFrame;
  }

  lemma CloseWithErrorAppends(s: Session, more: bytes, code: nat, e: ErrorKind)
    requires !s.closed
    ensures var r := CloseWithError(s, code, e);
            !r.closed && r.unread == s.unread && CloseWithError(Append(s, more), code, e) == Append(r, more)
  {
    hide CloseWithError;
    ErrorBlind(s, s.unread + more, code, e);
  }

  lemma HandleAppends(s: Session, f: Frame, more: bytes, c: Config)
    requires !s.closed
    ensures HandleFrame(Append(s, more), f, c) == Append(HandleFrame(s, f, c), more)
  {
    hide HandleFrame;
    HandleBlind(s, s.unread + more, f, c);
  }

  /** Draining what has arrived and draining again after more has arrived is draining it all at once, but a
      header refused the first time is reported once more. */
  lemma {:induction false} DrainSplit(s: Session, more: bytes, c: Config)
    ensures var first, whole := Drain(s, c), Drain(Append(s, more), c);
            && Drain(Append(first, more), c) == Reported(whole, if Refused(first, c) then 1 else 0, c)
            && (Refused(first, c) ==> Refused(whole, c))
    decreases |s.unread|
  {
    hide ParseFrame, HandleFrame, CloseWithError;
    ReportedTwice(Drain(Append(s, more), c), 0, 0, c);
    if !s.closed {
      var parsed := ParseFrame(s.unread, c.maxMessageBytes);
      if !parsed.NeedMore? {
        ParseFrameStable(s.unread, more, c.maxMessageBytes);
      }
      match parsed
      case NeedMore =>
      case BadHeader => StuckSplit(s, more, c, PROTOCOL_ERROR, ProtocolError);
      case TooBig => StuckSplit(s, more, c, MESSAGE_TOO_LARGE, MessageSize);
      case Complete(f, size) =>
        var rest := s.(unread := s.unread[size..]);
        assert (s.unread + more)[size..] == s.unread[size..] + more;
        HandleKeepsUnread(rest, f, c);
        HandleAppends(rest, f, more, c);
        DrainSplit(HandleFrame(rest, f, c), more, c);
        DrainUnfold(Append(s, more), c, f, size);
        DrainUnfold(s, c, f, size);
    }
  }

  lemma DrainUnfold(s: Session, c: Config, f: Frame, size: nat)
    requires !s.closed && ParseFrame(s.unread, c.maxMessageBytes) == Complete(f, size)
    ensures size <= |s.unread|
    ensures Drain(s, c) == Drain(HandleFrame(s.(unread := s.unread[size..]), f, c), c)
  {
    hide HandleFrame;
  }

  lemma StuckSplit(s: Session, more: bytes, c: Config, code: nat, e: ErrorKind)
    requires !s.closed
    requires ParseFrame(s.unread, c.maxMessageBytes) == ParseFrame(s.unread + more, c.maxMessageBytes)
    requires ParseFrame(s.unread, c.maxMessageBytes)
             == if code == PROTOCOL_ERROR && e == ProtocolError then BadHeader else TooBig
    requires (code == PROTOCOL_ERROR && e == ProtocolError) || (code == MESSAGE_TOO_LARGE && e == MessageSize)
    ensures Drain(Append(Drain(s, c), more), c) == Reported(Drain(Append(s, more), c), 1, c)
    ensures Refused(Drain(s, c), c) && Refused(Drain(Append(s, more), c), c)
  {
    hide ParseFrame, HandleFrame, CloseWithError;
    CloseWithErrorTwice(s, code, e);
    CloseWithErrorAppends(s, more, code, e);
    CloseWithErrorAppends(s, [], code, e);
    CloseWithErrorTwice(Append(s, more), code, e);
    CloseWithErrorAppends(Append(s, more), [], code, e);
    var whole := Drain(Append(s, more), c);
    assert [e] == seq(1, _ => e);
    assert Reported(whole, 1, c) == Notify(whole, e);
  }

  function FlattenBytes(cuts: seq<bytes>): bytes {
    if cuts == [] then [] else cuts[0] + FlattenBytes(cuts[1..])
  }

  function Reads(s: Session, cuts: seq<bytes>, c: Config): Session
    decreases |cuts|
  {
    if cuts == [] then s else Reads(OnRead(s, cuts[0], c), cuts[1..], c)
  }

  lemma AppendTwice(s: Session, a: bytes, b: bytes)
    ensures Append(Append(s, a), b) == Append(s, a + b)
  {
    assert s.unread + a + b == s.unread + (a + b);
  }

  lemma DrainClosed(s: Session, c: Config)
    requires s.closed
    ensures Drain(s, c) == s
  {
  }

  /** How many reads found a header that an earlier one had refused. */
  function Repeats(s: Session, cuts: seq<bytes>, c: Config): nat
    decreases |cuts|
  {
    if |cuts| <= 1 then 0
    else
      var next := OnRead(s, cuts[0], c);
      (if Refused(next, c) then 1 else 0) + Repeats(next, cuts[1..], c)
  }

  lemma ReadSplit(s: Session, first: bytes, more: bytes, c: Config)
    ensures var next, whole := OnRead(s, first, c), OnRead(s, first + more, c);
            && OnRead(next, more, c) == Reported(whole, if Refused(next, c) then 1 else 0, c)
            && (Refused(next, c) ==> Refused(whole, c))
  {
    hide Drain;
    ReportedTwice(OnRead(s, first + more, c), 0, 0, c);
    if !s.closed {
      DrainSplit(Append(s, first), more, c);
      AppendTwice(s, first, more);
      if OnRead(s, first, c).closed {
        DrainClosed(OnRead(s, first, c), c);
      }
    }
  }

  /** Independence of read boundaries, for every byte stream, well formed or not, and every state: any cut of
      the bytes into reads leaves the session, errors included, where one read of them all would, plus one more
      report for every read behind the one that met a refused header. */
  lemma {:induction false} ReadBoundaries(s: Session, cuts: seq<bytes>, c: Config)
    requires cuts != []
    ensures var whole, n := OnRead(s, FlattenBytes(cuts), c), Repeats(s, cuts, c);
            && Reads(s, cuts, c) == Reported(whole, n, c)
            && (Reads(s, cuts, c) == whole <==> n == 0)
            && (n > 0 ==> Refused(whole, c))
    decreases |cuts|
  {
    hide OnRead, Refused, Reported;
    var first, rest := cuts[0], cuts[1..];
    var whole := OnRead(s, FlattenBytes(cuts), c);
    ReportedTwice(whole, 0, Repeats(s, cuts, c), c);
    if rest == [] {
      assert FlattenBytes(cuts) == first + [];
      assert first + [] == first;
      assert Reads(OnRead(s, first, c), [], c) == OnRead(s, first, c);
    } else {
      var next := OnRead(s, first, c);
      ReadBoundaries(next, rest, c);
      ReadSplit(s, first, FlattenBytes(rest), c);
      ReportedTwice(whole, if Refused(next, c) then 1 else 0, Repeats(next, rest, c), c);
      RefusedReported(whole, if Refused(next, c) then 1 else 0, c);
    }
  }

  lemma RefusedReported(s: Session, n: nat, c: Config)
    ensures Refused(Reported(s, n, c), c) == Refused(s, c)
  {
  }

  predicate NoneEmpty(cuts: seq<bytes>) {
    forall i :: 0 <= i < |cuts| ==> cuts[i] != []
  }

  /** A repeated report shows a point inside the bytes behind which the header is refused. */
  lemma {:induction false} RepeatsShow(s: Session, cuts: seq<bytes>, c: Config) returns (k: nat)
    requires NoneEmpty(cuts) && Repeats(s, cuts, c) > 0
    ensures 0 < k < |FlattenBytes(cuts)| && Refused(OnRead(s, FlattenBytes(cuts)[..k], c), c)
    decreases |cuts|
  {
    hide OnRead, Refused;
    var first, rest := cuts[0], cuts[1..];
    var bytes_ := FlattenBytes(cuts);
    assert bytes_ == first + FlattenBytes(rest);
    var next := OnRead(s, first, c);
    if Refused(next, c) {
      k := |first|;
      assert bytes_[..k] == first;
      assert FlattenBytes(rest) == rest[0] + FlattenBytes(rest[1..]);
    } else {
      var j := RepeatsShow(next, rest, c);
      k := |first| + j;
      assert bytes_[..k] == first + FlattenBytes(rest)[..j];
      ReadSplit(s, first, FlattenBytes(rest)[..j], c);
      ReportedTwice(OnRead(s, bytes_[..k], c), 0, 0, c);
    }
  }

  /** Every cut of the bytes into reads leaves the same session, errors included, if and only if no proper
      prefix of them leaves an open session with a refused header at the front. */
  lemma BoundariesExactly(s: Session, all: bytes, c: Config)
    ensures (forall cuts :: cuts != [] && NoneEmpty(cuts) && FlattenBytes(cuts) == all ==>
               Reads(s, cuts, c) == OnRead(s, all, c))
            <==> forall k :: 0 < k < |all| ==> !Refused(OnRead(s, all[..k], c), c)
  {
    hide OnRead, Refused, Reads, Repeats, Reported;
    forall k | 0 < k < |all| && Refused(OnRead(s, all[..k], c), c)
      ensures exists cuts ::
                && cuts != [] && NoneEmpty(cuts) && FlattenBytes(cuts) == all
                && Reads(s, cuts, c) != OnRead(s, all, c)
    {
      var cuts := [all[..k], all[k..]];
      CutInTwo(s, all, k, c);
      assert Reads(s, cuts, c) != OnRead(s, all, c);
    }
    if forall k :: 0 < k < |all| ==> !Refused(OnRead(s, all[..k], c), c) {
      forall cuts | cuts != [] && NoneEmpty(cuts) && FlattenBytes(cuts) == all
        ensures Reads(s, cuts, c) == OnRead(s, all, c)
      {
        ReadBoundaries(s, cuts, c);
        if Repeats(s, cuts, c) > 0 {
          var k := RepeatsShow(s, cuts, c);
        }
      }
    }
  }

  /** Two reads, the first of which meets the refused header: it is reported twice. */
  lemma CutInTwo(s: Session, all: bytes, k: nat, c: Config)
    requires 0 < k < |all| && Refused(OnRead(s, all[..k], c), c)
    ensures var cuts := [all[..k], all[k..]];
            && FlattenBytes(cuts) == all && NoneEmpty(cuts)
            && Reads(s, cuts, c) == Reported(OnRead(s, all, c), 1, c) != OnRead(s, all, c)
  {
    hide OnRead, Refused, Reported;
    var cuts := [all[..k], all[k..]];
    assert cuts[1..] == [all[k..]];
    assert FlattenBytes(cuts[1..]) == all[k..] + [] == all[k..];
    assert all[..k] + all[k..] == all;
    assert Repeats(s, cuts, c) == 1;
    ReadBoundaries(s, cuts, c);
  }

  // ---------------------------------------------------------------- well-formed frames reach handle_frame

  datatype Masked = Masked(frame: Frame, key: bytes)

  predicate Encodable(m: Masked, c: Config) {
    && m.frame.opcode < 16 && |m.key| == 4
    && |m.frame.payload| <= c.maxMessageBytes && |m.frame.payload| < 0x1_0000_0000_0000_0000
  }

  function EncodeAll(frames: seq<Masked>, c: Config): bytes
    requires forall i :: 0 <= i < |frames| ==> Encodable(frames[i], c)
  {
    if frames == [] then []
    else
      assert Encodable(frames[0], c);
      MakeMasked(frames[0].frame, frames[0].key) + EncodeAll(frames[1..], c)
  }

  /** `handle_frame` on each frame in turn, until the session closes. */
  function HandleAll(s: Session, frames: seq<Masked>, c: Config): Session
    decreases |frames|
  {
    if s.closed || frames == [] then s else HandleAll(HandleFrame(s, frames[0].frame, c), frames[1..], c)
  }

  lemma {:induction false} DrainFrames(s: Session, frames: seq<Masked>, c: Config)
    requires forall i :: 0 <= i < |frames| ==> Encodable(frames[i], c)
    requires s.unread == []
    ensures OnRead(s, EncodeAll(frames, c), c) == HandleAll(s, frames, c) && HandleAll(s, frames, c).unread == []
    decreases |frames|
  {
    hide ParseFrame, HandleFrame, MakeMasked;
    if s.closed {
    } else if frames == [] {
      assert s.unread + [] == [];
      NothingToParse(c);
    } else {
      var m := frames[0];
      var rest := EncodeAll(frames[1..], c);
      var front := MakeMasked(m.frame, m.key);
      ClientFrameRoundTrip(m.frame, m.key, rest, c.maxMessageBytes);
      var start := Append(s, front + rest);
      assert start.unread == front + rest;
      DrainUnfold(start, c, m.frame, |front|);
      assert (front + rest)[|front|..] == rest;
      HandleAppends(s, m.frame, rest, c);
      assert Append(s, rest).unread == rest;
      HandleKeepsUnread(s, m.frame, c);
      DrainFrames(HandleFrame(s, m.frame, c), frames[1..], c);
      if HandleFrame(s, m.frame, c).closed {
        DrainClosed(HandleFrame(s, m.frame, c), c);
      }
    }
  }

  lemma NothingToParse(c: Config)
    ensures ParseFrame([], c.maxMessageBytes).NeedMore?
  {
  }

  /** Any split of any concatenation of well-formed masked frames hands exactly those frames, unmasked
      and in order, to `handle_frame`, until the session closes. */
  lemma FramesArrive(s: Session, frames: seq<Masked>, cuts: seq<bytes>, c: Config)
    requires forall i :: 0 <= i < |frames| ==> Encodable(frames[i], c)
    requires s.unread == [] && cuts != [] && FlattenBytes(cuts) == EncodeAll(frames, c)
    ensures Reads(s, cuts, c) == HandleAll(s, frames, c)
  {
    hide OnRead, Reads, Repeats, HandleAll, EncodeAll, ParseFrame;
    ReadBoundaries(s, cuts, c);
    DrainFrames(s, frames, c);
    NothingToParse(c);
  }
}
