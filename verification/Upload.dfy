/** The request body of a streaming client request: queueing with backpressure, framing, and the switch to
    reading the response. */
module Upload {
  import opened Text
  import Chunked
  import ChunkCoding

  datatype Mode = NoBody | ContentLength(size: nat) | ChunkedBody

  datatype Rejection = NotConnected | WouldBlock | InvalidArgument

  datatype WriteResult = Ready | Backpressure | Rejected(why: Rejection)

  /** `payloads` are the accepted writes, `log` everything ever queued for the wire, `wire` everything handed
      to the stream after the headers; `drains` counts drain callbacks. */
  datatype Upload = Upload(
    mode: Mode,
    started: bool,
    headersStarted: bool,
    headersWritten: bool,
    payloads: seq<string>,
    accepted: nat,
    writes: seq<string>,
    log: seq<string>,
    wire: seq<string>,
    writing: bool,
    pending: nat,
    ended: bool,
    backpressured: bool,
    reading: bool,
    drains: nat,
    completed: bool)

  const FRESH := Upload(NoBody, false, false, false, [], 0, [], [], [], false, 0, false, false, false, 0, false)

  function Fail(u: Upload): Upload { u.(completed := true) }

  function BeginRead(u: Upload): Upload {
    if u.completed || u.reading then u else u.(reading := true)
  }

  function Flush(u: Upload): Upload {
    if u.completed || !u.headersWritten || u.writing || u.writes == [] then u
    else u.(writing := true, wire := u.wire + [u.writes[0]])
  }

  function Enqueue(u: Upload, wire: string): Upload {
    u.(pending := u.pending + |wire|, writes := u.writes + [wire], log := u.log + [wire])
  }

  function Count(u: Upload, payload: string): Upload {
    u.(accepted := u.accepted + |payload|, payloads := u.payloads + [payload])
  }

  /** A payload that passed the checks: counted, framed and queued. */
  function Accept(u: Upload, payload: string, max: nat): (Upload, WriteResult)
    requires !u.mode.NoBody?
  {
    var wire := if u.mode.ChunkedBody? then Chunked.SerializeChunk(payload) else payload;
    var queued := Flush(Enqueue(Count(u, payload), wire));
    if max > 0 && queued.pending >= max then (queued.(backpressured := true), Backpressure) else (queued, Ready)
  }

  function Write(u: Upload, payload: string, max: nat): (Upload, WriteResult) {
    if payload == "" then (u, Ready)
    else if u.completed || u.ended then (u, Rejected(NotConnected))
    else if u.backpressured then (u, Rejected(WouldBlock))
    else if u.mode.NoBody? then
      if u.headersWritten || u.headersStarted then (u, Rejected(InvalidArgument))
      else Accept(u.(mode := ChunkedBody), payload, max)
    else if u.mode.ContentLength? && u.mode.size < u.accepted + |payload| then (u, Rejected(InvalidArgument))
    else Accept(u, payload, max)
  }

  function End(u: Upload): Upload {
    if u.completed || u.ended then u
    else if u.mode.NoBody? then
      var ended := u.(ended := true);
      if u.headersWritten then BeginRead(ended) else ended
    else if u.mode.ContentLength? && u.accepted != u.mode.size then Fail(u)
    else
      var last := if u.mode.ChunkedBody? then Enqueue(u, Chunked.LAST_CHUNK) else u;
      var flushed := Flush(last.(ended := true));
      if flushed.headersWritten && flushed.writes == [] && !flushed.writing then BeginRead(flushed) else flushed
  }

  /** The connection is there and the request head is handed to it. */
  function StartHeaders(u: Upload): Upload {
    u.(headersStarted := true, ended := u.ended || u.mode == ContentLength(0))
  }

  function HeadersDone(u: Upload, ok: bool): Upload {
    if u.completed then u
    else if !ok then Fail(u)
    else
      var written := u.(headersWritten := true);
      if (u.mode.NoBody? || u.ended) && u.writes == [] && !u.writing then BeginRead(written) else Flush(written)
  }

  function NotifyDrain(u: Upload, max: nat): Upload {
    if !u.backpressured || max / 2 < u.pending then u else u.(backpressured := false, drains := u.drains + 1)
  }

  /** The front write is done; the subtraction is clamped at zero as in the code. */
  function Pop(u: Upload): Upload {
    if u.writes == [] then u
    else
      var size := |u.writes[0]|;
      u.(pending := if size <= u.pending then u.pending - size else 0, writes := u.writes[1..])
  }

  /** A completed body write. */
  function Written(u: Upload, ok: bool, max: nat): Upload {
    if u.completed then u
    else if !ok then Fail(u.(writing := false))
    else
      var drained := NotifyDrain(Pop(u.(writing := false)), max);
      if drained.writes != [] then Flush(drained) else if drained.ended then BeginRead(drained) else drained
  }

  datatype Event =
    | SetContentLength(size: nat)
    | SetChunked
    | Start
    | Connected
    | HeadersWritten(ok: bool)
    | WriteBody(payload: string)
    | EndBody
    | BodyWritten(ok: bool)
    | Finish

  /** The framing is chosen before the request starts; the writer exists from then on; the head is written
      once; the stream completes a body write only while one is in flight. */
  function Handle(u: Upload, e: Event, max: nat): Upload {
    match e
    case SetContentLength(size) => if u.started then u else u.(mode := ContentLength(size))
    case SetChunked => if u.started then u else u.(mode := ChunkedBody)
    case Start => u.(started := true)
    case Connected => if u.started && !u.headersStarted && !u.completed then StartHeaders(u) else u
    case HeadersWritten(ok) => if u.headersStarted && !u.headersWritten then HeadersDone(u, ok) else u
    case WriteBody(payload) => if u.started then Write(u, payload, max).0 else u
    case EndBody => if u.started then End(u) else u
    case BodyWritten(ok) => if u.writing then Written(u, ok, max) else u
    case Finish => Fail(u)
  }

  function Run(u: Upload, events: seq<Event>, max: nat): Upload
    decreases |events|
  {
    if events == [] then u else Run(Handle(u, events[0], max), events[1..], max)
  }

  // ---------------------------------------------------------------- what every run keeps

  /** The framing of the accepted payloads: one chunk each, the last chunk once ended; or the bytes as they
      are. */
  function Framed(mode: Mode, payloads: seq<string>, ended: bool): seq<string> {
    match mode
    case NoBody => []
    case ContentLength(_) => payloads
    case ChunkedBody =>
      seq(|payloads|, i requires 0 <= i < |payloads| => Chunked.SerializeChunk(payloads[i]))
      + if ended then [Chunked.LAST_CHUNK] else []
  }

  predicate FramingInv(u: Upload) {
    && u.log == Framed(u.mode, u.payloads, u.ended)
    && (forall i :: 0 <= i < |u.payloads| ==> u.payloads[i] != "")
    && u.accepted == |Concat(u.payloads)|
    && (u.mode.NoBody? ==> u.payloads == [] && u.log == [])
    && (u.mode.ContentLength? ==> u.accepted <= u.mode.size && (u.ended ==> u.accepted == u.mode.size))
    && (!u.started ==> u.payloads == [] && !u.ended && !u.headersStarted)
    && (u.headersWritten ==> u.headersStarted)
    && (u.headersStarted && u.mode == ContentLength(0) ==> u.ended)
  }

  predicate TailOf(writes: seq<string>, log: seq<string>) {
    |writes| <= |log| && writes == log[|log| - |writes|..]
  }

  predicate NoneEmpty(log: seq<string>) {
    forall i :: 0 <= i < |log| ==> log[i] != ""
  }

  /** The front of the queue is in flight as soon as the request head is out. */
  predicate Handed(u: Upload)
    requires |u.writes| <= |u.log|
  {
    && (!u.completed ==>
          && (u.writing <==> u.headersWritten && u.writes != [])
          && u.wire == u.log[..|u.log| - |u.writes| + if u.writing then 1 else 0])
    && (!u.headersWritten ==> u.wire == [])
  }

  /** The queue is the tail of the log and the pending count its size. */
  predicate QueueInv(u: Upload) {
    TailOf(u.writes, u.log) && u.pending == |Concat(u.writes)| && NoneEmpty(u.log) && Handed(u)
  }

  predicate ReadingInv(u: Upload) {
    u.reading ==> u.headersWritten && u.writes == [] && !u.writing && (u.ended || u.mode.NoBody?) && u.wire == u.log
  }

  predicate PressureInv(u: Upload, max: nat) {
    u.backpressured ==> max > 0 && u.pending > max / 2
  }

  /** Nothing is left to wait for once everything is out: the response is read. */
  predicate ProgressInv(u: Upload) {
    !u.completed && u.headersWritten && u.writes == [] && (u.ended || u.mode.NoBody?) ==> u.reading
  }

  predicate Inv(u: Upload, max: nat) {
    FramingInv(u) && QueueInv(u) && ReadingInv(u) && PressureInv(u, max) && ProgressInv(u)
  }

  lemma {:induction false} TailSnoc(log: seq<string>, writes: seq<string>, w: string)
    requires TailOf(writes, log)
    ensures TailOf(writes + [w], log + [w])
    ensures NoneEmpty(log) && w != "" ==> NoneEmpty(log + [w])
    ensures var k := |log| - |writes|;
            (log + [w])[..k] == log[..k] &&
            (log + [w])[..k + 1] == if writes == [] then log[..k] + [w] else log[..k + 1]
  {
  }

  /** Handing over what can be handed over. */
  lemma {:induction false} FlushHands(u: Upload)
    requires TailOf(u.writes, u.log)
    requires !u.headersWritten ==> u.wire == []
    requires !u.completed ==>
               && (u.writing ==> u.headersWritten && u.writes != [])
               && u.wire == u.log[..|u.log| - |u.writes| + if u.writing then 1 else 0]
    ensures Handed(Flush(u))
    ensures Flush(u) == u.(writing := Flush(u).writing, wire := Flush(u).wire)
  {
    hide NoneEmpty;
    if !u.completed && u.headersWritten && !u.writing && u.writes != [] {
      var k := |u.log| - |u.writes|;
      assert u.log[k] == u.writes[0];
      assert u.log[..k] + [u.log[k]] == u.log[..k + 1];
    }
  }

  lemma {:induction false} QueueGrows(u: Upload, wire: string)
    requires QueueInv(u) && wire != ""
    ensures var r := Flush(Enqueue(u, wire));
            && QueueInv(r) && r.pending == u.pending + |wire|
            && r == u.(pending := r.pending, writes := u.writes + [wire], log := u.log + [wire],
                       writing := r.writing, wire := r.wire)
  {
    hide Concat, TailOf, NoneEmpty, Flush;
    ConcatSnoc(u.writes, wire);
    TailSize(u.writes, u.log);
    TailSnoc(u.log, u.writes, wire);
    FlushHands(Enqueue(u, wire));
  }

  lemma {:induction false} TailSize(writes: seq<string>, log: seq<string>)
    requires TailOf(writes, log)
    ensures |writes| <= |log|
  {
  }

  lemma {:induction false} FramedSnoc(mode: Mode, payloads: seq<string>, payload: string)
    requires !mode.NoBody?
    ensures Framed(mode, payloads + [payload], false)
            == Framed(mode, payloads, false) + [if mode.ChunkedBody? then Chunked.SerializeChunk(payload) else payload]
  {
    hide Chunked.SerializeChunk;
  }

  lemma {:induction false} NotEmpty(payload: string)
    ensures Chunked.SerializeChunk(payload) != "" && |Chunked.SerializeChunk(payload)| > 0
  {
  }

  lemma {:induction false} AcceptInv(u: Upload, payload: string, max: nat)
    requires Inv(u, max) && !u.completed && !u.ended && !u.mode.NoBody? && payload != "" && u.started
    requires u.mode.ContentLength? ==> u.accepted + |payload| <= u.mode.size
    ensures Inv(Accept(u, payload, max).0, max)
  {
    hide Concat, Chunked.SerializeChunk, Framed, Flush, Enqueue, QueueInv;
    var wire := if u.mode.ChunkedBody? then Chunked.SerializeChunk(payload) else payload;
    NotEmpty(payload);
    var counted := u.(accepted := u.accepted + |payload|, payloads := u.payloads + [payload]);
    QueueIgnores(u, counted);
    QueueGrows(counted, wire);
    var queued := Flush(Enqueue(counted, wire));
    QueueIgnores(queued, queued.(backpressured := true));
    FramedSnoc(u.mode, u.payloads, payload);
    ConcatSnoc(u.payloads, payload);
  }

  lemma {:induction false} QueueIgnores(u: Upload, r: Upload)
    requires QueueInv(u) && u.writes == r.writes && u.log == r.log && u.pending == r.pending && u.wire == r.wire
    requires u.writing == r.writing && u.headersWritten == r.headersWritten && u.completed == r.completed
    ensures QueueInv(r)
  {
  }

  lemma {:induction false} WriteInv(u: Upload, payload: string, max: nat)
    requires Inv(u, max) && u.started
    ensures Inv(Write(u, payload, max).0, max)
  {
    hide Concat, Accept, Chunked.SerializeChunk;
    if payload != "" && !u.completed && !u.ended && !u.backpressured {
      if u.mode.NoBody? && !u.headersWritten && !u.headersStarted {
        var chunked := u.(mode := ChunkedBody);
        assert Framed(chunked.mode, [], false) == [];
        assert Inv(chunked, max);
        AcceptInv(chunked, payload, max);
      } else if !u.mode.NoBody? && (u.mode.ContentLength? ==> u.accepted + |payload| <= u.mode.size) {
        AcceptInv(u, payload, max);
      }
    }
  }

  lemma {:induction false} FramedEnd(payloads: seq<string>)
    ensures Framed(ChunkedBody, payloads, true) == Framed(ChunkedBody, payloads, false) + [Chunked.LAST_CHUNK]
  {
    hide Chunked.SerializeChunk;
  }

  lemma {:induction false} EndInv(u: Upload, max: nat)
    requires Inv(u, max) && u.started
    ensures Inv(End(u), max)
  {
    hide Concat, Flush, QueueInv, Enqueue;
    if !u.completed && !u.ended {
      if u.mode.ChunkedBody? {
        FramedEnd(u.payloads);
        hide Framed;
        QueueIgnores(u, u.(ended := true));
        QueueGrows(u.(ended := true), Chunked.LAST_CHUNK);
        FlushLater(u);
        NotIdle(Flush(Enqueue(u.(ended := true), Chunked.LAST_CHUNK)));
      } else if u.mode.ContentLength? && u.accepted == u.mode.size {
        EndPlain(u, max);
      } else {
        QueueIgnores(u, u.(ended := true));
        QueueIgnores(u, u.(ended := true, reading := true));
        FailInv(u, max);
        WhenEmpty(u);
        NothingQueued(u);
      }
    }
  }

  /** A content-length body is all there: nothing is added to the queue. */
  lemma {:induction false} EndPlain(u: Upload, max: nat)
    requires Inv(u, max) && u.started && !u.completed && !u.ended && u.mode.ContentLength? && u.accepted == u.mode.size
    ensures Inv(End(u), max)
  {
    hide Concat, QueueInv;
    QueueIgnores(u, u.(ended := true));
    QueueIgnores(u, u.(ended := true, reading := true));
    WhenEmpty(u);
    FlushedAlready(u.(ended := true));
  }

  /** An open upload's queue is always being flushed as far as it can be. */
  lemma {:induction false} FlushedAlready(u: Upload)
    requires QueueInv(u)
    ensures Flush(u) == u
  {
  }

  lemma {:induction false} WhenEmpty(u: Upload)
    requires QueueInv(u)
    ensures u.writes == [] && !u.completed && u.headersWritten ==> u.wire == u.log && !u.writing
  {
    if u.writes == [] {
      assert u.log[..|u.log|] == u.log;
    }
  }

  lemma {:induction false} NothingQueued(u: Upload)
    requires QueueInv(u)
    ensures u.log == [] ==> u.writes == []
  {
  }

  lemma {:induction false} NotIdle(u: Upload)
    requires QueueInv(u)
    ensures !u.completed ==> (u.writing <==> u.headersWritten && u.writes != [])
  {
  }

  lemma {:induction false} FailQueue(u: Upload)
    requires QueueInv(u)
    ensures QueueInv(Fail(u)) && QueueInv(Fail(u.(writing := false)))
  {
    hide Concat;
  }

  lemma {:induction false} FailInv(u: Upload, max: nat)
    requires Inv(u, max)
    ensures Inv(Fail(u), max) && Inv(Fail(u.(writing := false)), max)
  {
    hide Concat, Framed, QueueInv;
    FailQueue(u);
  }

  lemma {:induction false} FlushLater(u: Upload)
    ensures Enqueue(u, Chunked.LAST_CHUNK).(ended := true) == Enqueue(u.(ended := true), Chunked.LAST_CHUNK)
  {
  }

  lemma {:induction false} HeadersInv(u: Upload, ok: bool, max: nat)
    requires Inv(u, max) && u.headersStarted && !u.headersWritten
    ensures Inv(HeadersDone(u, ok), max)
  {
    hide Concat, Framed;
    if u.completed || !ok {
      FailInv(u, max);
    } else if u.writes != [] {
      var k := |u.log| - |u.writes|;
      assert u.log[..k] == u.wire;
      assert u.log[..k] + [u.log[k]] == u.log[..k + 1];
    }
  }

  /** The queue after its front is done. */
  lemma {:induction false} PopQueue(u: Upload)
    requires QueueInv(u) && u.writing && !u.completed
    ensures u.writes != [] && 0 < |u.writes[0]| <= u.pending
    ensures var popped := u.(writing := false, pending := u.pending - |u.writes[0]|, writes := u.writes[1..]);
            && QueueInv(Flush(popped)) && (popped.writes == [] ==> popped.wire == popped.log && Flush(popped) == popped)
            && Flush(popped) == popped.(writing := Flush(popped).writing, wire := Flush(popped).wire)
  {
    TailPop(u.log, u.writes);
    assert |Concat(u.writes)| == |u.writes[0]| + |Concat(u.writes[1..])|;
    var popped := u.(writing := false, pending := u.pending - |u.writes[0]|, writes := u.writes[1..]);
    hide Concat;
    FlushHands(popped);
    if popped.writes == [] {
      assert u.log[..|u.log|] == u.log;
    }
  }

  lemma {:induction false} TailPop(log: seq<string>, writes: seq<string>)
    requires TailOf(writes, log) && NoneEmpty(log) && writes != []
    ensures TailOf(writes[1..], log) && writes[0] != ""
  {
    assert log[|log| - |writes|] == writes[0];
  }

  /** A completed write: what is subtracted is there, so the clamp never acts. */
  lemma {:induction false} WrittenInv(u: Upload, ok: bool, max: nat)
    requires Inv(u, max) && u.writing
    ensures Inv(Written(u, ok, max), max)
    ensures !u.completed ==> u.writes != [] && 0 < |u.writes[0]| <= u.pending
  {
    hide Framed, Concat, QueueInv, Flush;
    if u.completed {
    } else {
      PopQueue(u);
      if !ok {
        FailInv(u, max);
      } else {
        var popped := u.(writing := false, pending := u.pending - |u.writes[0]|, writes := u.writes[1..]);
        var drained := NotifyDrain(popped, max);
        FlushIgnores(popped, drained);
        QueueIgnores(Flush(popped), Flush(drained));
        NotIdle(Flush(popped));
        NotIdle(u);
        NothingQueued(u);
        if popped.writes == [] {
          QueueIgnores(Flush(popped), BeginRead(drained));
          QueueIgnores(Flush(popped), drained);
        }
      }
    }
  }

  lemma {:induction false} FlushIgnores(a: Upload, b: Upload)
    requires b == a.(backpressured := b.backpressured, drains := b.drains)
    ensures Flush(b) == Flush(a).(backpressured := b.backpressured, drains := b.drains)
  {
  }

  lemma {:induction false} ConcatNonEmpty(payloads: seq<string>)
    requires forall i :: 0 <= i < |payloads| ==> payloads[i] != ""
    ensures |Concat(payloads)| == 0 ==> payloads == []
  {
  }

  /** Choosing the framing, which only happens before anything was written. */
  lemma {:induction false} ModeInv(u: Upload, mode: Mode, max: nat)
    requires Inv(u, max) && !u.started && mode != NoBody
    ensures Inv(u.(mode := mode), max)
  {
    hide QueueInv;
    assert Concat([]) == "";
    assert Framed(u.mode, [], false) == [] == Framed(mode, [], false);
    QueueIgnores(u, u.(mode := mode));
  }

  lemma {:induction false} ConnectInv(u: Upload, max: nat)
    requires Inv(u, max) && u.started && !u.headersStarted && !u.completed
    ensures Inv(StartHeaders(u), max)
  {
    hide QueueInv, Concat;
    QueueIgnores(u, StartHeaders(u));
    ConcatNonEmpty(u.payloads);
  }

  lemma {:induction false} StartInv(u: Upload, max: nat)
    requires Inv(u, max)
    ensures Inv(u.(started := true), max)
  {
    hide QueueInv, Concat, Framed;
    QueueIgnores(u, u.(started := true));
  }

  lemma {:induction false} HandleInv(u: Upload, e: Event, max: nat)
    requires Inv(u, max)
    ensures Inv(Handle(u, e, max), max)
  {
    hide Inv, Write, End, HeadersDone, Written, StartHeaders, Fail;
    match e
    case SetContentLength(size) => if !u.started { ModeInv(u, ContentLength(size), max); }
    case SetChunked => if !u.started { ModeInv(u, ChunkedBody, max); }
    case Start => StartInv(u, max);
    case Connected => if u.started && !u.headersStarted && !u.completed { ConnectInv(u, max); }
    case HeadersWritten(ok) => if u.headersStarted && !u.headersWritten { HeadersInv(u, ok, max); }
    case WriteBody(payload) => if u.started { WriteInv(u, payload, max); }
    case EndBody => if u.started { EndInv(u, max); }
    case BodyWritten(ok) => if u.writing { WrittenInv(u, ok, max); }
    case Finish => FailInv(u, max);
  }

  lemma {:induction false} RunInv(u: Upload, events: seq<Event>, max: nat)
    requires Inv(u, max)
    ensures Inv(Run(u, events, max), max)
    decreases |events|
  {
    hide Inv, Handle;
    if events != [] {
      HandleInv(u, events[0], max);
      RunInv(Handle(u, events[0], max), events[1..], max);
    }
  }

  lemma {:induction false} FreshInv(max: nat)
    ensures Inv(FRESH, max)
  {
    assert Framed(NoBody, [], false) == [];
    assert Concat([]) == "";
  }

  // ---------------------------------------------------------------- main results

  /** The chunk list of a chunked body, on the wire. */
  lemma {:induction false} FramedEncodes(payloads: seq<string>)
    ensures Concat(Framed(ChunkedBody, payloads, true)) == Chunked.Encode(payloads)
  {
    hide Chunked.SerializeChunk;
    if payloads == [] {
      assert Framed(ChunkedBody, [], true) == [Chunked.LAST_CHUNK];
      ConcatSnoc([], Chunked.LAST_CHUNK);
      assert [] + [Chunked.LAST_CHUNK] == [Chunked.LAST_CHUNK];
    } else {
      FramedEncodes(payloads[1..]);
      assert Framed(ChunkedBody, payloads, true)[1..] == Framed(ChunkedBody, payloads[1..], true);
    }
  }

  /** In every run, the response is read only when nothing is queued or in flight and the body is ended or
      absent; what was handed to the stream by then is the whole framed body: exactly the content-length
      bytes written, or a chunked body that decodes to the payloads. */
  lemma {:induction false} ReadsAfterExactBody(events: seq<Event>, max: nat)
    ensures var u := Run(FRESH, events, max);
            u.reading ==>
              && u.writes == [] && !u.writing && u.pending == 0 && (u.ended || u.mode.NoBody?)
              && match u.mode
                 case NoBody => u.wire == []
                 case ContentLength(size) => Concat(u.wire) == Concat(u.payloads) && |Concat(u.wire)| == size
                 case ChunkedBody =>
                   && Concat(u.wire) == Chunked.Encode(u.payloads)
                   && ((forall p :: p in u.payloads ==> |p| < Chunked.WORD) ==>
                         Chunked.Decode(Concat(u.wire), 0) == Chunked.Decoded(Concat(u.payloads)))
  {
    hide Run, Concat, Chunked.Encode, Chunked.Decode;
    FreshInv(max);
    RunInv(FRESH, events, max);
    var u := Run(FRESH, events, max);
    NothingAccepted();
    if u.reading && u.mode.ChunkedBody? {
      FramedEncodes(u.payloads);
      if forall p :: p in u.payloads ==> |p| < Chunked.WORD {
        ChunkCoding.ChunkRoundTrip(u.payloads);
      }
    }
  }

  lemma {:induction false} NothingAccepted()
    ensures Concat([]) == ""
  {
  }

  /** In every run: the wire is a prefix of the framed payloads, in order; the pending count is what is
      queued; at most one write is in flight, always one when the head is out and something is queued. */
  lemma {:induction false} BodyInOrder(events: seq<Event>, max: nat)
    ensures var u := Run(FRESH, events, max);
            && u.log == Framed(u.mode, u.payloads, u.ended)
            && u.pending == |Concat(u.writes)|
            && (!u.completed ==> u.wire <= u.log && (u.writing <==> u.headersWritten && u.writes != []))
            && (!u.completed ==> |u.wire| == |u.log| - |u.writes| + if u.writing then 1 else 0)
  {
    hide Run, Concat, Framed;
    FreshInv(max);
    RunInv(FRESH, events, max);
  }

  /** No lost wakeup: a backpressured upload has more than half the limit pending, so once the head is out a
      write is in flight whose completion will be seen; and a body that is all out is being answered. */
  lemma {:induction false} NoLostWakeup(events: seq<Event>, max: nat)
    ensures var u := Run(FRESH, events, max);
            && (u.backpressured ==> u.pending > max / 2 && u.writes != [])
            && (u.backpressured && u.headersWritten && !u.completed ==> u.writing)
            && (!u.completed && u.headersWritten && u.writes == [] && (u.ended || u.mode.NoBody?) ==> u.reading)
  {
    hide Run, Framed;
    FreshInv(max);
    RunInv(FRESH, events, max);
    NothingAccepted();
  }
}
