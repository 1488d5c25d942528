/** The output side of a server session: one slot per pipelined request in request order, streaming slots,
    and a write queue with one write in flight (section 9.3.2 of RFC 9112). */
module ServerSession {
  import opened Text
  import Chunked

  datatype Outcome = Completed | Cancelled | Failed

  /** An entry of the write queue; `slot` is the request it answers. */
  datatype Write = Write(slot: nat, payload: string, closeAfter: bool, countsResponse: bool)

  /** A response. `text` is the serialized response of a slot that does not stream; `head` and `payloads`
      are what a streaming slot has put up; `emitted` is what has moved to the session's write queue;
      `hooks` are the outcomes its response hooks were run with; `dropped` marks a cancelled slot. */
  datatype Slot = Slot(
    closeAfter: bool,
    suppressBody: bool,
    completed: bool,
    claimed: bool,
    streaming: bool,
    headersQueued: bool,
    chunked: bool,
    backpressured: bool,
    ended: bool,
    streamWrites: seq<Write>,
    text: string,
    head: string,
    payloads: seq<string>,
    emitted: string,
    hooks: seq<Outcome>,
    dropped: bool)

  datatype Config = Config(maxPendingResponses: nat, maxPendingWriteBytes: nat)

  /** Slots from `front` on are still queued; `log` is everything ever put in `writes`, `wire` everything
      handed to the transport. */
  datatype Session = Session(
    slots: seq<Slot>,
    front: nat,
    writes: seq<Write>,
    log: seq<Write>,
    wire: seq<Write>,
    writing: bool,
    pendingBytes: nat,
    pendingResponses: nat,
    dispatching: bool,
    closed: bool)

  const FRESH := Session([], 0, [], [], [], false, 0, 0, false, false)

  function NewSlot(closeAfter: bool, suppressBody: bool): Slot {
    Slot(closeAfter, suppressBody, false, false, false, false, true, false, false, [], "", "", [], "", [], false)
  }

  function Bytes(writes: seq<Write>): string {
    if writes == [] then "" else writes[0].payload + Bytes(writes[1..])
  }

  // ---------------------------------------------------------------- the write queue

  function FlushNext(s: Session): Session {
    if s.closed || s.writing || s.writes == [] then s
    else s.(writing := true, wire := s.wire + [s.writes[0]])
  }

  function Push(s: Session, more: seq<Write>): Session {
    FlushNext(s.(writes := s.writes + more, log := s.log + more))
  }

  function Enqueue(s: Session, w: Write): Session {
    Push(s.(pendingBytes := s.pendingBytes + |w.payload|), [w])
  }

  // ---------------------------------------------------------------- slots

  /** Response hooks run at most once. */
  function RunHooks(slot: Slot, outcome: Outcome): Slot {
    if slot.hooks != [] then slot else slot.(hooks := [outcome])
  }

  function Drop(slot: Slot, outcome: Outcome): Slot {
    (if slot.completed then slot else RunHooks(slot, outcome)).(dropped := true)
  }

  /** `cancel_pending_responses`. */
  function CancelAll(s: Session, outcome: Outcome): (r: Session)
    requires s.front <= |s.slots|
    ensures r.front <= |r.slots|
  {
    s.(slots := Dropped(s.slots, s.front, |s.slots|, outcome), front := |s.slots|)
  }

  function Dropped(slots: seq<Slot>, from: nat, to: nat, outcome: Outcome): (r: seq<Slot>)
    requires from <= to <= |slots|
    ensures |r| == |slots|
    ensures forall i :: 0 <= i < |slots| ==> r[i] == if from <= i < to then Drop(slots[i], outcome) else slots[i]
  {
    seq(|slots|, i requires 0 <= i < |slots| => if from <= i < to then Drop(slots[i], outcome) else slots[i])
  }

  function CloseSession(s: Session): (r: Session)
    requires s.front <= |s.slots|
    ensures r.front <= |r.slots|
  {
    if s.closed then s else CancelAll(s.(closed := true), Cancelled)
  }

  /** `flush_stream_writes`: everything the front slot has queued moves to the session's queue. */
  function FlushStream(s: Session): Session
    requires s.front < |s.slots|
  {
    var slot := s.slots[s.front];
    Push(s.(slots := s.slots[s.front := slot.(streamWrites := [], emitted := slot.emitted + Bytes(slot.streamWrites))]),
         slot.streamWrites)
  }

  /** A completed slot that does not stream leaves the queue as one counted write. */
  function FlushWhole(s: Session): Session
    requires s.front < |s.slots|
  {
    var slot := s.slots[s.front];
    Enqueue(s.(slots := s.slots[s.front := slot.(emitted := slot.text)],
               front := s.front + 1, pendingResponses := s.pendingResponses + 1),
            Write(s.front, slot.text, slot.closeAfter, true))
  }

  /** The slot just sent asked for the connection to close. */
  function Passed(s: Session, closeAfter: bool): Session
    requires s.front <= |s.slots|
  {
    if closeAfter then CancelAll(s, Cancelled) else s
  }

  /** `flush_response_slots`. */
  function FlushSlots(s: Session): (r: Session)
    requires s.front <= |s.slots|
    ensures r.front <= |r.slots| && |r.slots| == |s.slots|
    decreases |s.slots| - s.front
  {
    if s.front == |s.slots| then s
    else
      var slot := s.slots[s.front];
      if slot.streaming then
        var sent := FlushStream(s);
        if !slot.completed then sent
        else FlushSlots(Passed(sent.(front := sent.front + 1), slot.closeAfter))
      else if !slot.completed then s
      else FlushSlots(Passed(FlushWhole(s), slot.closeAfter))
  }

  predicate Active(s: Session, i: nat) {
    s.front <= i < |s.slots| && !s.slots[i].completed && !s.slots[i].dropped
  }

  function Update(s: Session, i: nat, slot: Slot): Session
    requires i < |s.slots|
  {
    s.(slots := s.slots[i := slot])
  }

  function FlushUnlessDispatching(s: Session): (r: Session)
    requires s.front <= |s.slots|
    ensures r.front <= |r.slots|
  {
    if s.dispatching then s else FlushSlots(s)
  }

  function NewRequest(s: Session, closeAfter: bool, suppressBody: bool, c: Config): (r: Session)
    requires s.front <= |s.slots|
    ensures r.front <= |r.slots|
  {
    if s.closed then s
    else if c.maxPendingResponses <= |s.slots| - s.front + s.pendingResponses then CloseSession(s)
    else s.(slots := s.slots + [NewSlot(closeAfter, suppressBody)])
  }

  /** `complete_response`. */
  function Complete(s: Session, i: nat): (r: Session)
    requires s.front <= |s.slots| && i < |s.slots|
    ensures r.front <= |r.slots|
  {
    if s.slots[i].completed then s
    else FlushUnlessDispatching(Update(s, i, RunHooks(s.slots[i].(completed := true), Completed)))
  }

  function QueueStream(slot: Slot, i: nat, payload: string, closeAfter: bool): Slot {
    slot.(streamWrites := slot.streamWrites + [Write(i, payload, closeAfter, false)])
  }

  function QueueHead(slot: Slot, i: nat, head: string, hasLength: bool, closeAfter: bool): Slot {
    if slot.headersQueued then slot
    else QueueStream(slot.(chunked := !hasLength, head := head, headersQueued := true), i, head, closeAfter)
  }

  /** A payload as it goes on the wire; an empty one is not queued. */
  function QueuePayload(slot: Slot, i: nat, payload: string): Slot {
    if payload == "" then slot
    else
      QueueStream(slot.(payloads := slot.payloads + [payload]), i,
                  if slot.chunked then Chunked.SerializeChunk(payload) else payload, false)
  }

  function StreamBytes(slot: Slot): nat { |Bytes(slot.streamWrites)| }

  /** Puts the grown slot back, counting what it queued. */
  function Grow(s: Session, i: nat, slot: Slot): Session
    requires i < |s.slots| && StreamBytes(s.slots[i]) <= StreamBytes(slot)
  {
    Update(s, i, slot).(pendingBytes := s.pendingBytes + StreamBytes(slot) - StreamBytes(s.slots[i]))
  }

  lemma {:induction false} BytesSplit(a: seq<Write>, b: seq<Write>)
    ensures Bytes(a + b) == Bytes(a) + Bytes(b)
  {
    if a == [] {
      assert a + b == b;
    } else {
      assert (a + b)[1..] == a[1..] + b;
      BytesSplit(a[1..], b);
    }
  }

  lemma BytesSnoc(a: seq<Write>, w: Write)
    ensures Bytes(a + [w]) == Bytes(a) + w.payload
  {
    BytesSplit(a, [w]);
    assert [w][1..] == [];
    assert w.payload + "" == w.payload;
  }

  function StreamWrite(s: Session, i: nat, head: string, hasLength: bool, payload: string, c: Config): (r: Session)
    requires s.front <= |s.slots| && i < |s.slots|
    ensures r.front <= |r.slots|
  {
    var slot := s.slots[i];
    if s.closed || slot.completed || slot.ended || slot.backpressured then s
    else if slot.suppressBody then Update(s, i, slot.(streaming := true))
    else
      var headed := QueueHead(slot.(streaming := true), i, head, hasLength, false);
      var grown := QueuePayload(headed, i, payload);
      BytesGrow(slot, i, head, hasLength, payload);
      var flushed := FlushSlots(Grow(s, i, grown));
      if flushed.pendingBytes < c.maxPendingWriteBytes then flushed
      else Update(flushed, i, flushed.slots[i].(backpressured := true))
  }

  function StreamEnd(s: Session, i: nat, head: string, hasLength: bool): (r: Session)
    requires s.front <= |s.slots| && i < |s.slots|
    ensures r.front <= |r.slots|
  {
    var slot := s.slots[i];
    if s.closed || slot.completed || slot.ended then s
    else
      var ended := EndedSlot(slot, i, head, hasLength);
      BytesEnd(slot, i, head, hasLength);
      FlushUnlessDispatching(Complete(Grow(s, i, ended), i))
  }

  function EndedSlot(slot: Slot, i: nat, head: string, hasLength: bool): Slot {
    var headed :=
      QueueHead(slot.(streaming := true, ended := true), i, head, hasLength, slot.suppressBody && slot.closeAfter);
    if !slot.suppressBody && headed.chunked then QueueStream(headed, i, Chunked.LAST_CHUNK, slot.closeAfter)
    else headed
  }

  lemma BytesGrow(slot: Slot, i: nat, head: string, hasLength: bool, payload: string)
    ensures var headed := QueueHead(slot.(streaming := true), i, head, hasLength, false);
            StreamBytes(slot) <= StreamBytes(QueuePayload(headed, i, payload))
  {
    hide Bytes;
    var headed := QueueHead(slot.(streaming := true), i, head, hasLength, false);
    BytesSnoc(slot.streamWrites, Write(i, head, false, false));
    BytesSnoc(headed.streamWrites, Write(i, if headed.chunked then Chunked.SerializeChunk(payload) else payload, false, false));
  }

  lemma BytesEnd(slot: Slot, i: nat, head: string, hasLength: bool)
    ensures StreamBytes(slot) <= StreamBytes(EndedSlot(slot, i, head, hasLength))
  {
    hide Bytes;
    var headed :=
      QueueHead(slot.(streaming := true, ended := true), i, head, hasLength, slot.suppressBody && slot.closeAfter);
    BytesSnoc(slot.streamWrites, Write(i, head, slot.suppressBody && slot.closeAfter, false));
    BytesSnoc(headed.streamWrites, Write(i, Chunked.LAST_CHUNK, slot.closeAfter, false));
  }

  // ---------------------------------------------------------------- completed writes

  /** `notify_drains`: below the low watermark every queued slot may write again. */
  function NotifyDrains(s: Session, c: Config): (r: Session)
    requires s.front <= |s.slots|
    ensures r.front <= |r.slots|
  {
    if c.maxPendingWriteBytes / 2 < s.pendingBytes then s
    else s.(slots := Drained(s.slots, s.front, |s.slots|))
  }

  function Drained(slots: seq<Slot>, from: nat, to: nat): (r: seq<Slot>)
    requires from <= to <= |slots|
    ensures |r| == |slots|
    ensures forall i :: 0 <= i < |slots| ==>
              r[i] == if from <= i < to then slots[i].(backpressured := false) else slots[i]
  {
    seq(|slots|, i requires 0 <= i < |slots| =>
      if from <= i < to then slots[i].(backpressured := false) else slots[i])
  }

  /** The front write is done; both subtractions are clamped at zero as in the code. */
  function PopWrite(s: Session): Session
    requires s.writes != []
  {
    var w := s.writes[0];
    s.(writes := s.writes[1..],
       pendingBytes := if |w.payload| <= s.pendingBytes then s.pendingBytes - |w.payload| else 0,
       pendingResponses := if w.countsResponse && s.pendingResponses > 0 then s.pendingResponses - 1 else s.pendingResponses)
  }

  function WriteDone(s: Session, ok: bool, c: Config): (r: Session)
    requires s.front <= |s.slots|
    ensures r.front <= |r.slots|
  {
    var idle := s.(writing := false);
    if s.closed then idle
    else if !ok then CloseSession(CancelAll(idle, Failed))
    else if s.writes == [] then FlushNext(NotifyDrains(idle, c))
    else
      var drained := NotifyDrains(PopWrite(idle), c);
      if s.writes[0].closeAfter then CloseSession(drained) else FlushNext(drained)
  }

  // ---------------------------------------------------------------- runs

  datatype Event =
    | Request(closeAfter: bool, suppressBody: bool)
    | DispatchBegins
    | DispatchEnds
    | Respond(slot: nat, text: string)
    | Amend(slot: nat, text: string)
    | Claim(slot: nat)
    | Stream(slot: nat, head: string, hasLength: bool, payload: string)
    | EndStream(slot: nat, head: string, hasLength: bool)
    | Written(ok: bool)
    | BodyTimeout
    | Close

  /** A completed response is serialized when it is flushed, so its handler may still change it before. */
  predicate Amendable(s: Session, i: nat) {
    s.front <= i < |s.slots| && s.slots[i].completed && !s.slots[i].streaming
  }

  /** A handler may answer a request that is still active, whole or, once it has claimed the stream, piece
      by piece; the transport completes a write only while one is in flight. */
  function Handle(s: Session, e: Event, c: Config): (r: Session)
    requires s.front <= |s.slots|
    ensures r.front <= |r.slots|
  {
    match e
    case Request(closeAfter, suppressBody) => NewRequest(s, closeAfter, suppressBody, c)
    case DispatchBegins => s.(dispatching := true)
    case DispatchEnds => FlushSlots(s.(dispatching := false))
    case Respond(i, text) =>
      if Active(s, i) && !s.slots[i].claimed then Complete(Update(s, i, s.slots[i].(text := text)), i) else s
    case Amend(i, text) => if Amendable(s, i) then Update(s, i, s.slots[i].(text := text)) else s
    case Claim(i) =>
      if Active(s, i) && !s.slots[i].claimed then Update(s, i, s.slots[i].(claimed := true)) else s
    case Stream(i, head, hasLength, payload) =>
      if Active(s, i) && s.slots[i].claimed then StreamWrite(s, i, head, hasLength, payload, c) else s
    case EndStream(i, head, hasLength) =>
      if Active(s, i) && s.slots[i].claimed then StreamEnd(s, i, head, hasLength) else s
    case Written(ok) => if s.writing then WriteDone(s, ok, c) else s
    case BodyTimeout => if s.closed then s else CloseSession(CancelAll(s, Failed))
    case Close => CloseSession(s)
  }

  function Run(s: Session, events: seq<Event>, c: Config): (r: Session)
    requires s.front <= |s.slots|
    ensures r.front <= |r.slots|
    decreases |events|
  {
    if events == [] then s else Run(Handle(s, events[0], c), events[1..], c)
  }
}
