/** The server session as the object its events update. Every method takes the view to what `ServerSession`
    says. */
module ServerObject {
  import opened Text
  import opened ServerSession
  import Chunked

  /** The front slot's first write joins the session's queue. */
  function MoveOne(s: Session): Session
    requires s.front < |s.slots| && s.slots[s.front].streamWrites != []
  {
    var slot := s.slots[s.front];
    var write := slot.streamWrites[0];
    s.(slots := s.slots[s.front := slot.(streamWrites := slot.streamWrites[1..], emitted := slot.emitted + write.payload)],
       writes := s.writes + [write], log := s.log + [write])
  }

  function MovedSlot(slot: Slot, k: nat): Slot
    requires k <= |slot.streamWrites|
  {
    slot.(streamWrites := slot.streamWrites[k..], emitted := slot.emitted + Bytes(slot.streamWrites[..k]))
  }

  /** The first `k` of them have joined, which leaves the front slot as `slot`. */
  function Joined(s: Session, k: nat, slot: Slot): Session
    requires s.front < |s.slots| && k <= |s.slots[s.front].streamWrites|
  {
    var queue := s.slots[s.front].streamWrites;
    s.(slots := s.slots[s.front := slot], writes := s.writes + queue[..k], log := s.log + queue[..k])
  }

  function MovedSome(s: Session, k: nat): Session
    requires s.front < |s.slots| && k <= |s.slots[s.front].streamWrites|
  {
    Joined(s, k, MovedSlot(s.slots[s.front], k))
  }

  lemma MovedNone(s: Session)
    requires s.front < |s.slots|
    ensures MovedSome(s, 0) == s
  {
    var slot := s.slots[s.front];
    assert slot.emitted + "" == slot.emitted && slot.streamWrites[..0] == [] && slot.streamWrites[0..] == slot.streamWrites;
    assert s.slots[s.front := slot] == s.slots && s.writes + [] == s.writes && s.log + [] == s.log;
  }

  lemma SlotNext(slot: Slot, k: nat)
    requires k < |slot.streamWrites|
    ensures var m := MovedSlot(slot, k);
            && m.streamWrites != [] && m.streamWrites[0] == slot.streamWrites[k]
            && m.(streamWrites := m.streamWrites[1..], emitted := m.emitted + m.streamWrites[0].payload)
               == MovedSlot(slot, k + 1)
  {
    hide Bytes;
    var queue := slot.streamWrites;
    assert queue[..k + 1] == queue[..k] + [queue[k]] && queue[k..][1..] == queue[k + 1..];
    BytesSnoc(queue[..k], queue[k]);
    assert slot.emitted + Bytes(queue[..k]) + queue[k].payload == slot.emitted + (Bytes(queue[..k]) + queue[k].payload);
  }

  lemma TakeNext(a: seq<Write>, queue: seq<Write>, k: nat)
    requires k < |queue|
    ensures a + queue[..k] + [queue[k]] == a + queue[..k + 1]
  {
  }

  lemma JoinedNext(s: Session, k: nat, slot: Slot, next: Slot)
    requires s.front < |s.slots| && k < |s.slots[s.front].streamWrites|
    requires slot.streamWrites != [] && slot.streamWrites[0] == s.slots[s.front].streamWrites[k]
    requires next == slot.(streamWrites := slot.streamWrites[1..], emitted := slot.emitted + slot.streamWrites[0].payload)
    ensures MoveOne(Joined(s, k, slot)) == Joined(s, k + 1, next)
  {
    TakeNext(s.writes, s.slots[s.front].streamWrites, k);
    TakeNext(s.log, s.slots[s.front].streamWrites, k);
    assert s.slots[s.front := slot][s.front := next] == s.slots[s.front := next];
  }

  lemma MovedNext(s: Session, k: nat)
    requires s.front < |s.slots| && k <= |s.slots[s.front].streamWrites|
    ensures var m := MovedSome(s, k);
            && m.front == s.front < |m.slots| == |s.slots|
            && m.slots[s.front].streamWrites == s.slots[s.front].streamWrites[k..]
  {
    hide Bytes;
  }

  lemma MovedMore(s: Session, k: nat)
    requires s.front < |s.slots| && k < |s.slots[s.front].streamWrites|
    ensures var m := MovedSome(s, k);
            && m.front < |m.slots| && m.slots[m.front].streamWrites != []
            && MoveOne(m) == MovedSome(s, k + 1)
  {
    hide MovedSlot, MoveOne;
    SlotNext(s.slots[s.front], k);
    JoinedNext(s, k, MovedSlot(s.slots[s.front], k), MovedSlot(s.slots[s.front], k + 1));
  }

  lemma MovedEvery(s: Session, k: nat)
    requires s.front < |s.slots| && k <= |s.slots[s.front].streamWrites|
    requires var m := MovedSome(s, k); s.front < |m.slots| && m.slots[s.front].streamWrites == []
    ensures FlushNext(MovedSome(s, k)) == FlushStream(s)
  {
    hide Bytes;
    var queue := s.slots[s.front].streamWrites;
    assert queue[k..] == [] && k == |queue|;
    assert queue[..k] == queue;
  }

  class SessionObject {
    var slots: seq<Slot>
    var front: nat
    var writes: seq<Write>
    var log: seq<Write>
    var wire: seq<Write>
    var writing: bool
    var pendingWriteBytes: nat
    var pendingResponseWrites: nat
    var dispatchingResponse: bool
    var closed: bool
    const options: Config

    ghost function View(): Session
      reads this
    {
      Session(slots, front, writes, log, wire, writing, pendingWriteBytes, pendingResponseWrites,
              dispatchingResponse, closed)
    }

    constructor (options: Config)
      ensures View() == FRESH && this.options == options
    {
      slots, front, writes, log, wire := [], 0, [], [], [];
      writing, pendingWriteBytes, pendingResponseWrites, dispatchingResponse, closed := false, 0, 0, false, false;
      this.options := options;
    }

    method FlushNextWrite()
      modifies this`writing, this`wire
      ensures View() == FlushNext(old(View()))
    {
      if closed || writing || writes == [] {
        return;
      }
      writing := true;
      wire := wire + [writes[0]];
    }

    method EnqueueWrite(payload: string, closeAfter: bool, countsResponse: bool, slot: nat)
      modifies this`pendingWriteBytes, this`writes, this`log, this`writing, this`wire
      ensures View() == Enqueue(old(View()), Write(slot, payload, closeAfter, countsResponse))
    {
      pendingWriteBytes := pendingWriteBytes + |payload|;
      var w := Write(slot, payload, closeAfter, countsResponse);
      writes, log := writes + [w], log + [w];
      FlushNextWrite();
    }

    /** The loop over the queued slots; the slots are then gone from the queue. */
    method CancelPendingResponses(outcome: Outcome)
      requires front <= |slots|
      modifies this`slots, this`front
      ensures View() == CancelAll(old(View()), outcome)
    {
      hide Drop;
      for i := front to |slots|
        invariant front == old(front) && |slots| == |old(slots)|
        invariant slots == Dropped(old(slots), front, i, outcome)
        invariant View() == old(View()).(slots := slots)
      {
        slots := slots[i := Drop(slots[i], outcome)];
      }
      front := |slots|;
    }

    method CloseTransport()
      requires front <= |slots|
      modifies this
      ensures View() == CloseSession(old(View()))
    {
      hide CancelAll;
      if closed {
        return;
      }
      closed := true;
      CancelPendingResponses(Cancelled);
    }

    method MoveFrontWrite()
      requires front < |slots| && slots[front].streamWrites != []
      modifies this`slots, this`writes, this`log
      ensures View() == MoveOne(old(View()))
    {
      var slot := slots[front];
      var write := slot.streamWrites[0];
      slots := slots[front := slot.(streamWrites := slot.streamWrites[1..], emitted := slot.emitted + write.payload)];
      writes, log := writes + [write], log + [write];
    }

    /** Moves the front slot's writes over one by one. */
    method FlushStreamWrites()
      requires front < |slots|
      modifies this`slots, this`writes, this`log, this`writing, this`wire
      ensures View() == FlushStream(old(View()))
    {
      hide MoveOne, MovedSome, FlushStream;
      ghost var before := View();
      ghost var k := 0;
      MovedNone(before);
      while slots[front].streamWrites != []
        invariant k <= |before.slots[before.front].streamWrites| && View() == MovedSome(before, k)
        invariant front < |slots|
        decreases |before.slots[before.front].streamWrites| - k
      {
        MovedNext(before, k);
        MovedMore(before, k);
        MoveFrontWrite();
        k := k + 1;
        MovedNext(before, k);
      }
      MovedEvery(before, k);
      FlushNextWrite();
    }

    method SendWhole()
      requires front < |slots|
      modifies this
      ensures View() == FlushWhole(old(View()))
    {
      var slot := slots[front];
      slots := slots[front := slot.(emitted := slot.text)];
      front := front + 1;
      pendingResponseWrites := pendingResponseWrites + 1;
      EnqueueWrite(slot.text, slot.closeAfter, true, front - 1);
    }

    method FlushResponseSlots()
      requires front <= |slots|
      modifies this
      ensures View() == FlushSlots(old(View()))
    {
      hide FlushStream, FlushWhole, CancelAll;
      while front < |slots|
        invariant front <= |slots|
        invariant FlushSlots(View()) == FlushSlots(old(View()))
        decreases |slots| - front
      {
        ghost var before := View();
        var slot := slots[front];
        StepKeeps(before);
        if slot.streaming {
          FlushStreamWrites();
          if !slot.completed {
            FlushedOnce(before);
            return;
          }
          front := front + 1;
        } else {
          if !slot.completed {
            return;
          }
          SendWhole();
        }
        if slot.closeAfter {
          CancelPendingResponses(Cancelled);
          CancelledAll(before, View());
          return;
        }
      }
    }

    lemma StepKeeps(s: Session)
      requires s.front < |s.slots|
      ensures |FlushStream(s).slots| == |s.slots| && FlushStream(s).front == s.front
      ensures |FlushWhole(s).slots| == |s.slots| && FlushWhole(s).front == s.front + 1
    {
      hide Bytes;
    }

    /** An incomplete stream stays at the front, with nothing left to move. */
    lemma FlushedOnce(s: Session)
      requires s.front < |s.slots| && s.slots[s.front].streaming && !s.slots[s.front].completed
      ensures FlushSlots(s) == FlushStream(s)
    {
      hide Bytes;
    }

    lemma CancelledAll(s: Session, r: Session)
      requires s.front < |s.slots| && s.slots[s.front].closeAfter && s.slots[s.front].completed
      requires var sent := if s.slots[s.front].streaming then FlushStream(s).(front := s.front + 1) else FlushWhole(s);
               sent.front <= |sent.slots| && r == CancelAll(sent, Cancelled)
      ensures FlushSlots(s) == r
    {
      hide FlushStream, FlushWhole, Dropped;
      StepKeeps(s);
    }

    method CreateResponseSlot(closeAfter: bool, suppressBody: bool)
      requires front <= |slots|
      modifies this
      ensures View() == NewRequest(old(View()), closeAfter, suppressBody, options)
    {
      hide CloseSession;
      if closed {
        return;
      }
      if options.maxPendingResponses <= |slots| - front + pendingResponseWrites {
        CloseTransport();
        return;
      }
      slots := slots + [NewSlot(closeAfter, suppressBody)];
    }

    method CompleteResponse(i: nat)
      requires front <= |slots| && i < |slots|
      modifies this
      ensures View() == Complete(old(View()), i)
    {
      hide FlushSlots, RunHooks;
      if slots[i].completed {
        return;
      }
      slots := slots[i := RunHooks(slots[i].(completed := true), Completed)];
      if !dispatchingResponse {
        FlushResponseSlots();
      }
    }

    method QueueStreamWrite(i: nat, payload: string, closeAfter: bool)
      requires i < |slots|
      modifies this`slots, this`pendingWriteBytes
      ensures |slots| == |old(slots)| && slots == old(slots)[i := QueueStream(old(slots[i]), i, payload, closeAfter)]
      ensures pendingWriteBytes == old(pendingWriteBytes) + |payload|
      ensures StreamBytes(slots[i]) == StreamBytes(old(slots[i])) + |payload|
    {
      hide Bytes;
      pendingWriteBytes := pendingWriteBytes + |payload|;
      BytesSnoc(slots[i].streamWrites, Write(i, payload, closeAfter, false));
      slots := slots[i := slots[i].(streamWrites := slots[i].streamWrites + [Write(i, payload, closeAfter, false)])];
    }

    /** Queues the response head unless it is queued already. */
    method QueueStreamHead(i: nat, head: string, hasLength: bool, closeAfter: bool)
      requires i < |slots|
      modifies this`slots, this`pendingWriteBytes
      ensures |slots| == |old(slots)| && slots == old(slots)[i := QueueHead(old(slots[i]), i, head, hasLength, closeAfter)]
      ensures pendingWriteBytes - StreamBytes(slots[i]) == old(pendingWriteBytes - StreamBytes(slots[i]))
    {
      hide StreamBytes;
      if slots[i].headersQueued {
        return;
      }
      StreamBytesOf(slots[i], slots[i].(chunked := !hasLength, head := head, headersQueued := true));
      slots := slots[i := slots[i].(chunked := !hasLength, head := head, headersQueued := true)];
      QueueStreamWrite(i, head, closeAfter);
    }

    method QueueStreamPayload(i: nat, payload: string)
      requires i < |slots|
      modifies this`slots, this`pendingWriteBytes
      ensures |slots| == |old(slots)| && slots == old(slots)[i := QueuePayload(old(slots[i]), i, payload)]
      ensures pendingWriteBytes - StreamBytes(slots[i]) == old(pendingWriteBytes - StreamBytes(slots[i]))
    {
      hide StreamBytes, Chunked.SerializeChunk;
      if payload == "" {
        return;
      }
      StreamBytesOf(slots[i], slots[i].(payloads := slots[i].payloads + [payload]));
      slots := slots[i := slots[i].(payloads := slots[i].payloads + [payload])];
      QueueStreamWrite(i, if slots[i].chunked then Chunked.SerializeChunk(payload) else payload, false);
    }

    lemma StreamBytesOf(a: Slot, b: Slot)
      requires a.streamWrites == b.streamWrites
      ensures StreamBytes(a) == StreamBytes(b)
    {
    }

    method WriteStreamChunk(i: nat, head: string, hasLength: bool, payload: string)
      requires front <= |slots| && i < |slots|
      modifies this
      ensures View() == StreamWrite(old(View()), i, head, hasLength, payload, options)
    {
      hide FlushSlots, StreamBytes, QueueHead, QueuePayload;
      if closed || slots[i].completed || slots[i].ended || slots[i].backpressured {
        return;
      }
      ghost var before, slot := View(), slots[i];
      StreamBytesOf(slots[i], slots[i].(streaming := true));
      slots := slots[i := slots[i].(streaming := true)];
      if slots[i].suppressBody {
        return;
      }
      QueueStreamHead(i, head, hasLength, false);
      QueueStreamPayload(i, payload);
      BytesGrow(slot, i, head, hasLength, payload);
      assert View() == Grow(before, i, slots[i]);
      FlushResponseSlots();
      if options.maxPendingWriteBytes <= pendingWriteBytes {
        slots := slots[i := slots[i].(backpressured := true)];
      }
    }

    method EndStream(i: nat, head: string, hasLength: bool)
      requires front <= |slots| && i < |slots|
      modifies this
      ensures View() == StreamEnd(old(View()), i, head, hasLength)
    {
      hide FlushSlots, StreamBytes, QueueHead, Complete, RunHooks;
      if closed || slots[i].completed || slots[i].ended {
        return;
      }
      ghost var before, slot := View(), slots[i];
      var suppressed, closing := slots[i].suppressBody, slots[i].closeAfter;
      StreamBytesOf(slots[i], slots[i].(streaming := true, ended := true));
      slots := slots[i := slots[i].(streaming := true, ended := true)];
      QueueStreamHead(i, head, hasLength, suppressed && closing);
      if !suppressed && slots[i].chunked {
        QueueStreamWrite(i, Chunked.LAST_CHUNK, closing);
      }
      BytesEnd(slot, i, head, hasLength);
      assert View() == Grow(before, i, slots[i]);
      CompleteKeeps(View(), i);
      CompleteResponse(i);
      if !dispatchingResponse {
        FlushResponseSlots();
      }
    }

    lemma CompleteKeeps(s: Session, i: nat)
      requires s.front <= |s.slots| && i < |s.slots|
      ensures var r := Complete(s, i); r.front <= |r.slots| && r.dispatching == s.dispatching
    {
      hide RunHooks, FlushSlots;
      var done := Update(s, i, RunHooks(s.slots[i].(completed := true), Completed));
      FlushKeepsDispatching(done);
    }

    lemma {:induction false} FlushKeepsDispatching(s: Session)
      requires s.front <= |s.slots|
      ensures FlushSlots(s).dispatching == s.dispatching
      decreases |s.slots| - s.front
    {
      hide Bytes;
      if s.front < |s.slots| {
        var slot := s.slots[s.front];
        if slot.streaming && slot.completed {
          FlushKeepsDispatching(Passed(FlushStream(s).(front := s.front + 1), slot.closeAfter));
        } else if slot.completed && !slot.streaming {
          FlushKeepsDispatching(Passed(FlushWhole(s), slot.closeAfter));
        }
      }
    }

    method NotifyDrainedSlots()
      requires front <= |slots|
      modifies this`slots
      ensures View() == NotifyDrains(old(View()), options)
    {
      if options.maxPendingWriteBytes / 2 < pendingWriteBytes {
        return;
      }
      for i := front to |slots|
        invariant |slots| == |old(slots)| && slots == Drained(old(slots), front, i)
      {
        if slots[i].backpressured {
          slots := slots[i := slots[i].(backpressured := false)];
        } else {
          assert slots[i] == slots[i].(backpressured := false);
        }
      }
    }

    method OnWrite(ok: bool)
      requires front <= |slots|
      modifies this
      ensures View() == WriteDone(old(View()), ok, options)
    {
      hide CancelAll, Drained;
      writing := false;
      if closed {
        return;
      }
      if !ok {
        CancelPendingResponses(Failed);
        CancelFront(old(View()).(writing := false), Failed);
        CloseTransport();
        return;
      }
      var closeAfter := writes != [] && writes[0].closeAfter;
      if writes != [] {
        var w := writes[0];
        pendingWriteBytes := pendingWriteBytes - if |w.payload| <= pendingWriteBytes then |w.payload| else pendingWriteBytes;
        if w.countsResponse && pendingResponseWrites > 0 {
          pendingResponseWrites := pendingResponseWrites - 1;
        }
        writes := writes[1..];
      }
      NotifyDrainedSlots();
      if closeAfter {
        CloseTransport();
        return;
      }
      FlushNextWrite();
    }

    lemma CancelFront(s: Session, outcome: Outcome)
      requires s.front <= |s.slots|
      ensures CancelAll(s, outcome).front <= |CancelAll(s, outcome).slots|
    {
    }

    /** The guard around a handler call: flushing waits for its end. */
    method DispatchEnd()
      requires front <= |slots|
      modifies this
      ensures View() == Handle(old(View()), DispatchEnds, options)
    {
      hide FlushSlots;
      dispatchingResponse := false;
      FlushResponseSlots();
    }
  }
}
