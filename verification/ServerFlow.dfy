/** Backpressure of the server session: when a response that was told to wait may go on, and that everything
    its handler hands over in between is taken and delivered. */
module ServerFlow {
  import opened ServerSession
  import opened ServerOrder
  import opened ServerRuns
  import opened ServerKeeps
  import opened ServerSilentClose

  // ---------------------------------------------------------------- what moving writes leaves alone

  /** The same response: only what has moved to the write queue, hooks and flags may differ. */
  predicate SameContent(a: Slot, b: Slot) {
    b == a.(streamWrites := b.streamWrites, emitted := b.emitted, hooks := b.hooks, dropped := b.dropped,
            backpressured := b.backpressured)
  }

  predicate Calm(s: Session, r: Session) {
    && s.front <= r.front <= |r.slots| == |s.slots| && s.pendingBytes <= r.pendingBytes
    && forall i :: 0 <= i < |s.slots| ==>
         SameContent(s.slots[i], r.slots[i]) && r.slots[i].backpressured == s.slots[i].backpressured
  }

  lemma CalmOn(s: Session, t: Session, r: Session)
    requires Calm(s, t) && Calm(t, r)
    ensures Calm(s, r)
  {
    forall i | 0 <= i < |s.slots|
      ensures SameContent(s.slots[i], r.slots[i]) && r.slots[i].backpressured == s.slots[i].backpressured
    {
      assert SameContent(s.slots[i], t.slots[i]) && SameContent(t.slots[i], r.slots[i]);
    }
  }

  lemma StreamCalm(s: Session)
    requires s.front < |s.slots|
    ensures Calm(s, FlushStream(s)) && Calm(s, FlushStream(s).(front := s.front + 1))
  {
    hide Bytes;
  }

  lemma WholeCalm(s: Session)
    requires s.front < |s.slots|
    ensures Calm(s, FlushWhole(s)) && FlushWhole(s).front == s.front + 1
  {
  }

  lemma DropSame(slot: Slot, outcome: Outcome)
    ensures SameContent(slot, Drop(slot, outcome)) && Drop(slot, outcome).backpressured == slot.backpressured
  {
    var r := Drop(slot, outcome);
    assert r == slot.(hooks := r.hooks, dropped := true);
    hide Drop;
  }

  lemma PassedCalm(s: Session, closeAfter: bool)
    requires s.front <= |s.slots|
    ensures Calm(s, Passed(s, closeAfter))
  {
    hide SameContent, Drop;
    forall i | 0 <= i < |s.slots| ensures SameContent(s.slots[i], s.slots[i]) {
      SameSelf(s.slots[i]);
    }
    forall i | 0 <= i < |s.slots|
      ensures SameContent(s.slots[i], Drop(s.slots[i], Cancelled))
      ensures Drop(s.slots[i], Cancelled).backpressured == s.slots[i].backpressured
    {
      DropSame(s.slots[i], Cancelled);
    }
  }

  lemma SameSelf(slot: Slot)
    ensures SameContent(slot, slot)
  {
  }

  /** Flushing changes no response, lets no waiting one go on, and takes no bytes off the count. */
  lemma {:induction false} FlushCalm(s: Session)
    requires s.front <= |s.slots|
    ensures Calm(s, FlushSlots(s))
    decreases |s.slots| - s.front
  {
    hide FlushStream, FlushWhole, Passed, Calm;
    if s.front == |s.slots| {
      CalmSelf(s);
    } else {
      var slot := s.slots[s.front];
      FrontKept(s);
      StreamCalm(s);
      WholeCalm(s);
      CalmShape(s, FlushWhole(s));
      CalmSelf(s);
      if slot.streaming && slot.completed {
        FlushPassed(s, FlushStream(s).(front := s.front + 1), slot.closeAfter);
      } else if slot.completed {
        FlushPassed(s, FlushWhole(s), slot.closeAfter);
      }
    }
  }

  lemma {:induction false} FlushPassed(s: Session, t: Session, closeAfter: bool)
    requires Calm(s, t) && s.front < t.front <= |t.slots| == |s.slots|
    ensures Passed(t, closeAfter).front <= |t.slots|
    ensures Calm(s, FlushSlots(Passed(t, closeAfter)))
    decreases |s.slots| - s.front, 0
  {
    hide FlushSlots, Calm, Passed;
    PassedCalm(t, closeAfter);
    var u := Passed(t, closeAfter);
    CalmShape(t, u);
    FlushCalm(u);
    CalmOn(s, t, u);
    CalmOn(s, u, FlushSlots(u));
  }

  lemma CalmShape(s: Session, r: Session)
    requires Calm(s, r)
    ensures s.front <= r.front <= |r.slots| == |s.slots|
  {
  }

  lemma CalmSelf(s: Session)
    requires s.front <= |s.slots|
    ensures Calm(s, s)
  {
  }

  // ---------------------------------------------------------------- backpressure in every run

  /** A queued response waits only while more than half the limit is pending. */
  predicate Pressed(s: Session, c: Config) {
    forall i :: s.front <= i < |s.slots| && s.slots[i].backpressured ==> c.maxPendingWriteBytes / 2 < s.pendingBytes
  }

  /** Between two states: a flag is set only at the limit, and cleared, in a slot that stays queued, only at or
      below half of it. */
  predicate Fair(s: Session, r: Session, c: Config) {
    && |s.slots| <= |r.slots|
    && (forall i :: 0 <= i < |s.slots| && !s.slots[i].backpressured && r.slots[i].backpressured ==>
          c.maxPendingWriteBytes <= r.pendingBytes)
    && (forall i :: r.front <= i < |s.slots| && s.slots[i].backpressured && !r.slots[i].backpressured ==>
          r.pendingBytes <= c.maxPendingWriteBytes / 2)
    && forall i :: |s.slots| <= i < |r.slots| ==> !r.slots[i].backpressured
  }

  lemma CalmIsFair(s: Session, r: Session, c: Config)
    requires Calm(s, r)
    ensures Fair(s, r, c) && (Pressed(s, c) ==> Pressed(r, c))
  {
    hide SameContent;
  }

  lemma UpdateIsFair(s: Session, r: Session, i: nat, c: Config)
    requires s.front <= i < |s.slots| && r.front == s.front && s.pendingBytes <= r.pendingBytes
    requires |r.slots| == |s.slots| && r.slots == s.slots[i := r.slots[i]]
    requires r.slots[i].backpressured == s.slots[i].backpressured
    ensures Fair(s, r, c) && (Pressed(s, c) ==> Pressed(r, c))
  {
  }

  /** An update of one slot and a flush behind it. */
  lemma UpdateThenCalm(s: Session, t: Session, r: Session, i: nat, c: Config)
    requires s.front <= i < |s.slots| && t.front == s.front && s.pendingBytes <= t.pendingBytes
    requires |t.slots| == |s.slots| && t.slots == s.slots[i := t.slots[i]]
    requires t.slots[i].backpressured == s.slots[i].backpressured && Calm(t, r)
    ensures Fair(s, r, c) && (Pressed(s, c) ==> Pressed(r, c))
  {
    hide SameContent;
  }

  lemma EmptyIsFair(s: Session, r: Session, c: Config)
    requires |r.slots| == |s.slots| && r.front == |r.slots|
    requires forall i :: 0 <= i < |s.slots| ==> r.slots[i].backpressured == s.slots[i].backpressured
    ensures Fair(s, r, c) && Pressed(r, c)
  {
  }

  lemma CancelFlags(s: Session, outcome: Outcome)
    requires s.front <= |s.slots|
    ensures var r := CancelAll(s, outcome);
            && |r.slots| == |s.slots| && r.front == |r.slots| && r.pendingBytes == s.pendingBytes
            && forall i :: 0 <= i < |s.slots| ==> r.slots[i].backpressured == s.slots[i].backpressured
  {
  }

  lemma CloseFlags(s: Session)
    requires s.front <= |s.slots|
    ensures var r := CloseSession(s);
            && |r.slots| == |s.slots| && (!s.closed ==> r.front == |r.slots|) && r.pendingBytes == s.pendingBytes
            && forall i :: 0 <= i < |s.slots| ==> r.slots[i].backpressured == s.slots[i].backpressured
  {
    hide CancelAll;
    CancelFlags(s.(closed := true), Cancelled);
  }

  lemma StreamFair(s: Session, i: nat, head: string, hasLength: bool, payload: string, c: Config)
    requires s.front <= i < |s.slots| && c.maxPendingWriteBytes > 0
    ensures var r := StreamWrite(s, i, head, hasLength, payload, c); Fair(s, r, c) && (Pressed(s, c) ==> Pressed(r, c))
  {
    hide FlushSlots, Bytes, StreamBytes, QueueHead, QueuePayload, Calm;
    var slot := s.slots[i];
    if s.closed || slot.completed || slot.ended || slot.backpressured {
    } else if slot.suppressBody {
      UpdateIsFair(s, Update(s, i, slot.(streaming := true)), i, c);
    } else {
      var grown := QueuePayload(QueueHead(slot.(streaming := true), i, head, hasLength, false), i, payload);
      BytesGrow(slot, i, head, hasLength, payload);
      GrownFlag(slot, i, head, hasLength, payload);
      var t := Grow(s, i, grown);
      FlushCalm(t);
      UpdateThenCalm(s, t, FlushSlots(t), i, c);
      if c.maxPendingWriteBytes <= FlushSlots(t).pendingBytes {
        FlagSet(s, FlushSlots(t), i, c);
      }
    }
  }

  lemma GrownFlag(slot: Slot, i: nat, head: string, hasLength: bool, payload: string)
    ensures QueuePayload(QueueHead(slot.(streaming := true), i, head, hasLength, false), i, payload).backpressured
            == slot.backpressured
  {
  }

  lemma FlagSet(s: Session, r: Session, i: nat, c: Config)
    requires c.maxPendingWriteBytes > 0 && i < |s.slots| && Fair(s, r, c) && (Pressed(s, c) ==> Pressed(r, c))
    requires c.maxPendingWriteBytes <= r.pendingBytes
    ensures var u := Update(r, i, r.slots[i].(backpressured := true)); Fair(s, u, c) && (Pressed(s, c) ==> Pressed(u, c))
  {
  }

  lemma CompleteFair(s: Session, t: Session, i: nat, c: Config)
    requires s.front <= i < |s.slots| && t.front == s.front && s.pendingBytes <= t.pendingBytes
    requires |t.slots| == |s.slots| && t.slots == s.slots[i := t.slots[i]]
    requires t.slots[i].backpressured == s.slots[i].backpressured
    ensures var r := FlushUnlessDispatching(t); Fair(s, r, c) && (Pressed(s, c) ==> Pressed(r, c))
  {
    hide FlushSlots, Calm;
    FlushCalm(t);
    UpdateIsFair(s, t, i, c);
    UpdateThenCalm(s, t, FlushSlots(t), i, c);
  }

  lemma RespondFair(s: Session, i: nat, text: string, c: Config)
    requires Inv(s, c, 0) && Active(s, i) && !s.slots[i].claimed && !s.closed
    ensures var r := Complete(Update(s, i, s.slots[i].(text := text)), i); Fair(s, r, c) && (Pressed(s, c) ==> Pressed(r, c))
  {
    hide Inv, FlushUnlessDispatching, Complete, Output;
    RespondShape(s, i, text, c, 0);
    CompleteFair(s, Update(s, i, Answered(s.slots[i], text)), i, c);
  }

  lemma EndFair(s: Session, i: nat, head: string, hasLength: bool, c: Config)
    requires Inv(s, c, 0) && Active(s, i) && s.slots[i].claimed && !s.closed
    ensures var r := StreamEnd(s, i, head, hasLength); Fair(s, r, c) && (Pressed(s, c) ==> Pressed(r, c))
  {
    hide Inv, FlushSlots, StreamEnd, Done, StreamBytes, Calm, Keeps, NoNewSilent, Flushed;
    EndShape(s, i, head, hasLength, c, 0);
    var done := Done(s.slots[i], i, head, hasLength);
    DoneFlag(s.slots[i], i, head, hasLength);
    var t := Grow(s, i, done);
    UpdateIsFair(s, t, i, c);
    if !s.dispatching {
      FlushKeeps(t, c, 0);
      FlushCalm(t);
      CalmShape(t, FlushSlots(t));
      FlushCalm(FlushSlots(t));
      CalmOn(t, FlushSlots(t), FlushSlots(FlushSlots(t)));
      UpdateThenCalm(s, t, FlushSlots(FlushSlots(t)), i, c);
    }
  }

  lemma HeadFlag(slot: Slot, i: nat, head: string, hasLength: bool, closeAfter: bool)
    ensures QueueHead(slot, i, head, hasLength, closeAfter).backpressured == slot.backpressured
  {
  }

  lemma DoneFlag(slot: Slot, i: nat, head: string, hasLength: bool)
    ensures Done(slot, i, head, hasLength).backpressured == slot.backpressured
  {
    hide QueueHead;
    HeadFlag(slot.(streaming := true, ended := true), i, head, hasLength, slot.suppressBody && slot.closeAfter);
  }

  lemma WrittenFair(s: Session, ok: bool, c: Config)
    requires s.front <= |s.slots|
    ensures var r := WriteDone(s, ok, c); Fair(s, r, c) && (Pressed(s, c) ==> Pressed(r, c))
  {
    hide CancelAll, CloseSession;
    var idle := s.(writing := false);
    if s.closed {
    } else if !ok {
      CancelFlags(idle, Failed);
      CloseFlags(CancelAll(idle, Failed));
      CancelOpen(idle);
      EmptyIsFair(s, WriteDone(s, ok, c), c);
    } else if s.writes == [] {
      NotifyFair(s, idle, c);
    } else {
      NotifyFair(s, PopWrite(idle), c);
      var drained := NotifyDrains(PopWrite(idle), c);
      CloseFlags(drained);
      if s.writes[0].closeAfter {
        ClosedIsFair(s, drained, WriteDone(s, ok, c), c);
      }
    }
  }

  lemma CancelOpen(s: Session)
    requires s.front <= |s.slots|
    ensures CancelAll(s, Failed).closed == s.closed
  {
  }

  lemma ClosedIsFair(s: Session, t: Session, r: Session, c: Config)
    requires Fair(s, t, c) && |r.slots| == |t.slots| == |s.slots| && r.front == |r.slots|
    requires t.pendingBytes == r.pendingBytes
    requires forall i :: 0 <= i < |t.slots| ==> r.slots[i].backpressured == t.slots[i].backpressured
    ensures Fair(s, r, c) && Pressed(r, c)
  {
  }

  /** After a completed write: below the low watermark every queued response may go on, above it all that
      waited still wait. */
  lemma NotifyFair(s: Session, t: Session, c: Config)
    requires s.front <= |s.slots| && t.slots == s.slots && t.front == s.front
    ensures Fair(s, NotifyDrains(t, c), c) && Pressed(NotifyDrains(t, c), c)
  {
  }

  lemma HandleFair(s: Session, e: Event, c: Config)
    requires Inv(s, c, 0) && c.maxPendingWriteBytes > 0 && Pressed(s, c)
    ensures s.front <= |s.slots|
    ensures var r := Handle(s, e, c); Fair(s, r, c) && Pressed(r, c)
  {
    hide Inv, FlushSlots, Complete, StreamWrite, StreamEnd, WriteDone, CloseSession, CancelAll, Calm;
    InvFront(s, c, 0);
    CalmSelf(s);
    CalmIsFair(s, s, c);
    match e
    case Request(closeAfter, suppressBody) => RequestFair(s, closeAfter, suppressBody, c);
    case DispatchBegins => CalmIsFair(s, s.(dispatching := true), c) by { SameSlotsCalm(s, s.(dispatching := true)); }
    case DispatchEnds =>
      var t := s.(dispatching := false);
      SameSlotsCalm(s, t);
      FlushCalm(t);
      CalmOn(s, t, FlushSlots(t));
      CalmIsFair(s, FlushSlots(t), c);
    case Respond(i, text) =>
      if Active(s, i) && !s.slots[i].claimed {
        OpenWhileActive(s, i, c, 0);
        RespondFair(s, i, text, c);
      }
    case Amend(i, text) => if Amendable(s, i) { UpdateIsFair(s, Handle(s, e, c), i, c); }
    case Claim(i) => if Active(s, i) && !s.slots[i].claimed { UpdateIsFair(s, Handle(s, e, c), i, c); }
    case Stream(i, head, hasLength, payload) =>
      if Active(s, i) && s.slots[i].claimed { StreamFair(s, i, head, hasLength, payload, c); }
    case EndStream(i, head, hasLength) =>
      if Active(s, i) && s.slots[i].claimed {
        OpenWhileActive(s, i, c, 0);
        EndFair(s, i, head, hasLength, c);
      }
    case Written(ok) => if s.writing { WrittenFair(s, ok, c); }
    case BodyTimeout =>
      if !s.closed {
        CancelFlags(s, Failed);
        CloseFlags(CancelAll(s, Failed));
        CancelOpen(s);
        EmptyIsFair(s, Handle(s, e, c), c);
      }
    case Close =>
      CloseFlags(s);
      if !s.closed {
        EmptyIsFair(s, Handle(s, e, c), c);
      } else {
        ClosedStays(s);
      }
  }

  lemma ClosedStays(s: Session)
    requires s.closed && s.front <= |s.slots|
    ensures CloseSession(s) == s
  {
  }

  lemma SameSlotsCalm(s: Session, r: Session)
    requires r.slots == s.slots && r.front == s.front <= |s.slots| && r.pendingBytes == s.pendingBytes
    ensures Calm(s, r)
  {
  }

  lemma RequestFair(s: Session, closeAfter: bool, suppressBody: bool, c: Config)
    requires s.front <= |s.slots| && Pressed(s, c)
    ensures var r := NewRequest(s, closeAfter, suppressBody, c); Fair(s, r, c) && Pressed(r, c)
  {
    hide CloseSession;
    CloseFlags(s);
    if !s.closed && c.maxPendingResponses <= |s.slots| - s.front + s.pendingResponses {
      EmptyIsFair(s, CloseSession(s), c);
    }
  }

  lemma {:induction false} RunPressed(s: Session, events: seq<Event>, c: Config)
    requires Inv(s, c, 0) && c.maxPendingWriteBytes > 0 && Pressed(s, c)
    ensures s.front <= |s.slots| && Pressed(Run(s, events, c), c)
    decreases |events|
  {
    hide Inv, Handle, Pressed, Fair;
    InvFront(s, c, 0);
    if events != [] {
      HandleFair(s, events[0], c);
      HandleInv(s, events[0], c, 0);
      RunPressed(Handle(s, events[0], c), events[1..], c);
    }
  }

  // ---------------------------------------------------------------- who may go on, and when

  /** In every run: a queued response waits only while more than half the limit is pending, so while the bytes
      still in slots are at most half of it, a write is in flight whose completion will look at it again. The
      next event sets a flag only at the limit and clears one of a queued response only at half of it. */
  lemma BackpressureIsFair(events: seq<Event>, e: Event, c: Config, i: nat)
    requires c.maxPendingWriteBytes > 0
    ensures var s := Run(FRESH, events, c);
            s.front <= i < |s.slots| && s.slots[i].backpressured ==>
              && c.maxPendingWriteBytes / 2 < s.pendingBytes
              && (Streamed(s.slots, |s.slots|) <= c.maxPendingWriteBytes / 2 ==> s.writing)
    ensures var s := Run(FRESH, events, c); s.front <= |s.slots| && Fair(s, Handle(s, e, c), c)
  {
    hide Run, Handle, SlotInv, Bytes, Streamed, StopInv, OrderInv, Fair, Counted;
    FreshInv(c);
    RunInv(FRESH, events, c, 0);
    RunPressed(FRESH, events, c);
    var s := Run(FRESH, events, c);
    HandleFair(s, e, c);
    NoBytes();
  }

  lemma FlagAfterPop(s: Session, c: Config, i: nat)
    requires Inv(s, c, 0) && !s.closed && s.writes != [] && !s.writes[0].closeAfter && s.front <= i < |s.slots|
    ensures var r := Handle(s, Written(true), c);
            && |r.slots| == |s.slots| && r.pendingBytes <= s.pendingBytes
            && (r.slots[i].backpressured <==> s.slots[i].backpressured && c.maxPendingWriteBytes / 2 < r.pendingBytes)
  {
    hide SlotsInv, OrderInv, StopInv, AccountInv, Bytes;
  }

  /** After some writes went out, exactly those still wait that waited, if more than half the limit is pending. */
  lemma {:induction false} FlagsAfterDrain(s: Session, k: nat, c: Config, i: nat)
    requires Inv(s, c, 0) && !s.closed && 0 < k <= |s.writes| && s.front <= i < |s.slots|
    requires forall j :: 0 <= j < k ==> !s.writes[j].closeAfter
    ensures var r := Run(s, Drains(k), c);
            && |r.slots| == |s.slots| && r.pendingBytes <= s.pendingBytes
            && (r.slots[i].backpressured <==> s.slots[i].backpressured && c.maxPendingWriteBytes / 2 < r.pendingBytes)
    decreases k
  {
    hide Inv, Handle, Keeps, NoNewSilent, SameSlot, Leads;
    DrainOne(s, c);
    FlagAfterPop(s, c, i);
    var t := Handle(s, Written(true), c);
    if k > 1 {
      LeadsGives(s, [Written(true)], c, t);
      assert forall j :: 0 <= j < k - 1 ==> t.writes[j] == s.writes[j + 1];
      FlagsAfterDrain(t, k - 1, c, i);
    } else {
      assert Drains(0) == [];
    }
  }

  lemma {:induction false} SameStreamed(a: seq<Slot>, b: seq<Slot>, n: nat)
    requires n <= |a| && n <= |b| && forall i :: 0 <= i < n ==> SameSlot(a[i], b[i])
    ensures Streamed(a, n) == Streamed(b, n)
  {
    if n > 0 {
      SameStreamed(a, b, n - 1);
    }
  }

  /** When everything queued has been written, a waiting response may go on if and only if at most half the
      limit is still held in slots, behind an unfinished response or left by cancelled ones. */
  lemma DrainingLetsGo(s: Session, c: Config, i: nat)
    requires Inv(s, c, 0) && !s.closed && s.writes != [] && NoneClose(s.log, |s.log|)
    requires s.front <= i < |s.slots| && s.slots[i].backpressured
    ensures var r := Run(s, Drains(|s.writes|), c);
            && !r.closed && r.writes == [] && r.front == s.front && |r.slots| == |s.slots|
            && (!r.slots[i].backpressured <==> Streamed(s.slots, |s.slots|) <= c.maxPendingWriteBytes / 2)
  {
    hide SlotsInv, OrderInv, StopInv, Bytes, Streamed, Counted, Run, Drains, Keeps, NoNewSilent, SameSlot;
    var base := |s.log| - |s.writes|;
    assert forall j :: 0 <= j < |s.writes| ==> s.writes[j] == s.log[base + j];
    DrainOut(s, c);
    var r := Run(s, Drains(|s.writes|), c);
    FlagsAfterDrain(s, |s.writes|, c, i);
    LeadsGives(s, Drains(|s.writes|), c, r);
    SameStreamed(s.slots, r.slots, |s.slots|);
    NoBytes();
  }

  // ---------------------------------------------------------------- bytes of cancelled responses

  lemma {:induction false} StreamedGrows(slots: seq<Slot>, m: nat, n: nat)
    requires m <= n <= |slots|
    ensures Streamed(slots, m) <= Streamed(slots, n)
  {
    hide StreamBytes;
    if m < n {
      StreamedGrows(slots, m, n - 1);
    }
  }

  /** Bytes left in the slots of cancelled responses are counted for ever. */
  lemma CancelledStayPending(s: Session, events: seq<Event>, c: Config)
    requires Inv(s, c, 0)
    ensures s.front <= |s.slots| && Streamed(s.slots, s.front) <= Run(s, events, c).pendingBytes
  {
    hide SlotInv, QueueInv, OrderInv, StopInv, Bytes, Streamed, Counted, Run, SameSlot;
    RunInv(s, events, c, 0);
    RunKeeps(s, events, c, 0);
    var r := Run(s, events, c);
    SameStreamed(s.slots, r.slots, s.front);
    StreamedGrows(r.slots, s.front, |r.slots|);
  }

  /** So when they are more than half the limit, a response told to wait waits until it leaves the queue. */
  lemma {:induction false} WaitsForEver(s: Session, events: seq<Event>, c: Config, i: nat)
    requires Inv(s, c, 0) && c.maxPendingWriteBytes > 0 && Pressed(s, c)
    requires s.front <= i < |s.slots| && s.slots[i].backpressured
    requires c.maxPendingWriteBytes / 2 < Streamed(s.slots, s.front)
    ensures var r := Run(s, events, c);
            i < |r.slots| && (r.front <= i ==> r.slots[i].backpressured)
    decreases |events|
  {
    hide Inv, Handle, Pressed, Streamed, Keeps, SameSlot;
    if events != [] {
      var e := events[0];
      var t := Handle(s, e, c);
      HandleFair(s, e, c);
      HandleInv(s, e, c, 0);
      HandleKeeps(s, e, c, 0);
      CancelledStayPending(s, [e], c);
      RunOne(s, e, c);
      KeepsStreamed(s, t);
      if t.front <= i {
        WaitsForEver(t, events[1..], c, i);
      } else {
        RunKeeps(t, events[1..], c, 0);
        KeepsShape(t, Run(t, events[1..], c));
      }
    }
  }

  lemma KeepsShape(s: Session, r: Session)
    requires Keeps(s, r)
    ensures s.front <= r.front && |s.slots| <= |r.slots|
  {
  }

  lemma KeepsStreamed(s: Session, r: Session)
    requires Keeps(s, r)
    ensures s.front <= r.front <= |r.slots| && |s.slots| <= |r.slots|
    ensures Streamed(s.slots, s.front) <= Streamed(r.slots, r.front)
  {
    hide SameSlot, Streamed;
    SameStreamed(s.slots, r.slots, s.front);
    StreamedGrows(r.slots, s.front, r.front);
  }

  /** The next streamed response, once it fills the limit, is told to wait. */
  lemma NextWaits(s: Session, payload: string, c: Config)
    requires Inv(s, c, 0) && !s.closed && s.front == |s.slots| && s.pendingResponses < c.maxPendingResponses
    requires 0 < c.maxPendingWriteBytes <= |payload|
    ensures var n := |s.slots|;
            var r := Run(s, [Request(false, false), Claim(n), Stream(n, "", true, payload)], c);
            r.front == n < |r.slots| && r.slots[n].backpressured
  {
    hide Inv, Bytes, FlushSlots, Calm, SameContent, StreamBytes;
    var n := |s.slots|;
    var a, b, e := Request(false, false), Claim(n), Stream(n, "", true, payload);
    var t := s.(slots := s.slots + [NewSlot(false, false)]);
    var u := s.(slots := s.slots + [NewSlot(false, false).(claimed := true)]);
    assert Handle(s, a, c) == t;
    assert t.slots[n := t.slots[n].(claimed := true)] == u.slots;
    assert Handle(t, b, c) == u;
    assert [a, b, e] == [a] + ([b] + [e]);
    Unfold(s, a, [b] + [e], c);
    Unfold(t, b, [e], c);
    RunOne(u, e, c);
    PieceFlushed(u, n, "", true, payload, c);
    FirstPiece(u, n, payload);
    var grown := QueuePayload(QueueHead(u.slots[n].(streaming := true), n, "", true, false), n, payload);
    FrontStays(Grow(u, n, grown));
    CalmPending(Grow(u, n, grown), FlushSlots(Grow(u, n, grown)));
  }

  lemma CalmPending(s: Session, r: Session)
    requires Calm(s, r)
    ensures s.pendingBytes <= r.pendingBytes
  {
  }

  lemma FirstPiece(s: Session, i: nat, payload: string)
    requires i < |s.slots| && s.slots[i] == NewSlot(false, false).(claimed := true) && payload != ""
    ensures var grown := QueuePayload(QueueHead(s.slots[i].(streaming := true), i, "", true, false), i, payload);
            grown.streaming && !grown.completed && StreamBytes(s.slots[i]) == 0 && StreamBytes(grown) == |payload|
  {
    var head := Write(i, "", false, false);
    BytesSnoc([], head);
    BytesSnoc([head], Write(i, payload, false, false));
    assert [] + [head] == [head];
  }

  lemma FrontStays(s: Session)
    requires s.front < |s.slots| && s.slots[s.front].streaming && !s.slots[s.front].completed
    ensures FlushSlots(s).front == s.front
  {
    hide Bytes;
  }

  /** A silent end that cancels a response with more than half the limit held back makes this happen: the next
      response that fills the limit is told to wait and, in every continuation, waits until it is cancelled. */
  lemma SilentEndStalls(
      s: Session, head: string, hasLength: bool, k: nat, payload: string, events: seq<Event>, c: Config)
    requires Inv(s, c, 0) && Pressed(s, c) && !s.closed && !s.dispatching && EndsSilently(s, hasLength)
    requires s.front < k < |s.slots| && c.maxPendingWriteBytes / 2 < StreamBytes(s.slots[k])
    requires 0 < c.maxPendingWriteBytes <= |payload|
    ensures s.front < |s.slots|
    ensures var r := Handle(s, EndStream(s.front, head, hasLength), c);
            var n := |r.slots|;
            var t := Run(r, [Request(false, false), Claim(n), Stream(n, "", true, payload)], c);
            r.pendingResponses < c.maxPendingResponses ==>
              && t.front == n < |t.slots| && t.slots[n].backpressured
              && var u := Run(t, events, c); n < |u.slots| && (u.front <= n ==> u.slots[n].backpressured)
  {
    hide Inv, Handle, Run, Output, Pressed, StreamBytes, Streamed, Keeps, EndsSilently;
    SilentEnd(s, head, hasLength, c);
    var e := EndStream(s.front, head, hasLength);
    var r := Handle(s, e, c);
    var n := |r.slots|;
    var more := [Request(false, false), Claim(n), Stream(n, "", true, payload)];
    HandleFair(s, e, c);
    HeldBytes(r.slots, k, n);
    SameBytes(s.slots[k], r.slots[k]);
    if r.pendingResponses < c.maxPendingResponses {
      NextWaits(r, payload, c);
      var t := Run(r, more, c);
      RunInv(r, more, c, 0);
      RunPressed(r, more, c);
      RunKeeps(r, more, c, 0);
      KeepsStreamed(r, t);
      WaitsForEver(t, events, c, n);
    }
  }

  lemma SameBytes(a: Slot, b: Slot)
    requires a.streamWrites == b.streamWrites
    ensures StreamBytes(a) == StreamBytes(b)
  {
  }

  lemma {:induction false} HeldBytes(slots: seq<Slot>, k: nat, n: nat)
    requires k < n <= |slots|
    ensures StreamBytes(slots[k]) <= Streamed(slots, n)
  {
    hide StreamBytes;
    if k < n - 1 {
      HeldBytes(slots, k, n - 1);
    }
  }

  // A session in which that can be done: the second of two pipelined responses streams ahead of the first.

  function Ahead(payload: string): seq<Event> {
    [Request(true, false), Request(true, false), Claim(1), Stream(1, "", true, payload), Claim(0)]
  }

  function AheadSlot(payload: string, c: Config): Slot {
    FIRST.(claimed := true, streaming := true, headersQueued := true, chunked := false, payloads := [payload],
           streamWrites := [Write(1, "", false, false), Write(1, payload, false, false)],
           backpressured := c.maxPendingWriteBytes <= |payload|)
  }

  lemma AheadHappens(payload: string, c: Config)
    requires c.maxPendingResponses >= 2 && payload != ""
    ensures Run(FRESH, Ahead(payload), c) ==
            FRESH.(slots := [FIRST.(claimed := true), AheadSlot(payload, c)], pendingBytes := |payload|)
    ensures StreamBytes(AheadSlot(payload, c)) == |payload|
  {
    hide Run;
    var one, two := FRESH.(slots := [FIRST]), FRESH.(slots := [FIRST, FIRST]);
    var claimed := FRESH.(slots := [FIRST, FIRST.(claimed := true)]);
    var streamed := FRESH.(slots := [FIRST, AheadSlot(payload, c)], pendingBytes := |payload|);
    var es := Ahead(payload);
    assert es == [es[0]] + ([es[1]] + ([es[2]] + ([es[3]] + [es[4]])));
    Unfold(FRESH, es[0], [es[1]] + ([es[2]] + ([es[3]] + [es[4]])), c);
    assert Handle(FRESH, es[0], c) == one;
    Unfold(one, es[1], [es[2]] + ([es[3]] + [es[4]]), c);
    assert Handle(one, es[1], c) == two;
    Unfold(two, es[2], [es[3]] + [es[4]], c);
    assert Handle(two, es[2], c) == claimed;
    Unfold(claimed, es[3], [es[4]], c);
    AheadStreams(payload, c);
    assert Handle(claimed, es[3], c) == streamed;
    RunOne(streamed, es[4], c);
  }

  lemma AheadStreams(payload: string, c: Config)
    requires payload != ""
    ensures StreamBytes(AheadSlot(payload, c)) == |payload|
    ensures StreamWrite(FRESH.(slots := [FIRST, FIRST.(claimed := true)]), 1, "", true, payload, c)
            == FRESH.(slots := [FIRST, AheadSlot(payload, c)], pendingBytes := |payload|)
  {
    var head, piece := Write(1, "", false, false), Write(1, payload, false, false);
    BytesSnoc([], head);
    BytesSnoc([head], piece);
    assert [] + [head] == [head] && [head] + [piece] == [head, piece];
    var s := FRESH.(slots := [FIRST, FIRST.(claimed := true)]);
    var grown := AheadSlot(payload, c).(backpressured := false);
    assert QueuePayload(QueueHead(s.slots[1].(streaming := true), 1, "", true, false), 1, payload) == grown;
    var t := Grow(s, 1, grown);
    assert t == FRESH.(slots := [FIRST, grown], pendingBytes := |payload|);
    assert FlushSlots(t) == t;
  }

  // ---------------------------------------------------------------- what handlers hand over

  /** A whole answer to a request nobody has claimed is taken as it is. */
  lemma AnswerTaken(s: Session, i: nat, text: string, c: Config)
    requires Inv(s, c, 0) && Active(s, i) && !s.slots[i].claimed
    ensures var r := Handle(s, Respond(i, text), c);
            && |r.slots| == |s.slots| && Output(r.slots[i]) == text && r.slots[i].completed && !r.slots[i].streaming
  {
    hide Inv, Complete, Output, FlushSlots;
    OpenWhileActive(s, i, c, 0);
    RespondShape(s, i, text, c, 0);
    var t := Update(s, i, Answered(s.slots[i], text));
    FlushCalm(t);
    ContentSays(t.slots[i], FlushSlots(t).slots[i]);
  }

  lemma ContentSays(a: Slot, b: Slot)
    requires SameContent(a, b)
    ensures Output(b) == Output(a) && b.completed == a.completed && b.streaming == a.streaming
    ensures b.payloads == a.payloads && b.head == a.head && b.chunked == a.chunked && b.ended == a.ended
    ensures b.headersQueued == a.headersQueued && b.suppressBody == a.suppressBody
  {
    hide Chunks, Joined;
  }

  /** A piece written to a claimed stream is taken whenever the response was not told to wait, behind the pieces
      before it; the first one brings the head and its framing. It tells the response to wait exactly at the limit.
      A response that waits takes nothing. */
  lemma PieceTaken(s: Session, i: nat, head: string, hasLength: bool, payload: string, c: Config)
    requires Inv(s, c, 0) && Active(s, i) && s.slots[i].claimed && !s.slots[i].suppressBody && payload != ""
    ensures var r := Handle(s, Stream(i, head, hasLength, payload), c);
            && (s.slots[i].backpressured ==> r == s)
            && |r.slots| == |s.slots|
            && (!s.slots[i].backpressured ==>
                  && r.slots[i].payloads == s.slots[i].payloads + [payload] && r.slots[i].headersQueued
                  && (if s.slots[i].headersQueued then
                        r.slots[i].head == s.slots[i].head && r.slots[i].chunked == s.slots[i].chunked
                      else r.slots[i].head == head && r.slots[i].chunked == !hasLength)
                  && r.slots[i].streaming && !r.slots[i].completed && !r.slots[i].ended
                  && (r.slots[i].backpressured <==> c.maxPendingWriteBytes <= r.pendingBytes))
  {
    hide Inv, Bytes, StreamBytes, FlushSlots, Calm, QueueHead, QueuePayload;
    OpenWhileActive(s, i, c, 0);
    var slot := s.slots[i];
    NoneEnded(s, i, c);
    if !slot.backpressured {
      PieceFlushed(s, i, head, hasLength, payload, c);
      PieceQueued(slot, i, head, hasLength, payload);
      ContentSays(QueuePayload(QueueHead(slot.(streaming := true), i, head, hasLength, false), i, payload),
                  Handle(s, Stream(i, head, hasLength, payload), c).slots[i]);
    }
  }

  /** Until it is serialized a completed answer may still be changed; a claim makes a request's answer a stream. */
  lemma AmendTaken(s: Session, i: nat, text: string, c: Config)
    requires Inv(s, c, 0)
    ensures var r := Handle(s, Amend(i, text), c);
            if Amendable(s, i) then
              && |r.slots| == |s.slots| && Output(r.slots[i]) == text
              && r.slots == s.slots[i := r.slots[i]] && r == s.(slots := r.slots)
              && SameContent(s.slots[i].(text := text), r.slots[i])
            else r == s
    ensures var r := Handle(s, Claim(i), c);
            if Active(s, i) then
              && |r.slots| == |s.slots| && r.slots[i] == s.slots[i].(claimed := true)
              && r.slots == s.slots[i := r.slots[i]] && r == s.(slots := r.slots)
            else r == s
  {
    hide Inv, Bytes;
    InvFront(s, c, 0);
  }

  /** The answer to a request that wants no body: a piece only makes it a stream. */
  lemma PieceSuppressed(s: Session, i: nat, head: string, hasLength: bool, payload: string, c: Config)
    requires Inv(s, c, 0) && Active(s, i) && s.slots[i].claimed && s.slots[i].suppressBody
    requires !s.slots[i].backpressured
    ensures var r := Handle(s, Stream(i, head, hasLength, payload), c);
            && |r.slots| == |s.slots| && r.slots[i].streaming && Output(r.slots[i]) == s.slots[i].emitted
            && r.slots == s.slots[i := r.slots[i]] && r == s.(slots := r.slots)
            && r.slots[i].streamWrites == [] && !r.slots[i].headersQueued && r.slots[i].payloads == s.slots[i].payloads
  {
    hide QueueInv, AccountInv, OrderInv, StopInv, Bytes;
    OpenWhileActive(s, i, c, 0);
    assert SlotInv(s.slots[i], i, true);
  }

  lemma NoneEnded(s: Session, i: nat, c: Config)
    requires Inv(s, c, 0) && Active(s, i)
    ensures !s.slots[i].ended
  {
    hide SlotInv, QueueInv, AccountInv, OrderInv, StopInv;
    assert SlotInv(s.slots[i], i, true);
    NotEnded(s.slots[i], i);
  }

  lemma PieceFlushed(s: Session, i: nat, head: string, hasLength: bool, payload: string, c: Config)
    requires Active(s, i) && s.slots[i].claimed && !s.closed && !s.slots[i].ended
    requires !s.slots[i].suppressBody && payload != "" && !s.slots[i].backpressured
    ensures var grown := QueuePayload(QueueHead(s.slots[i].(streaming := true), i, head, hasLength, false), i, payload);
            StreamBytes(s.slots[i]) <= StreamBytes(grown)
    ensures var r := Handle(s, Stream(i, head, hasLength, payload), c);
            var grown := QueuePayload(QueueHead(s.slots[i].(streaming := true), i, head, hasLength, false), i, payload);
            var t := FlushSlots(Grow(s, i, grown));
            && |r.slots| == |t.slots| == |s.slots| && SameContent(grown, r.slots[i]) && r.pendingBytes == t.pendingBytes
            && r.front == t.front && Calm(Grow(s, i, grown), t)
            && (r.slots[i].backpressured <==> c.maxPendingWriteBytes <= t.pendingBytes)
  {
    hide Bytes, StreamBytes, FlushSlots, QueueHead, QueuePayload;
    var slot := s.slots[i];
    var grown := QueuePayload(QueueHead(slot.(streaming := true), i, head, hasLength, false), i, payload);
    BytesGrow(slot, i, head, hasLength, payload);
    GrownFlag(slot, i, head, hasLength, payload);
    FlushCalm(Grow(s, i, grown));
  }

  lemma CalmContent(s: Session, r: Session, i: nat)
    requires Calm(s, r) && i < |s.slots|
    ensures |r.slots| == |s.slots| && SameContent(s.slots[i], r.slots[i])
  {
  }

  lemma PieceQueued(slot: Slot, i: nat, head: string, hasLength: bool, payload: string)
    requires payload != "" && !slot.completed && !slot.ended
    ensures var grown := QueuePayload(QueueHead(slot.(streaming := true), i, head, hasLength, false), i, payload);
            && grown.payloads == slot.payloads + [payload] && grown.headersQueued
            && (if slot.headersQueued then grown.head == slot.head && grown.chunked == slot.chunked
                else grown.head == head && grown.chunked == !hasLength)
            && grown.streaming && !grown.completed && !grown.ended
  {
  }

  /** Ending a claimed stream completes it, with the pieces written so far and nothing more. */
  lemma EndTaken(s: Session, i: nat, head: string, hasLength: bool, c: Config)
    requires Inv(s, c, 0) && Active(s, i) && s.slots[i].claimed
    ensures var r := Handle(s, EndStream(i, head, hasLength), c);
            && |r.slots| == |s.slots| && r.slots[i].completed && r.slots[i].ended && r.slots[i].headersQueued
            && r.slots[i].payloads == s.slots[i].payloads
            && (if s.slots[i].headersQueued then
                  r.slots[i].head == s.slots[i].head && r.slots[i].chunked == s.slots[i].chunked
                else r.slots[i].head == head && r.slots[i].chunked == !hasLength)
  {
    hide Inv, FlushSlots, StreamEnd, Done, StreamBytes, Calm, Keeps, NoNewSilent, Flushed;
    OpenWhileActive(s, i, c, 0);
    EndShape(s, i, head, hasLength, c, 0);
    var done := Done(s.slots[i], i, head, hasLength);
    DoneSays(s.slots[i], i, head, hasLength);
    var t := Grow(s, i, done);
    assert t.slots[i] == done;
    if !s.dispatching {
      FlushKeeps(t, c, 0);
      FlushCalm(t);
      CalmShape(t, FlushSlots(t));
      FlushCalm(FlushSlots(t));
      CalmOn(t, FlushSlots(t), FlushSlots(FlushSlots(t)));
      CalmContent(t, FlushSlots(FlushSlots(t)), i);
      ContentSays(done, FlushSlots(FlushSlots(t)).slots[i]);
    }
  }

  lemma HeadSays(slot: Slot, i: nat, head: string, hasLength: bool, closeAfter: bool)
    ensures var r := QueueHead(slot, i, head, hasLength, closeAfter);
            && r.headersQueued && r.payloads == slot.payloads && r.ended == slot.ended && r.completed == slot.completed
            && (if slot.headersQueued then r.head == slot.head && r.chunked == slot.chunked
                else r.head == head && r.chunked == !hasLength)
  {
  }

  lemma DoneSays(slot: Slot, i: nat, head: string, hasLength: bool)
    ensures var done := Done(slot, i, head, hasLength);
            && done.completed && done.ended && done.headersQueued && done.payloads == slot.payloads
            && (if slot.headersQueued then done.head == slot.head && done.chunked == slot.chunked
                else done.head == head && done.chunked == !hasLength)
  {
    hide QueueHead;
    HeadSays(slot.(streaming := true, ended := true), i, head, hasLength, slot.suppressBody && slot.closeAfter);
  }

  /** With every request answered, none skipped and no close on its way, writing out the queue delivers every
      response in order, whole. */
  lemma AllDelivered(s: Session, c: Config)
    requires Inv(s, c, 0) && !s.closed && s.front == |s.slots| && NoneClose(s.log, |s.log|)
    requires forall i :: 0 <= i < |s.slots| ==> !s.slots[i].dropped
    ensures var r := Run(s, Drains(|s.writes|), c);
            && r.writes == [] && |r.slots| == |s.slots| && Bytes(r.wire) == Outputs(s.slots, |s.slots|)
  {
    hide SlotInv, AccountInv, StopInv, Bytes, Outputs, Output, Emits, Run, Drains, Keeps, NoNewSilent, SameSlot;
    DrainOut(s, c);
    var r := Run(s, Drains(|s.writes|), c);
    LeadsGives(s, Drains(|s.writes|), c, r);
    FullBefore(s, |s.slots|);
    assert r.log[..|r.log|] == r.log;
  }
}
