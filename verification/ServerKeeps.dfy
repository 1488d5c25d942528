/** What no event of a server session undoes: requests that left the queue stay as they left it, and the log
    of writes only grows, at or behind the front of the queue. */
module ServerKeeps {
  import opened ServerSession
  import opened ServerOrder
  import opened ServerRuns

  // ---------------------------------------------------------------- what is kept

  predicate SameSlot(a: Slot, b: Slot) {
    b == a.(backpressured := b.backpressured)
  }

  predicate Keeps(s: Session, r: Session) {
    && s.front <= r.front <= |r.slots| && s.front <= |s.slots| <= |r.slots|
    && (forall i :: 0 <= i < s.front ==> SameSlot(s.slots[i], r.slots[i]))
    && s.log <= r.log
    && forall j :: |s.log| <= j < |r.log| ==> s.front <= r.log[j].slot
  }

  /** Between `s` and `r` no close-after response was ended under its own content-length. */
  predicate NoNewSilent(s: Session, r: Session) {
    forall i :: 0 <= i < |r.slots| && Silent(r.slots[i]) ==> i < |s.slots| && Silent(s.slots[i])
  }

  lemma KeepsOn(s: Session, t: Session, r: Session)
    requires Keeps(s, t) && Keeps(t, r)
    ensures Keeps(s, r)
  {
    forall i | 0 <= i < s.front ensures SameSlot(s.slots[i], r.slots[i]) {
      assert SameSlot(s.slots[i], t.slots[i]) && SameSlot(t.slots[i], r.slots[i]);
    }
    forall j | |s.log| <= j < |r.log| ensures s.front <= r.log[j].slot {
      if j < |t.log| {
        assert r.log[j] == t.log[j];
      }
    }
  }

  lemma NoNewSilentOn(s: Session, t: Session, r: Session)
    requires NoNewSilent(s, t) && NoNewSilent(t, r)
    ensures NoNewSilent(s, r)
  {
    hide Silent;
  }

  lemma SameSlotSays(a: Slot, b: Slot)
    requires SameSlot(a, b)
    ensures Output(b) == Output(a) && Silent(b) == Silent(a)
  {
    hide Chunks, Joined;
  }

  // ---------------------------------------------------------------- single steps

  lemma StreamKeeps(s: Session)
    requires SlotsInv(s) && !s.closed && s.front < |s.slots|
    ensures var sent := FlushStream(s);
            && Keeps(s, sent) && Keeps(s, sent.(front := sent.front + 1)) && NoNewSilent(s, sent)
            && sent.log == s.log + s.slots[s.front].streamWrites && sent.front == s.front && |sent.slots| == |s.slots|
            && sent.dispatching == s.dispatching && sent.slots[s.front].streamWrites == []
            && (forall j :: |s.log| <= j < |sent.log| ==> sent.log[j].slot == s.front)
  {
    hide Bytes, SlotInv;
    OwnWrites(s);
  }

  lemma OwnWrites(s: Session)
    requires SlotsInv(s) && s.front < |s.slots|
    ensures var slot := s.slots[s.front];
            forall j :: 0 <= j < |slot.streamWrites| ==> slot.streamWrites[j].slot == s.front
  {
    hide Bytes, Output;
    assert SlotInv(s.slots[s.front], s.front, true);
  }

  lemma WholeKeeps(s: Session)
    requires SlotsInv(s) && !s.closed && s.front < |s.slots|
    ensures var sent := FlushWhole(s);
            && Keeps(s, sent) && NoNewSilent(s, sent) && |sent.slots| == |s.slots| && sent.dispatching == s.dispatching
            && sent.log == s.log + [Write(s.front, s.slots[s.front].text, s.slots[s.front].closeAfter, true)]
  {
    hide Bytes, SlotInv;
  }

  lemma CancelKeepsPast(s: Session, outcome: Outcome)
    requires s.front <= |s.slots|
    ensures var r := CancelAll(s, outcome);
            && Keeps(s, r) && NoNewSilent(s, r) && |r.slots| == |s.slots| && r.front == |r.slots|
            && r.dispatching == s.dispatching
  {
    var r := CancelAll(s, outcome);
    forall i | 0 <= i < |r.slots| && Silent(r.slots[i]) ensures Silent(s.slots[i]) {
      assert r.slots[i] == if s.front <= i then Drop(s.slots[i], outcome) else s.slots[i];
    }
  }

  lemma PassedKeeps(s: Session, closeAfter: bool)
    requires s.front <= |s.slots|
    ensures Keeps(s, Passed(s, closeAfter)) && NoNewSilent(s, Passed(s, closeAfter))
    ensures |Passed(s, closeAfter).slots| == |s.slots| && Passed(s, closeAfter).dispatching == s.dispatching
  {
    hide CancelAll, Keeps, NoNewSilent;
    KeepsSelf(s);
    CancelKeepsPast(s, Cancelled);
  }

  lemma CloseKeeps(s: Session)
    requires s.front <= |s.slots|
    ensures Keeps(s, CloseSession(s))
  {
    hide CancelAll, Keeps, NoNewSilent;
    var u := s.(closed := true);
    KeepsSelf(s);
    AlikeKeeps(s, u);
    CancelKeepsPast(u, Cancelled);
    KeepsOn(s, u, CancelAll(u, Cancelled));
  }

  lemma UpdateKeeps(s: Session, r: Session, i: nat, slot: Slot)
    requires s.front <= i < |s.slots| && r.slots == s.slots[i := slot] && r.front == s.front && r.log == s.log
    ensures Keeps(s, r)
  {
  }

  lemma PressKeeps(s: Session, i: nat)
    requires s.front <= |s.slots| && i < |s.slots|
    ensures Keeps(s, Update(s, i, s.slots[i].(backpressured := true)))
  {
  }

  // ---------------------------------------------------------------- flushing

  /** The front of the queue waits for its handler and holds back nothing. */
  predicate Flushed(s: Session) {
    s.front < |s.slots| ==> !s.slots[s.front].completed && s.slots[s.front].streamWrites == []
  }

  /** One turn of the flush loop that lets the front slot go. */
  function Step(s: Session): (r: Session)
    requires s.front < |s.slots|
    ensures r.front <= |r.slots|
  {
    var slot := s.slots[s.front];
    if slot.streaming then
      var sent := FlushStream(s);
      Passed(sent.(front := sent.front + 1), slot.closeAfter)
    else Passed(FlushWhole(s), slot.closeAfter)
  }

  lemma StepInv(s: Session, c: Config, from: nat)
    requires Inv(s, c, from) && !s.closed && s.front < |s.slots| && s.slots[s.front].completed
    ensures var r := Step(s);
            && Inv(r, c, from) && !r.closed && s.front < r.front && |r.slots| == |s.slots|
            && r.dispatching == s.dispatching && Keeps(s, r) && NoNewSilent(s, r) && FlushSlots(s) == FlushSlots(r)
            && s.log + (if s.slots[s.front].streaming then s.slots[s.front].streamWrites
                        else [Write(s.front, s.slots[s.front].text, s.slots[s.front].closeAfter, true)]) == r.log
  {
    hide SlotInv, QueueInv, StopInv, OrderInv, AccountInv, HasCloseBefore, Silent, Bytes, FlushStream, FlushWhole,
         CancelAll, NextUnsent, NoneLeftSilent, Keeps, NoNewSilent;
    var slot := s.slots[s.front];
    FrontKept(s);
    if slot.streaming {
      StreamStep(s, c, from);
      StreamKeeps(s);
      var sent := FlushStream(s).(front := s.front + 1);
      PassedInv(sent, slot.closeAfter, c, from);
      PassedKeeps(sent, slot.closeAfter);
      NoNewSilentMoved(s, FlushStream(s), sent);
      KeepsOn(s, sent, Step(s));
      NoNewSilentOn(s, sent, Step(s));
    } else {
      WholeStep(s, c, from);
      WholeKeeps(s);
      PassedInv(FlushWhole(s), slot.closeAfter, c, from);
      PassedKeeps(FlushWhole(s), slot.closeAfter);
      KeepsOn(s, FlushWhole(s), Step(s));
      NoNewSilentOn(s, FlushWhole(s), Step(s));
    }
    PassedLog(s);
  }

  lemma NoNewSilentMoved(s: Session, t: Session, r: Session)
    requires NoNewSilent(s, t) && t.slots == r.slots
    ensures NoNewSilent(s, r)
  {
    hide Silent;
  }

  lemma PassedLog(s: Session)
    requires s.front < |s.slots|
    ensures var slot := s.slots[s.front];
            Step(s).log == if slot.streaming then FlushStream(s).log else FlushWhole(s).log
  {
    hide FlushStream, FlushWhole;
    FrontKept(s);
  }

  /** The flush loop lets go of everything that is ready and changes nothing that left before. */
  lemma {:induction false} FlushKeeps(s: Session, c: Config, from: nat)
    requires Inv(s, c, from) && !s.closed
    ensures var r := FlushSlots(s);
            && Inv(r, c, from) && !r.closed && r.dispatching == s.dispatching
            && Keeps(s, r) && NoNewSilent(s, r) && Flushed(r)
    decreases |s.slots| - s.front
  {
    hide SlotInv, QueueInv, StopInv, OrderInv, AccountInv, Silent, Bytes, FlushStream, Step, NoNewSilent, Keeps;
    FlushInv(s, c, from);
    if s.front == |s.slots| {
      KeepsSelf(s);
    } else if s.slots[s.front].completed {
      StepInv(s, c, from);
      FlushKeeps(Step(s), c, from);
      KeepsOn(s, Step(s), FlushSlots(s));
      NoNewSilentOn(s, Step(s), FlushSlots(s));
    } else if s.slots[s.front].streaming {
      StreamKeeps(s);
      StaysIncomplete(s);
    } else {
      KeepsSelf(s);
      PlainSlot(s);
    }
  }

  lemma KeepsSelf(s: Session)
    requires s.front <= |s.slots|
    ensures Keeps(s, s) && NoNewSilent(s, s)
  {
  }

  lemma StaysIncomplete(s: Session)
    requires s.front < |s.slots|
    ensures FlushStream(s).front < |FlushStream(s).slots|
    ensures FlushStream(s).slots[FlushStream(s).front].completed == s.slots[s.front].completed
  {
    hide Bytes;
  }

  lemma PlainSlot(s: Session)
    requires SlotsInv(s) && s.front < |s.slots| && !s.slots[s.front].streaming
    ensures s.slots[s.front].streamWrites == []
  {
    hide Bytes, Output;
    assert SlotInv(s.slots[s.front], s.front, true);
  }

  /** A completed front slot with something to send is in the log after the flush. */
  lemma FlushSends(s: Session, c: Config, from: nat)
    requires Inv(s, c, from) && !s.closed && s.front < |s.slots| && s.slots[s.front].completed
    requires s.slots[s.front].streaming ==> s.slots[s.front].streamWrites != []
    ensures Sent(FlushSlots(s).log, s.front)
  {
    hide Bytes, Output, Step, FlushSlots, QueueInv, StopInv, OrderInv, AccountInv, NoNewSilent;
    StepInv(s, c, from);
    var slot := s.slots[s.front];
    var more := if slot.streaming then slot.streamWrites else [Write(s.front, slot.text, slot.closeAfter, true)];
    assert more[|more| - 1].slot == s.front by {
      assert SlotInv(slot, s.front, true);
    }
    LastSent(s.log, more);
    FlushKeeps(Step(s), c, from);
    var log := FlushSlots(s).log;
    assert log == (s.log + more) + log[|s.log + more|..];
    StillSent(s.log + more, log[|s.log + more|..], s.front);
  }

  // ---------------------------------------------------------------- every event

  lemma FlushUnlessKeeps(s: Session, c: Config, from: nat)
    requires Inv(s, c, from) && !s.closed
    ensures var r := FlushUnlessDispatching(s);
            Inv(r, c, from) && !r.closed && Keeps(s, r) && r.dispatching == s.dispatching
  {
    hide Inv, FlushSlots, Keeps;
    InvFront(s, c, from);
    KeepsSelf(s);
    FlushKeeps(s, c, from);
  }

  lemma RespondKeeps(s: Session, i: nat, text: string, c: Config, from: nat)
    requires Inv(s, c, from) && Active(s, i) && !s.slots[i].claimed && !s.closed
    ensures Keeps(s, Complete(Update(s, i, s.slots[i].(text := text)), i))
  {
    hide Inv, Output, FlushSlots, Complete, Keeps, FlushUnlessDispatching, RunHooks;
    RespondShape(s, i, text, c, from);
    var u := Update(s, i, Answered(s.slots[i], text));
    UpdateKeeps(s, u, i, Answered(s.slots[i], text));
    FlushUnlessKeeps(u, c, from);
    KeepsOn(s, u, FlushUnlessDispatching(u));
  }

  lemma EndKeeps(s: Session, i: nat, head: string, hasLength: bool, c: Config, from: nat)
    requires Inv(s, c, from) && Active(s, i) && s.slots[i].claimed && !s.closed
    ensures Keeps(s, StreamEnd(s, i, head, hasLength))
  {
    hide Inv, FlushSlots, StreamEnd, StreamBytes, Done, Keeps, FlushUnlessDispatching;
    EndShape(s, i, head, hasLength, c, from);
    var done := Done(s.slots[i], i, head, hasLength);
    var u := Grow(s, i, done);
    UpdateKeeps(s, u, i, done);
    FlushUnlessKeeps(u, c, from);
    FlushUnlessKeeps(FlushUnlessDispatching(u), c, from);
    KeepsOn(s, u, FlushUnlessDispatching(u));
    KeepsOn(s, FlushUnlessDispatching(u), StreamEnd(s, i, head, hasLength));
  }

  lemma StreamWriteKeeps(s: Session, i: nat, head: string, hasLength: bool, payload: string, c: Config, from: nat)
    requires Inv(s, c, from) && Active(s, i) && s.slots[i].claimed && !s.closed
    ensures Keeps(s, StreamWrite(s, i, head, hasLength, payload, c))
  {
    hide SlotInv, Silent, FlushSlots, QueueInv, OrderInv, StopInv, AccountInv, Bytes, QueueHead, QueuePayload,
         StreamBytes, Keeps;
    var slot := s.slots[i];
    KeepsSelf(s);
    if slot.ended || slot.backpressured || slot.completed {
    } else if slot.suppressBody {
      UpdateKeeps(s, Update(s, i, slot.(streaming := true)), i, slot.(streaming := true));
    } else {
      StreamGrown(s, i, head, hasLength, payload, c, from);
      var u := Grow(s, i, QueuePayload(QueueHead(slot.(streaming := true), i, head, hasLength, false), i, payload));
      UpdateKeeps(s, u, i, u.slots[i]);
      FlushKeeps(u, c, from);
      KeepsOn(s, u, FlushSlots(u));
      PressKeeps(FlushSlots(u), i);
      KeepsOn(s, FlushSlots(u), Update(FlushSlots(u), i, FlushSlots(u).slots[i].(backpressured := true)));
    }
  }

  lemma AlikeKeeps(s: Session, r: Session)
    requires s.front <= |s.slots| == |r.slots| && r.front == s.front && r.log == s.log
    requires forall i :: 0 <= i < |s.slots| ==> SameSlot(s.slots[i], r.slots[i])
    ensures Keeps(s, r) && NoNewSilent(s, r)
  {
    hide SameSlot, Silent;
    forall i | 0 <= i < |r.slots| && Silent(r.slots[i]) ensures Silent(s.slots[i]) {
      SameSlotSays(s.slots[i], r.slots[i]);
    }
  }

  lemma WriteDoneKeeps(s: Session, ok: bool, c: Config, from: nat)
    requires Inv(s, c, from) && s.writing
    ensures Keeps(s, WriteDone(s, ok, c))
  {
    hide QueueInv, OrderInv, StopInv, AccountInv, SlotInv, Keeps, NoNewSilent, CancelAll, Silent;
    var idle := s.(writing := false);
    AlikeKeeps(s, idle);
    if s.closed {
    } else if !ok {
      CancelKeepsPast(idle, Failed);
      KeepsOn(s, idle, CancelAll(idle, Failed));
      CloseKeeps(CancelAll(idle, Failed));
      KeepsOn(s, CancelAll(idle, Failed), WriteDone(s, ok, c));
    } else if s.writes == [] {
      AlikeKeeps(s, WriteDone(s, ok, c));
    } else {
      var drained := NotifyDrains(PopWrite(idle), c);
      AlikeKeeps(s, drained);
      CloseKeeps(drained);
      KeepsOn(s, drained, CloseSession(drained));
      AlikeKeeps(s, FlushNext(drained));
    }
  }

  lemma HandleKeeps(s: Session, e: Event, c: Config, from: nat)
    requires Inv(s, c, from)
    ensures s.front <= |s.slots| && Keeps(s, Handle(s, e, c))
  {
    hide Inv, FlushSlots, Complete, StreamWrite, StreamEnd, WriteDone, CloseSession, CancelAll, Keeps;
    InvFront(s, c, from);
    KeepsSelf(s);
    match e
    case Request(closeAfter, suppressBody) => RequestKeeps(s, closeAfter, suppressBody, c);
    case DispatchBegins => AlikeKeeps(s, s.(dispatching := true));
    case DispatchEnds => DispatchKeeps(s, c, from);
    case Respond(i, text) =>
      if Active(s, i) && !s.slots[i].claimed {
        OpenWhileActive(s, i, c, from);
        RespondKeeps(s, i, text, c, from);
      }
    case Amend(i, text) => if Amendable(s, i) { UpdateKeeps(s, Handle(s, e, c), i, s.slots[i].(text := text)); }
    case Claim(i) =>
      if Active(s, i) && !s.slots[i].claimed { UpdateKeeps(s, Handle(s, e, c), i, s.slots[i].(claimed := true)); }
    case Stream(i, head, hasLength, payload) =>
      if Active(s, i) && s.slots[i].claimed {
        OpenWhileActive(s, i, c, from);
        StreamWriteKeeps(s, i, head, hasLength, payload, c, from);
      }
    case EndStream(i, head, hasLength) =>
      if Active(s, i) && s.slots[i].claimed {
        OpenWhileActive(s, i, c, from);
        EndKeeps(s, i, head, hasLength, c, from);
      }
    case Written(ok) => if s.writing { WriteDoneKeeps(s, ok, c, from); }
    case BodyTimeout =>
      CancelKeepsPast(s, Failed);
      CloseKeeps(CancelAll(s, Failed));
      KeepsOn(s, CancelAll(s, Failed), CloseSession(CancelAll(s, Failed)));
    case Close => CloseKeeps(s);
  }

  lemma OpenWhileActive(s: Session, i: nat, c: Config, from: nat)
    requires Inv(s, c, from) && Active(s, i)
    ensures !s.closed
  {
    hide SlotInv, QueueInv, AccountInv, OrderInv, StopInv;
  }

  lemma RequestKeeps(s: Session, closeAfter: bool, suppressBody: bool, c: Config)
    requires s.front <= |s.slots|
    ensures Keeps(s, NewRequest(s, closeAfter, suppressBody, c))
  {
    hide CloseSession;
    CloseKeeps(s);
  }

  lemma DispatchKeeps(s: Session, c: Config, from: nat)
    requires Inv(s, c, from)
    ensures s.front <= |s.slots| && Keeps(s, FlushSlots(s.(dispatching := false)))
  {
    hide SlotInv, QueueInv, AccountInv, OrderInv, StopInv, FlushSlots, Keeps, NoNewSilent;
    var u := s.(dispatching := false);
    AlikeKeeps(s, u);
    DispatchIgnored(s, false, c, from);
    if s.closed {
      NothingToFlush(u);
    } else {
      FlushKeeps(u, c, from);
      KeepsOn(s, u, FlushSlots(u));
    }
  }

  /** In every continuation, what left the queue stays and the log only grows. */
  lemma {:induction false} RunKeeps(s: Session, events: seq<Event>, c: Config, from: nat)
    requires Inv(s, c, from)
    ensures s.front <= |s.slots| && Keeps(s, Run(s, events, c))
    decreases |events|
  {
    hide Inv, Handle, Keeps;
    InvFront(s, c, from);
    if events == [] {
      KeepsSelf(s);
    } else {
      HandleInv(s, events[0], c, from);
      HandleKeeps(s, events[0], c, from);
      RunKeeps(Handle(s, events[0], c), events[1..], c, from);
      KeepsOn(s, Handle(s, events[0], c), Run(s, events, c));
    }
  }
}
