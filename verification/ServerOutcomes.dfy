/** With which outcome the response hooks run, and which requests get a slot. */
module ServerOutcomes {
  import opened ServerSession
  import opened ServerOrder
  import opened ServerRuns
  import opened ServerKeeps

  /** The hooks did not run in between, or ran once with this outcome. */
  predicate Ran(a: Slot, b: Slot, outcome: Outcome) {
    b.hooks == a.hooks || (a.hooks == [] && b.hooks == [outcome])
  }

  predicate Hooked(s: Session, r: Session, outcome: Outcome) {
    |s.slots| == |r.slots| && forall i :: 0 <= i < |s.slots| ==> Ran(s.slots[i], r.slots[i], outcome)
  }

  lemma HookedOn(s: Session, t: Session, r: Session, outcome: Outcome)
    requires Hooked(s, t, outcome) && Hooked(t, r, outcome)
    ensures Hooked(s, r, outcome)
  {
    forall i | 0 <= i < |s.slots| ensures Ran(s.slots[i], r.slots[i], outcome) {
      assert Ran(s.slots[i], t.slots[i], outcome) && Ran(t.slots[i], r.slots[i], outcome);
    }
  }

  lemma CancelHooked(s: Session, outcome: Outcome)
    requires s.front <= |s.slots|
    ensures Hooked(s, CancelAll(s, outcome), outcome)
  {
  }

  lemma MoveHooked(s: Session, outcome: Outcome)
    requires s.front < |s.slots|
    ensures Hooked(s, FlushStream(s), outcome) && Hooked(s, FlushWhole(s), outcome)
    ensures FlushStream(s).front == s.front && FlushWhole(s).front == s.front + 1
  {
    hide Bytes;
  }

  lemma PassedHooked(s: Session, t: Session, closeAfter: bool)
    requires Hooked(s, t, Cancelled) && t.front <= |t.slots|
    ensures Hooked(s, Passed(t, closeAfter), Cancelled) && Passed(t, closeAfter).front <= |s.slots|
    ensures Passed(t, closeAfter).front >= t.front
  {
    hide Hooked;
    CancelHooked(t, Cancelled);
    HookedSize(s, t, Cancelled);
    if closeAfter {
      HookedOn(s, t, CancelAll(t, Cancelled), Cancelled);
    }
  }

  lemma HookedSize(s: Session, r: Session, outcome: Outcome)
    requires Hooked(s, r, outcome)
    ensures |s.slots| == |r.slots|
  {
  }

  lemma HookedSelf(s: Session, r: Session, outcome: Outcome)
    requires r.slots == s.slots
    ensures Hooked(s, r, outcome)
  {
  }

  /** Moving responses to the write queue runs hooks only of those cancelled behind a close. */
  lemma {:induction false} FlushHooked(s: Session)
    requires s.front <= |s.slots|
    ensures Hooked(s, FlushSlots(s), Cancelled)
    decreases |s.slots| - s.front
  {
    hide FlushStream, FlushWhole, Passed, Hooked;
    HookedSelf(s, s, Cancelled);
    if s.front < |s.slots| {
      var slot := s.slots[s.front];
      MoveHooked(s, Cancelled);
      var sent := FlushStream(s).(front := s.front + 1);
      HookedSize(s, FlushStream(s), Cancelled);
      HookedSize(s, FlushWhole(s), Cancelled);
      HookedSelf(FlushStream(s), sent, Cancelled);
      HookedOn(s, FlushStream(s), sent, Cancelled);
      if slot.streaming && slot.completed {
        FlushOn(s, sent, slot.closeAfter);
      } else if slot.completed {
        FlushOn(s, FlushWhole(s), slot.closeAfter);
      }
    }
  }

  lemma {:induction false} FlushOn(s: Session, t: Session, closeAfter: bool)
    requires Hooked(s, t, Cancelled) && s.front < t.front <= |t.slots| == |s.slots|
    ensures Passed(t, closeAfter).front <= |t.slots|
    ensures Hooked(s, FlushSlots(Passed(t, closeAfter)), Cancelled)
    decreases |s.slots| - s.front, 0
  {
    hide FlushSlots, Hooked, Passed;
    PassedHooked(s, t, closeAfter);
    var u := Passed(t, closeAfter);
    HookedSize(s, u, Cancelled);
    FlushHooked(u);
    HookedOn(s, u, FlushSlots(u), Cancelled);
  }

  lemma CloseHooked(s: Session, outcome: Outcome)
    requires s.front <= |s.slots|
    ensures Hooked(s, CloseSession(s), Cancelled)
    ensures Hooked(s, CloseSession(CancelAll(s, outcome)), outcome)
  {
    HookedSelf(s, s, Cancelled);
  }

  predicate RanAt(s: Session, r: Session, i: nat, outcome: Outcome) {
    i < |s.slots| <= |r.slots| && Ran(s.slots[i], r.slots[i], outcome)
  }

  /** Why the hooks of slot `i` run in a step. */
  function Reason(e: Event, i: nat): Outcome {
    if (e.Respond? || e.EndStream?) && e.slot == i then Completed
    else if e.BodyTimeout? || (e.Written? && !e.ok) then Failed
    else Cancelled
  }

  lemma {:induction false} SlotFlushed(s: Session, u: Session, i: nat, j: nat, outcome: Outcome)
    requires |u.slots| == |s.slots| && u.front <= |u.slots| && i < |s.slots| && j < |s.slots|
    requires u.slots[j] == s.slots[j] || (j == i && Ran(s.slots[j], u.slots[j], outcome))
    requires j == i ==> u.slots[j].hooks != [] || outcome == Cancelled
    ensures var r := FlushUnlessDispatching(FlushUnlessDispatching(u));
            |r.slots| == |s.slots| && Ran(s.slots[j], r.slots[j], if j == i then outcome else Cancelled)
    ensures var r := FlushUnlessDispatching(u);
            |r.slots| == |s.slots| && Ran(s.slots[j], r.slots[j], if j == i then outcome else Cancelled)
  {
    hide FlushSlots;
    var t := FlushUnlessDispatching(u);
    HookedSelf(u, u, Cancelled);
    HookedSelf(t, t, Cancelled);
    FlushHooked(u);
    FlushHooked(t);
    assert Ran(u.slots[j], t.slots[j], Cancelled);
    assert Ran(t.slots[j], FlushUnlessDispatching(t).slots[j], Cancelled);
  }

  lemma WrittenHooked(s: Session, ok: bool, c: Config)
    requires s.front <= |s.slots|
    ensures Hooked(s, WriteDone(s, ok, c), if ok then Cancelled else Failed)
  {
    hide FlushNext;
    var idle := s.(writing := false);
    FlushNextSlots(NotifyDrains(idle, c));
    if s.writes != [] {
      FlushNextSlots(NotifyDrains(PopWrite(idle), c));
    }
  }

  lemma FlushNextSlots(s: Session)
    ensures FlushNext(s).slots == s.slots && FlushNext(s).front == s.front
  {
  }

  lemma StreamHooked(s: Session, i: nat, head: string, hasLength: bool, payload: string, c: Config)
    requires s.front <= i < |s.slots|
    ensures Hooked(s, StreamWrite(s, i, head, hasLength, payload, c), Cancelled)
  {
    hide FlushSlots, QueueHead, QueuePayload, StreamBytes;
    var slot := s.slots[i];
    var headed := QueueHead(slot.(streaming := true), i, head, hasLength, false);
    var grown := QueuePayload(headed, i, payload);
    BytesGrow(slot, i, head, hasLength, payload);
    SameHooks(slot.(streaming := true), i, head, hasLength, payload);
    var t := Grow(s, i, grown);
    FlushHooked(t);
    assert Hooked(s, t, Cancelled);
    HookedOn(s, t, FlushSlots(t), Cancelled);
  }

  lemma SameHooks(slot: Slot, i: nat, head: string, hasLength: bool, payload: string)
    ensures QueuePayload(QueueHead(slot, i, head, hasLength, false), i, payload).hooks == slot.hooks
  {
  }

  lemma DoneHooks(slot: Slot, i: nat, head: string, hasLength: bool)
    ensures slot.hooks == [] ==> Done(slot, i, head, hasLength).hooks == [Completed]
  {
    EndedHooks(slot, i, head, hasLength);
    hide EndedSlot;
  }

  lemma EndedHooks(slot: Slot, i: nat, head: string, hasLength: bool)
    ensures EndedSlot(slot, i, head, hasLength).hooks == slot.hooks
  {
    var close := slot.suppressBody && slot.closeAfter;
    HeadHooks(slot.(streaming := true, ended := true), i, head, hasLength, close);
    hide QueueHead;
  }

  lemma HeadHooks(slot: Slot, i: nat, head: string, hasLength: bool, closeAfter: bool)
    ensures QueueHead(slot, i, head, hasLength, closeAfter).hooks == slot.hooks
  {
  }

  lemma QueuedHooks(s: Session, i: nat, c: Config)
    requires Inv(s, c, 0) && Active(s, i)
    ensures s.slots[i].hooks == []
  {
    hide QueueInv, AccountInv, OrderInv, StopInv;
    assert SlotInv(s.slots[i], i, true);
  }

  /** In every step from a state of a run, the hooks of a response run, if they do, with the outcome the event
      gives it, and at most once. */
  lemma HookOutcomes(s: Session, e: Event, c: Config, i: nat)
    requires Inv(s, c, 0) && i < |s.slots|
    ensures s.front <= |s.slots|
    ensures RanAt(s, Handle(s, e, c), i, Reason(e, i))
  {
    InvFront(s, c, 0);
    hide Inv, Handle, Hooked, Ran, RanAt;
    if e.Respond? {
      RespondHooked(s, e.slot, e.text, i, c);
    } else if e.EndStream? {
      EndHooked(s, e.slot, e.head, e.hasLength, i, c);
    } else {
      NotCompleted(s, e, c, i);
    }
  }

  lemma NotCompleted(s: Session, e: Event, c: Config, i: nat)
    requires s.front <= |s.slots| && i < |s.slots| && !e.Respond? && !e.EndStream?
    ensures RanAt(s, Handle(s, e, c), i, Reason(e, i))
  {
    hide Handle, Hooked, Ran, RanAt;
    if e.Request? {
      RequestHooked(s, e.closeAfter, e.suppressBody, c, i);
    } else if e.Stream? {
      PieceHooked(s, e.slot, e.head, e.hasLength, e.payload, c);
      HookedAt(s, Handle(s, e, c), Cancelled, i);
    } else if e.Written? || e.BodyTimeout? || e.Close? {
      ClosingHooked(s, e, c);
      HookedAt(s, Handle(s, e, c), Reason(e, i), i);
    } else {
      OthersHooked(s, e, c, i);
    }
  }

  lemma HookedAt(s: Session, r: Session, outcome: Outcome, i: nat)
    requires Hooked(s, r, outcome) && i < |s.slots|
    ensures RanAt(s, r, i, outcome)
  {
  }

  lemma ClosingHooked(s: Session, e: Event, c: Config)
    requires s.front <= |s.slots| && (e.Written? || e.BodyTimeout? || e.Close?)
    ensures Hooked(s, Handle(s, e, c), Reason(e, 0))
  {
    hide WriteDone, CloseSession, CancelAll, Hooked;
    HookedSelf(s, s, Reason(e, 0));
    CloseHooked(s, Failed);
    if e.Written? {
      WrittenHooked(s, e.ok, c);
    }
  }

  lemma OthersHooked(s: Session, e: Event, c: Config, i: nat)
    requires s.front <= |s.slots| && i < |s.slots|
    requires e.DispatchBegins? || e.DispatchEnds? || e.Amend? || e.Claim?
    ensures RanAt(s, Handle(s, e, c), i, Cancelled)
  {
    hide FlushSlots, Update, Active, Amendable;
    FlushHooked(s.(dispatching := false));
    if e.Amend? || e.Claim? {
      UpdateHooked(s, e.slot, i);
    }
  }

  lemma UpdateHooked(s: Session, k: nat, i: nat)
    requires i < |s.slots|
    ensures k < |s.slots| ==> forall slot: Slot :: slot.hooks == s.slots[k].hooks ==>
              Update(s, k, slot).slots[i].hooks == s.slots[i].hooks && |Update(s, k, slot).slots| == |s.slots|
    ensures Active(s, k) || Amendable(s, k) ==> k < |s.slots|
  {
  }

  lemma PieceHooked(s: Session, k: nat, head: string, hasLength: bool, payload: string, c: Config)
    requires s.front <= |s.slots|
    ensures Hooked(s, Handle(s, Stream(k, head, hasLength, payload), c), Cancelled)
  {
    hide StreamWrite;
    HookedSelf(s, s, Cancelled);
    if Active(s, k) && s.slots[k].claimed {
      StreamHooked(s, k, head, hasLength, payload, c);
    }
  }

  lemma RespondHooked(s: Session, k: nat, text: string, i: nat, c: Config)
    requires Inv(s, c, 0) && i < |s.slots|
    ensures s.front <= |s.slots|
    ensures var r := Handle(s, Respond(k, text), c);
            RanAt(s, r, i, if k == i then Completed else Cancelled)
  {
    InvFront(s, c, 0);
    hide Inv, FlushSlots, Complete, Answered;
    if Active(s, k) && !s.slots[k].claimed {
      OpenWhileActive(s, k, c, 0);
      QueuedHooks(s, k, c);
      RespondShape(s, k, text, c, 0);
      AnsweredHooks(s.slots[k], text);
      SlotFlushed(s, Update(s, k, Answered(s.slots[k], text)), k, i, Completed);
    }
  }

  lemma EndHooked(s: Session, k: nat, head: string, hasLength: bool, i: nat, c: Config)
    requires Inv(s, c, 0) && i < |s.slots|
    ensures s.front <= |s.slots|
    ensures var r := Handle(s, EndStream(k, head, hasLength), c);
            RanAt(s, r, i, if k == i then Completed else Cancelled)
  {
    InvFront(s, c, 0);
    hide Inv, Handle, FlushUnlessDispatching, Done, StreamBytes, Ran, RanAt, Grow, Active;
    if Active(s, k) && s.slots[k].claimed {
      QueuedHooks(s, k, c);
      EndHandled(s, k, head, hasLength, c);
      DoneFlushed(s, k, head, hasLength, i);
    } else {
      EndIgnored(s, k, head, hasLength, c);
      RanSelf(s, i, if k == i then Completed else Cancelled);
    }
  }

  lemma EndIgnored(s: Session, k: nat, head: string, hasLength: bool, c: Config)
    requires s.front <= |s.slots|
    ensures !(Active(s, k) && s.slots[k].claimed) ==> Handle(s, EndStream(k, head, hasLength), c) == s
  {
    hide StreamEnd;
  }

  lemma EndHandled(s: Session, k: nat, head: string, hasLength: bool, c: Config)
    requires Inv(s, c, 0) && Active(s, k) && s.slots[k].claimed
    ensures s.front <= |s.slots| && k < |s.slots|
    ensures var done := Done(s.slots[k], k, head, hasLength);
            && StreamBytes(s.slots[k]) <= StreamBytes(done)
            && Handle(s, EndStream(k, head, hasLength), c)
               == FlushUnlessDispatching(FlushUnlessDispatching(Grow(s, k, done)))
  {
    hide Inv, FlushUnlessDispatching, StreamEnd, Done, StreamBytes, Grow;
    InvFront(s, c, 0);
    OpenWhileActive(s, k, c, 0);
    EndShape(s, k, head, hasLength, c, 0);
  }

  lemma RanSelf(s: Session, i: nat, outcome: Outcome)
    requires i < |s.slots|
    ensures RanAt(s, s, i, outcome)
  {
  }

  lemma DoneFlushed(s: Session, k: nat, head: string, hasLength: bool, i: nat)
    requires s.front <= |s.slots| && k < |s.slots| && i < |s.slots| && s.slots[k].hooks == []
    requires StreamBytes(s.slots[k]) <= StreamBytes(Done(s.slots[k], k, head, hasLength))
    ensures var u := Grow(s, k, Done(s.slots[k], k, head, hasLength));
            RanAt(s, FlushUnlessDispatching(FlushUnlessDispatching(u)), i, if k == i then Completed else Cancelled)
  {
    hide FlushUnlessDispatching, Done, StreamBytes;
    DoneHooks(s.slots[k], k, head, hasLength);
    SlotFlushed(s, Grow(s, k, Done(s.slots[k], k, head, hasLength)), k, i, Completed);
  }

  lemma AnsweredHooks(slot: Slot, text: string)
    ensures slot.hooks == [] ==> Answered(slot, text).hooks == [Completed]
  {
  }

  lemma RequestHooked(s: Session, closeAfter: bool, suppressBody: bool, c: Config, i: nat)
    requires s.front <= |s.slots| && i < |s.slots|
    ensures var r := Handle(s, Request(closeAfter, suppressBody), c);
            RanAt(s, r, i, Cancelled)
  {
    hide CloseSession;
    CloseHooked(s, Cancelled);
  }

  /** A session that is shut down, for whatever reason, runs the hooks of every response that was still to come,
      with the outcome of that reason. */
  lemma ShutRunsHooks(s: Session, e: Event, c: Config, i: nat)
    requires Inv(s, c, 0) && Active(s, i)
    requires e.BodyTimeout? || e.Close? || (e == Written(false) && s.writing)
             || (e.Request? && c.maxPendingResponses <= |s.slots| - s.front + s.pendingResponses)
    ensures s.front <= |s.slots|
    ensures var r := Handle(s, e, c);
            Stopped(s, r, i, Reason(e, i))
  {
    OpenWhileActive(s, i, c, 0);
    QueuedHooks(s, i, c);
    InvFront(s, c, 0);
    ActiveSays(s, i);
    hide Inv, Handle, Stopped, Active;
    ShutStops(s, e, c, i);
  }

  lemma ShutStops(s: Session, e: Event, c: Config, i: nat)
    requires s.front <= i < |s.slots| && !s.slots[i].completed && s.slots[i].hooks == [] && !s.closed
    requires e.BodyTimeout? || e.Close? || (e == Written(false) && s.writing)
             || (e.Request? && c.maxPendingResponses <= |s.slots| - s.front + s.pendingResponses)
    ensures Stopped(s, Handle(s, e, c), i, Reason(e, i))
  {
    hide Handle, Stopped;
    if e.Written? {
      FailedRuns(s, c, i);
    } else if e.Request? {
      FullRuns(s, e.closeAfter, e.suppressBody, c, i);
    } else {
      ClosedRuns(s, c, i);
    }
  }

  lemma ActiveSays(s: Session, i: nat)
    requires Active(s, i)
    ensures s.front <= i < |s.slots| && !s.slots[i].completed
  {
  }

  predicate Stopped(s: Session, r: Session, i: nat, outcome: Outcome) {
    && r.closed && r.front == |r.slots| == |s.slots| && i < |s.slots|
    && r.slots[i].dropped && r.slots[i].hooks == [outcome]
  }

  lemma FailedRuns(s: Session, c: Config, i: nat)
    requires s.front <= i < |s.slots| && !s.slots[i].completed && s.slots[i].hooks == [] && s.writing && !s.closed
    ensures Stopped(s, Handle(s, Written(false), c), i, Failed)
  {
    hide CancelAll, CloseSession;
    CancelRuns(s.(writing := false), Failed, i);
  }

  lemma FullRuns(s: Session, closeAfter: bool, suppressBody: bool, c: Config, i: nat)
    requires s.front <= i < |s.slots| && !s.slots[i].completed && s.slots[i].hooks == [] && !s.closed
    requires c.maxPendingResponses <= |s.slots| - s.front + s.pendingResponses
    ensures Stopped(s, Handle(s, Request(closeAfter, suppressBody), c), i, Cancelled)
  {
    hide CancelAll, CloseSession;
    CancelRuns(s, Failed, i);
  }

  lemma ClosedRuns(s: Session, c: Config, i: nat)
    requires s.front <= i < |s.slots| && !s.slots[i].completed && s.slots[i].hooks == [] && !s.closed
    ensures Stopped(s, Handle(s, BodyTimeout, c), i, Failed) && Stopped(s, Handle(s, Close, c), i, Cancelled)
  {
    hide CancelAll, CloseSession;
    CancelRuns(s, Failed, i);
  }

  lemma CancelRuns(s: Session, outcome: Outcome, i: nat)
    requires s.front <= i < |s.slots| && !s.slots[i].completed && s.slots[i].hooks == [] && !s.closed
    ensures Stopped(s, CloseSession(CancelAll(s, outcome)), i, outcome)
    ensures Stopped(s, CloseSession(s), i, Cancelled)
  {
  }

  /** A request gets its slot behind all others, empty and waiting for its answer, exactly while fewer than the
      maximum of responses are pending; otherwise the session is closed. Nothing else changes. */
  lemma RequestTaken(s: Session, closeAfter: bool, suppressBody: bool, c: Config)
    requires Inv(s, c, 0) && !s.closed
    ensures s.front <= |s.slots|
    ensures var r, n := Handle(s, Request(closeAfter, suppressBody), c), |s.slots|;
            if n - s.front + s.pendingResponses < c.maxPendingResponses then
              && |r.slots| == n + 1 && r.slots[..n] == s.slots && Active(r, n)
              && r.slots[n].closeAfter == closeAfter && r.slots[n].suppressBody == suppressBody
              && !r.slots[n].claimed && !r.slots[n].backpressured && Output(r.slots[n]) == ""
              && r == s.(slots := r.slots)
            else
              r.closed && |r.slots| == n && forall i :: 0 <= i < n && !Active(s, i) ==> r.slots[i].hooks == s.slots[i].hooks
  {
    InvFront(s, c, 0);
    hide Inv;
  }
}
