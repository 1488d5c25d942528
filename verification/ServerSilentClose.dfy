/** The one way a pipelined response is skipped, and exactly when it happens: a close-after response streamed
    under its own content-length drops what is queued behind it, but nothing makes the connection close. */
module ServerSilentClose {
  import opened Text
  import opened ServerSession
  import opened ServerOrder
  import opened ServerRuns
  import opened ServerKeeps
  import Chunked

  // ---------------------------------------------------------------- runs

  lemma {:induction false} RunThen(s: Session, a: seq<Event>, b: seq<Event>, c: Config)
    requires s.front <= |s.slots|
    ensures Run(s, a + b, c) == Run(Run(s, a, c), b, c)
    decreases |a|
  {
    hide Handle;
    if a == [] {
      assert a + b == b;
    } else {
      assert (a + b)[1..] == a[1..] + b;
      RunThen(Handle(s, a[0], c), a[1..], b, c);
    }
  }

  lemma RunOne(s: Session, e: Event, c: Config)
    requires s.front <= |s.slots|
    ensures Run(s, [e], c) == Handle(s, e, c)
  {
    hide Handle;
    assert [e][1..] == [];
  }

  /** Events that lead from `s` to a state that still has the invariants, with nothing ended silently. */
  predicate Leads(s: Session, events: seq<Event>, c: Config, r: Session) {
    && s.front <= |s.slots| && r == Run(s, events, c) && Inv(r, c, 0) && Keeps(s, r) && NoNewSilent(s, r)
  }

  lemma LeadsOn(s: Session, a: seq<Event>, t: Session, b: seq<Event>, c: Config, r: Session)
    requires Leads(s, a, c, t) && Leads(t, b, c, r)
    ensures Leads(s, a + b, c, r)
  {
    hide Inv, Keeps, NoNewSilent, Run;
    RunThen(s, a, b, c);
    KeepsOn(s, t, r);
    NoNewSilentOn(s, t, r);
  }

  lemma LeadsNowhere(s: Session, c: Config)
    requires Inv(s, c, 0)
    ensures Leads(s, [], c, s)
  {
    hide Inv, Keeps, NoNewSilent, Handle;
    InvFront(s, c, 0);
    KeepsSelf(s);
  }

  lemma LeadsBy(s: Session, e: Event, c: Config)
    requires Inv(s, c, 0) && s.front <= |s.slots| && NoNewSilent(s, Handle(s, e, c))
    ensures Leads(s, [e], c, Handle(s, e, c))
  {
    hide Inv, Keeps, NoNewSilent, Handle, Run;
    HandleInv(s, e, c, 0);
    HandleKeeps(s, e, c, 0);
    RunOne(s, e, c);
  }

  // ---------------------------------------------------------------- draining the write queue

  function Drains(k: nat): seq<Event> {
    if k == 0 then [] else [Written(true)] + Drains(k - 1)
  }

  /** `r` is `s` after `k` of its writes went out. */
  predicate DrainedBy(s: Session, k: nat, r: Session) {
    && !r.closed && k <= |s.writes| && r.writes == s.writes[k..] && r.log == s.log && r.front == s.front
    && r.dispatching == s.dispatching && |r.slots| == |s.slots|
    && forall i :: 0 <= i < |s.slots| ==> SameSlot(s.slots[i], r.slots[i])
  }

  lemma DrainOne(s: Session, c: Config)
    requires Inv(s, c, 0) && !s.closed && s.writes != [] && !s.writes[0].closeAfter
    ensures s.front <= |s.slots|
    ensures var r := Handle(s, Written(true), c);
            Leads(s, [Written(true)], c, r) && DrainedBy(s, 1, r)
  {
    hide Inv, Handle, Keeps, NoNewSilent, Leads, SameSlot;
    InvFront(s, c, 0);
    DrainShape(s, c);
    AlikeKeeps(s, Handle(s, Written(true), c));
    LeadsBy(s, Written(true), c);
  }

  lemma DrainShape(s: Session, c: Config)
    requires Inv(s, c, 0) && !s.closed && s.writes != [] && !s.writes[0].closeAfter && s.front <= |s.slots|
    ensures DrainedBy(s, 1, Handle(s, Written(true), c))
  {
    hide SlotsInv, OrderInv, StopInv, AccountInv, PopWrite;
    var r := Popped(s, c);
    PopShape(s.(writing := false));
    assert Handle(s, Written(true), c) == FlushNext(r);
  }

  lemma PopShape(s: Session)
    requires s.writes != []
    ensures var r := PopWrite(s);
            r == s.(writes := s.writes[1..], pendingBytes := r.pendingBytes, pendingResponses := r.pendingResponses)
  {
  }

  lemma {:induction false} DrainMany(s: Session, k: nat, c: Config)
    requires Inv(s, c, 0) && !s.closed && k <= |s.writes| && forall i :: 0 <= i < k ==> !s.writes[i].closeAfter
    ensures s.front <= |s.slots|
    ensures var r := Run(s, Drains(k), c);
            Leads(s, Drains(k), c, r) && DrainedBy(s, k, r)
    decreases k
  {
    hide Inv, Handle, Keeps, NoNewSilent, SameSlot;
    InvFront(s, c, 0);
    if k == 0 {
      LeadsNowhere(s, c);
      DrainedNone(s);
    } else {
      DrainOne(s, c);
      var t := Handle(s, Written(true), c);
      assert forall i :: 0 <= i < k - 1 ==> t.writes[i] == s.writes[i + 1];
      DrainMany(t, k - 1, c);
      LeadsOn(s, [Written(true)], t, Drains(k - 1), c, Run(t, Drains(k - 1), c));
      DrainedOn(s, t, k - 1, Run(t, Drains(k - 1), c));
    }
  }

  lemma DrainedNone(s: Session)
    requires !s.closed
    ensures DrainedBy(s, 0, s)
  {
  }

  lemma DrainedOn(s: Session, t: Session, k: nat, r: Session)
    requires DrainedBy(s, 1, t) && DrainedBy(t, k, r)
    ensures DrainedBy(s, k + 1, r)
  {
    assert s.writes[1..][k..] == s.writes[k + 1..];
    forall i | 0 <= i < |s.slots| ensures SameSlot(s.slots[i], r.slots[i]) {
      assert SameSlot(s.slots[i], t.slots[i]) && SameSlot(t.slots[i], r.slots[i]);
    }
  }

  /** Everything up to a write with no closing write before it can be sent. */
  lemma DrainTo(s: Session, j: nat, c: Config) returns (k: nat)
    requires Inv(s, c, 0) && !s.closed && j < |s.log| && NoneClose(s.log, j)
    ensures s.front <= |s.slots|
    ensures var r := Run(s, Drains(k), c);
            && Leads(s, Drains(k), c, r) && DrainedBy(s, k, r)
            && j < |r.wire| <= |s.log| && r.wire == s.log[..|r.wire|] && (|s.wire| <= j ==> |r.wire| == j + 1)
  {
    hide SlotsInv, OrderInv, StopInv, AccountInv, Keeps, NoNewSilent, SameSlot, Run, Drains;
    var base := |s.log| - |s.writes|;
    k := if j < base then 0 else j - base;
    assert forall i :: 0 <= i < k ==> s.writes[i] == s.log[base + i];
    DrainMany(s, k, c);
  }

  /** With no closing write in the log everything can be sent. */
  lemma DrainOut(s: Session, c: Config)
    requires Inv(s, c, 0) && !s.closed && NoneClose(s.log, |s.log|)
    ensures s.front <= |s.slots|
    ensures var r := Run(s, Drains(|s.writes|), c);
            Leads(s, Drains(|s.writes|), c, r) && DrainedBy(s, |s.writes|, r)
  {
    hide SlotsInv, OrderInv, StopInv, AccountInv, Keeps, NoNewSilent, SameSlot, Run, Drains;
    var base := |s.log| - |s.writes|;
    assert forall i :: 0 <= i < |s.writes| ==> s.writes[i] == s.log[base + i];
    DrainMany(s, |s.writes|, c);
  }

  // ---------------------------------------------------------------- answering behind a skipped response

  /** Slot `d` was skipped with something to send and no closing write before it. */
  predicate Skipped(s: Session, d: nat) {
    d < |s.slots| && s.slots[d].dropped && Output(s.slots[d]) != "" && !HasCloseBefore(s.log, d)
  }

  lemma SkippedLeft(s: Session, d: nat, c: Config)
    requires Inv(s, c, 0) && !s.closed && Skipped(s, d)
    ensures d < s.front && s.slots[d].emitted == ""
  {
    hide QueueInv, AccountInv, OrderInv, Bytes, Output, HasCloseBefore;
    assert SlotInv(s.slots[d], d, s.front <= d);
  }

  lemma SkippedStays(s: Session, r: Session, d: nat)
    requires Keeps(s, r) && Skipped(s, d) && d < s.front
    ensures Skipped(r, d) && r.slots[d].emitted == s.slots[d].emitted
  {
    hide Output;
    assert SameSlot(s.slots[d], r.slots[d]);
    SameSlotSays(s.slots[d], r.slots[d]);
    SameClosesBehind(s.log, r.log, s.front, d);
  }

  lemma SameClosesBehind(log: seq<Write>, more: seq<Write>, front: nat, d: nat)
    requires log <= more && d < front && forall j :: |log| <= j < |more| ==> front <= more[j].slot
    ensures HasCloseBefore(more, d) ==> HasCloseBefore(log, d)
  {
    if HasCloseBefore(more, d) {
      var j :| 0 <= j < |more| && more[j].closeAfter && more[j].slot < d;
      assert more[j] == log[j];
    }
  }

  /** No request behind the skipped one has written yet. */
  predicate NoneBehind(log: seq<Write>, d: nat) {
    forall j :: 0 <= j < |log| ==> log[j].slot <= d
  }

  /** Then nothing in the log closes. */
  lemma NoneBehindCloses(s: Session, d: nat, n: nat, c: Config)
    requires Inv(s, c, 0) && Skipped(s, d) && n <= |s.log| && NoneBehind(s.log[..n], d)
    ensures NoneClose(s.log, n)
  {
    hide QueueInv, AccountInv, SlotInv, Bytes, Output, Emits, Sorted;
    forall j | 0 <= j < n ensures !s.log[j].closeAfter {
      assert s.log[..n][j] == s.log[j];
      assert CloseMark(s, j);
    }
  }

  /** The first request behind slot `d` in the log. */
  lemma {:induction false} FirstBehind(log: seq<Write>, d: nat) returns (j: nat)
    requires !NoneBehind(log, d)
    ensures j < |log| && log[j].slot > d && NoneBehind(log[..j], d)
  {
    var init := log[..|log| - 1];
    if NoneBehind(init, d) {
      j := |log| - 1;
    } else {
      j := FirstBehind(init, d);
      assert init[..j] == log[..j];
    }
  }

  /** Once a request behind has a write in the log, that write can be sent. */
  lemma SendBehind(s: Session, d: nat, c: Config) returns (events: seq<Event>)
    requires Inv(s, c, 0) && !s.closed && Skipped(s, d) && !NoneBehind(s.log, d)
    ensures s.front <= |s.slots|
    ensures var r := Run(s, events, c); Leads(s, events, c, r) && !InOrder(r)
  {
    hide Inv, Run, Keeps, NoNewSilent, Drains, Output, Skipped, NoneClose, SameSlot;
    var j := FirstBehind(s.log, d);
    NoneBehindCloses(s, d, j, c);
    var k := DrainTo(s, j, c);
    events := Drains(k);
    var r := Run(s, events, c);
    SkippedLeft(s, d, c);
    SkippedStays(s, r, d);
    assert r.wire[j] == s.log[j];
    SkippedShows(r, d, j);
  }

  lemma SkippedShows(r: Session, d: nat, j: nat)
    requires Skipped(r, d) && r.slots[d].emitted == "" && j < |r.wire| && d < r.wire[j].slot
    ensures !InOrder(r)
  {
    hide Output;
  }

  /** The front request has not been answered at all: its handler may still do so. */
  lemma AnswerFront(s: Session, c: Config) returns (e: Event)
    requires Inv(s, c, 0) && !s.closed && !s.dispatching && s.front < |s.slots| && Flushed(s) && !Sent(s.log, s.front)
    ensures s.front <= |s.slots|
    ensures var r := Handle(s, e, c); Leads(s, [e], c, r) && !r.closed && Sent(r.log, s.front)
  {
    hide Inv, Handle, Keeps, NoNewSilent, Run;
    FrontActive(s, c);
    e := if s.slots[s.front].claimed then EndStream(s.front, "", false) else Respond(s.front, "");
    if s.slots[s.front].claimed {
      EndsFront(s, c);
    } else {
      RespondsFront(s, c);
    }
    LeadsBy(s, e, c);
  }

  lemma FrontActive(s: Session, c: Config)
    requires Inv(s, c, 0) && s.front < |s.slots| && Flushed(s) && !Sent(s.log, s.front)
    ensures Active(s, s.front) && !s.slots[s.front].headersQueued
  {
    hide QueueInv, AccountInv, OrderInv, Bytes, Output, Sent;
    assert SlotInv(s.slots[s.front], s.front, true);
  }

  lemma RespondsFront(s: Session, c: Config)
    requires Inv(s, c, 0) && !s.closed && !s.dispatching && Active(s, s.front) && !s.slots[s.front].claimed
    ensures var r := Handle(s, Respond(s.front, ""), c);
            NoNewSilent(s, r) && !r.closed && Sent(r.log, s.front)
  {
    hide Inv, Output, FlushSlots, Complete, Keeps, NoNewSilent, Silent, Sent;
    RespondShape(s, s.front, "", c, 0);
    var u := Update(s, s.front, Answered(s.slots[s.front], ""));
    FlushKeeps(u, c, 0);
    FlushSends(u, c, 0);
    NotStreaming(u.slots[s.front]);
    NotSilentOneSlot(s, u, s.front);
    NoNewSilentOn(s, u, FlushSlots(u));
  }

  lemma NotStreaming(slot: Slot)
    requires !slot.streaming
    ensures !Silent(slot)
  {
  }

  lemma NotSilentOneSlot(s: Session, r: Session, i: nat)
    requires i < |s.slots| == |r.slots| && !Silent(r.slots[i]) && r.slots == s.slots[i := r.slots[i]]
    ensures NoNewSilent(s, r)
  {
    hide Silent;
  }

  lemma EndsFront(s: Session, c: Config)
    requires Inv(s, c, 0) && !s.closed && !s.dispatching && Active(s, s.front) && s.slots[s.front].claimed
    requires !s.slots[s.front].headersQueued
    ensures var r := Handle(s, EndStream(s.front, "", false), c);
            NoNewSilent(s, r) && !r.closed && Sent(r.log, s.front)
  {
    hide Inv, Output, FlushSlots, StreamEnd, Keeps, NoNewSilent, Silent, Sent, Bytes, Done, StreamBytes, SlotInv;
    var f := s.front;
    EndShape(s, f, "", false, c, 0);
    var done := Done(s.slots[f], f, "", false);
    var u := Grow(s, f, done);
    HeadlessDone(s.slots[f], f, "", false);
    FlushKeeps(u, c, 0);
    FlushSends(u, c, 0);
    FlushKeeps(FlushSlots(u), c, 0);
    NotSilentOneSlot(s, u, f);
    NoNewSilentOn(s, u, FlushSlots(u));
    NoNewSilentOn(s, FlushSlots(u), FlushSlots(FlushSlots(u)));
    var log := FlushSlots(FlushSlots(u)).log;
    FlushLog(FlushSlots(u), FlushSlots(FlushSlots(u)), f);
  }

  lemma FlushLog(s: Session, r: Session, i: nat)
    requires Keeps(s, r) && Sent(s.log, i)
    ensures Sent(r.log, i)
  {
    assert r.log == s.log + r.log[|s.log|..];
    StillSent(s.log, r.log[|s.log|..], i);
  }

  /** A chunked stream ended before its head was queued. */
  lemma HeadlessDone(slot: Slot, i: nat, head: string, hasLength: bool)
    requires !slot.headersQueued && !hasLength
    ensures var done := Done(slot, i, head, hasLength);
            done.completed && done.streaming && done.streamWrites != [] && !Silent(done)
  {
    hide Bytes;
    var ended := EndedSlot(slot, i, head, hasLength);
    assert |ended.streamWrites| > |slot.streamWrites|;
    assert Done(slot, i, head, hasLength) == RunHooks(ended.(completed := true), Completed);
  }

  // ---------------------------------------------------------------- a new request

  lemma DispatchOver(s: Session, c: Config)
    requires Inv(s, c, 0) && !s.closed
    ensures s.front <= |s.slots|
    ensures var r := Handle(s, DispatchEnds, c);
            Leads(s, [DispatchEnds], c, r) && !r.closed && !r.dispatching && Flushed(r)
  {
    hide Inv, Keeps, NoNewSilent, FlushSlots, Leads;
    InvFront(s, c, 0);
    var u := s.(dispatching := false);
    DispatchIgnored(s, false, c, 0);
    FlushKeeps(u, c, 0);
    SameSlotsSilent(s, u);
    NoNewSilentOn(s, u, FlushSlots(u));
    LeadsBy(s, DispatchEnds, c);
  }

  lemma SameSlotsSilent(s: Session, r: Session)
    requires r.slots == s.slots
    ensures NoNewSilent(s, r)
  {
    hide Silent;
  }

  /** The next request and its answer, with nothing else queued: the text goes straight out. */
  function Fresh(text: string): Slot {
    Answered(NewSlot(false, false), text).(emitted := text)
  }

  lemma AsksAndAnswers(s: Session, text: string, c: Config)
    requires Inv(s, c, 0) && !s.closed && !s.dispatching && s.front == |s.slots| && s.writes == []
    requires c.maxPendingResponses >= 1
    ensures var events := [Request(false, false), Respond(|s.slots|, text)];
            var w := Write(|s.slots|, text, false, true);
            var r := Run(s, events, c);
            && Leads(s, events, c, r) && !r.closed
            && r.slots == s.slots + [Fresh(text)] && r.wire == s.log + [w] && r.log == s.log + [w]
  {
    hide Inv, Keeps, NoNewSilent, Leads, Silent, Run, Handle, Bytes;
    var n := |s.slots|;
    InvFront(s, c, 0);
    AsksNext(s, c);
    var t := s.(slots := s.slots + [NewSlot(false, false)]);
    LeadsBy(s, Request(false, false), c);
    LeadsGives(s, [Request(false, false)], c, t);
    AnswersNext(s, text, c);
    LeadsBy(t, Respond(n, text), c);
    var e, f := Request(false, false), Respond(n, text);
    assert [e, f] == [e] + [f];
    LeadsOn(s, [e], t, [f], c, Handle(t, f, c));
    LeadsRun(s, [e, f], c, Handle(t, f, c));
  }

  lemma LeadsRun(s: Session, events: seq<Event>, c: Config, r: Session)
    requires Leads(s, events, c, r)
    ensures s.front <= |s.slots| && r == Run(s, events, c)
  {
    hide Inv, Keeps, NoNewSilent, Run;
  }

  lemma AsksNext(s: Session, c: Config)
    requires Inv(s, c, 0) && !s.closed && s.front == |s.slots| && s.writes == [] && c.maxPendingResponses >= 1
    ensures var t := Handle(s, Request(false, false), c);
            t == s.(slots := s.slots + [NewSlot(false, false)]) && NoNewSilent(s, t)
  {
    hide SlotInv, OrderInv, StopInv, QueueInv, Bytes;
  }

  lemma AnswersNext(s: Session, text: string, c: Config)
    requires Inv(s, c, 0) && !s.closed && !s.dispatching && s.front == |s.slots| && s.writes == []
    ensures var t := s.(slots := s.slots + [NewSlot(false, false)]);
            var w := Write(|s.slots|, text, false, true);
            var r := Handle(t, Respond(|s.slots|, text), c);
            && NoNewSilent(t, r) && !r.closed
            && r.slots == s.slots + [Fresh(text)] && r.wire == s.log + [w] && r.log == s.log + [w]
  {
    hide SlotsInv, OrderInv, StopInv, AccountInv, Bytes, NoNewSilent, Silent;
    var n, w := |s.slots|, Write(|s.slots|, text, false, true);
    var done := Answered(NewSlot(false, false), text);
    var t := s.(slots := s.slots + [NewSlot(false, false)]);
    var u := s.(slots := s.slots + [done]);
    assert t.slots[n := done] == u.slots;
    assert Update(Update(t, n, t.slots[n].(text := text)), n, done) == u;
    assert u.slots[n := Fresh(text)] == s.slots + [Fresh(text)];
    assert s.log[..|s.log|] == s.log;
    assert [] + [w] == [w];
    var r := FlushWhole(u);
    assert FlushSlots(u) == FlushSlots(r) == r;
    FreshLoud(text);
    NotSilentOneSlot(t, r, n);
  }

  lemma FreshLoud(text: string)
    ensures !Silent(Fresh(text)) && Output(Fresh(text)) == text
  {
  }

  // ---------------------------------------------------------------- the order of responses

  /** With nothing held back at the front, some continuation has a write behind the skipped response. */
  lemma WriteBehind(s: Session, d: nat, c: Config) returns (events: seq<Event>, r: Session)
    requires Inv(s, c, 0) && !s.closed && !s.dispatching && Flushed(s) && Skipped(s, d) && c.maxPendingResponses >= 1
    ensures Leads(s, events, c, r) && !r.closed && !NoneBehind(r.log, d)
  {
    hide Inv, Run, Handle, Keeps, NoNewSilent, Output, Skipped, Drains, NoneClose, Sent, Leads, NoneBehind, SameSlot,
         Fresh, Flushed, DrainedBy;
    SkippedLeft(s, d, c);
    InvFront(s, c, 0);
    if !NoneBehind(s.log, d) {
      LeadsNowhere(s, c);
      events, r := [], s;
    } else if s.front < |s.slots| {
      FrontUnsent(s.log, d, s.front);
      var e := AnswerFront(s, c);
      events, r := [e], Handle(s, e, c);
      SentBehind(r.log, d, s.front);
    } else {
      WholeLog(s.log);
      NoneBehindCloses(s, d, |s.log|, c);
      DrainOut(s, c);
      var k := |s.writes|;
      var t := Run(s, Drains(k), c);
      LeadsGives(s, Drains(k), c, t);
      AllDrained(s, t);
      AsksAndAnswers(t, "", c);
      var more := [Request(false, false), Respond(|t.slots|, "")];
      events, r := Drains(k) + more, Run(t, more, c);
      LeadsOn(s, Drains(k), t, more, c, r);
      LastBehind(t.log, Write(|t.slots|, "", false, true), d);
    }
  }

  lemma FrontUnsent(log: seq<Write>, d: nat, i: nat)
    requires NoneBehind(log, d) && d < i
    ensures !Sent(log, i)
  {
  }

  lemma SentBehind(log: seq<Write>, d: nat, i: nat)
    requires Sent(log, i) && d < i
    ensures !NoneBehind(log, d)
  {
  }

  lemma LastBehind(log: seq<Write>, w: Write, d: nat)
    requires d < w.slot
    ensures !NoneBehind(log + [w], d)
  {
    assert (log + [w])[|log|] == w;
  }

  lemma WholeLog(log: seq<Write>)
    ensures log[..|log|] == log
  {
  }

  lemma AllDrained(s: Session, r: Session)
    requires DrainedBy(s, |s.writes|, r)
    ensures !r.closed && r.writes == [] && r.log == s.log && r.front == s.front && |r.slots| == |s.slots|
    ensures r.dispatching == s.dispatching
  {
  }

  lemma LeadsGives(s: Session, events: seq<Event>, c: Config, r: Session)
    requires Leads(s, events, c, r)
    ensures s.front <= |s.slots| && r == Run(s, events, c) && Inv(r, c, 0) && Keeps(s, r) && NoNewSilent(s, r)
  {
    hide Inv, Keeps, NoNewSilent, Run;
  }

  /** With a skipped response some continuation sends a later one all the same. */
  lemma SkippedViolates(s: Session, d: nat, c: Config) returns (events: seq<Event>)
    requires Inv(s, c, 0) && !s.closed && Skipped(s, d) && c.maxPendingResponses >= 1
    ensures s.front <= |s.slots|
    ensures var r := Run(s, events, c); NoNewSilent(s, r) && !InOrder(r)
  {
    hide Inv, Run, Handle, Keeps, NoNewSilent, Output, Skipped, InOrder, Leads, NoneBehind, Flushed;
    SkippedLeft(s, d, c);
    DispatchOver(s, c);
    var t := Handle(s, DispatchEnds, c);
    LeadsGives(s, [DispatchEnds], c, t);
    SkippedStays(s, t, d);
    SkippedLeft(t, d, c);
    var a, u := WriteBehind(t, d, c);
    LeadsGives(t, a, c, u);
    SkippedStays(t, u, d);
    var b := SendBehind(u, d, c);
    events := [DispatchEnds] + a + b;
    var r := Run(u, b, c);
    LeadsOn(s, [DispatchEnds], t, a, c, u);
    LeadsOn(s, [DispatchEnds] + a, u, b, c, r);
    LeadsGives(s, events, c, r);
  }

  lemma SomeSkipped(s: Session) returns (d: nat)
    requires !Tidy(s)
    ensures Skipped(s, d)
  {
    hide Output, HasCloseBefore;
    d :| 0 <= d < |s.slots| && s.slots[d].dropped && Output(s.slots[d]) != "" && !HasCloseBefore(s.log, d);
  }

  /** No close-after response that ended under its own content-length is still queued. */
  predicate NoneWaiting(s: Session) {
    forall i :: s.front <= i < |s.slots| ==> !Silent(s.slots[i])
  }

  /** Every continuation that ends no further response silently sends the responses in order. */
  ghost predicate StaysInOrder(s: Session, c: Config)
    requires s.front <= |s.slots|
  {
    forall events :: NoNewSilent(s, Run(s, events, c)) ==> InOrder(Run(s, events, c))
  }

  lemma TidyKept(s: Session, events: seq<Event>, c: Config)
    requires Inv(s, c, 0) && !s.closed && Tidy(s)
    ensures s.front <= |s.slots|
    ensures var r := Run(s, events, c);
            NoneLeftSilent(r.slots, s.front, r.front) ==> InOrder(r) && InPrefix(r)
  {
    hide SlotsInv, QueueInv, AccountInv, OrderInv, Stops, Tidy, Run, NoneLeftSilent, InOrder, InPrefix;
    assert Inv(s, c, s.front);
    RunInv(s, events, c, s.front);
    var r := Run(s, events, c);
    if NoneLeftSilent(r.slots, s.front, r.front) && !r.closed {
      WirePrefix(r, c, s.front);
      WireOrder(r, c, s.front);
    }
  }

  lemma NoneLeaves(s: Session, r: Session)
    requires NoneWaiting(s) && NoNewSilent(s, r)
    ensures NoneLeftSilent(r.slots, s.front, r.front)
  {
    hide Silent;
  }

  lemma LostWhenFlushed(s: Session, c: Config)
    requires Inv(s, c, 0) && !s.closed && c.maxPendingResponses >= 1 && !Tidy(Handle(s, DispatchEnds, c))
    ensures s.front <= |s.slots| && !StaysInOrder(s, c)
  {
    hide Inv, Run, Handle, Tidy, InOrder, NoNewSilent, Skipped, Keeps, Flushed;
    DispatchOver(s, c);
    var t := Handle(s, DispatchEnds, c);
    LeadsGives(s, [DispatchEnds], c, t);
    var d := SomeSkipped(t);
    var events := SkippedViolates(t, d, c);
    RunThen(s, [DispatchEnds], events, c);
    NoNewSilentOn(s, t, Run(t, events, c));
    assert NoNewSilent(s, Run(s, [DispatchEnds] + events, c)) && !InOrder(Run(s, [DispatchEnds] + events, c));
  }

  /** The order of responses, exactly. A tidy session keeps it in every continuation in which no silent close
      leaves the queue. With none waiting in the queue, every continuation that ends no further one keeps it if
      and only if each response skipped so far was empty or is behind a closing write. Whatever waits, that must
      also be so once the queue is flushed. */
  lemma InOrderExactly(s: Session, c: Config)
    requires Inv(s, c, 0) && !s.closed && c.maxPendingResponses >= 1
    ensures s.front <= |s.slots|
    ensures NoneWaiting(s) ==> (StaysInOrder(s, c) <==> Tidy(s))
    ensures StaysInOrder(s, c) ==> Tidy(s) && Tidy(Handle(s, DispatchEnds, c))
    ensures Tidy(s) ==> forall events :: var r := Run(s, events, c);
                          NoneLeftSilent(r.slots, s.front, r.front) ==> InOrder(r) && InPrefix(r)
  {
    hide Inv, Run, Handle, Tidy, NoneLeftSilent, InOrder, InPrefix, NoneWaiting, NoNewSilent, Skipped;
    InvFront(s, c, 0);
    if !Tidy(Handle(s, DispatchEnds, c)) {
      LostWhenFlushed(s, c);
    }
    if Tidy(s) {
      forall events
        ensures var r := Run(s, events, c);
                && (NoneLeftSilent(r.slots, s.front, r.front) ==> InOrder(r) && InPrefix(r))
                && (NoneWaiting(s) && NoNewSilent(s, r) ==> InOrder(r))
      {
        TidyKept(s, events, c);
        if NoneWaiting(s) && NoNewSilent(s, Run(s, events, c)) {
          NoneLeaves(s, Run(s, events, c));
        }
      }
    } else {
      var d := SomeSkipped(s);
      var events := SkippedViolates(s, d, c);
    }
  }

  // ---------------------------------------------------------------- the bytes

  /** The bytes up to the first closing write, the last ones ever sent, happen to be right. */
  predicate Hidden(s: Session) {
    var n := FirstClose(s.log);
    n < |s.log| && Bytes(s.log[..n + 1]) <= Outputs(s.slots, |s.slots|)
  }

  ghost predicate StaysInPrefix(s: Session, c: Config)
    requires s.front <= |s.slots|
  {
    forall events :: NoNewSilent(s, Run(s, events, c)) ==> InPrefix(Run(s, events, c))
  }

  lemma SamePastOutputs(s: Session, r: Session)
    requires Keeps(s, r) && s.front == |s.slots|
    ensures Outputs(s.slots, |s.slots|) <= Outputs(r.slots, |r.slots|)
    ensures |r.slots| == |s.slots| ==> Outputs(s.slots, |s.slots|) == Outputs(r.slots, |r.slots|)
  {
    hide Output, SameSlot;
    forall i | 0 <= i < |s.slots| ensures Output(s.slots[i]) == Output(r.slots[i]) {
      assert SameSlot(s.slots[i], r.slots[i]);
      SameSlotSays(s.slots[i], r.slots[i]);
    }
    OutputsSame(s.slots, r.slots, |s.slots|);
    OutputsGrow(r.slots, |s.slots|, |r.slots|);
  }

  lemma HiddenKept(s: Session, events: seq<Event>, c: Config)
    requires Inv(s, c, 0) && s.front == |s.slots| && Hidden(s)
    ensures InPrefix(Run(s, events, c))
  {
    hide SlotsInv, AccountInv, OrderInv, StopInv, Run, FirstClose, Bytes, Outputs, Keeps;
    RunInv(s, events, c, 0);
    RunKeeps(s, events, c, 0);
    var r, n := Run(s, events, c), FirstClose(s.log);
    SamePastOutputs(s, r);
    assert s.log <= r.log by { LogGrows(s, r); }
    assert r.log[n] == s.log[n];
    assert r.wire <= r.log && |r.wire| <= n + 1;
    assert r.wire == s.log[..|r.wire|];
    BytesPrefix(s.log, |r.wire|, n + 1);
  }

  lemma LogGrows(s: Session, r: Session)
    requires Keeps(s, r)
    ensures s.log <= r.log
  {
  }

  /** The closing write goes out with bytes that are wrong. */
  lemma WrongClose(s: Session, c: Config) returns (events: seq<Event>)
    requires Inv(s, c, 0) && !s.closed && s.front == |s.slots|
    requires FirstClose(s.log) < |s.log| && !Hidden(s)
    ensures NoNewSilent(s, Run(s, events, c)) && !InPrefix(Run(s, events, c))
  {
    hide Inv, Run, FirstClose, Bytes, Outputs, Keeps, NoNewSilent, Drains, Leads;
    var n := FirstClose(s.log);
    var k := DrainTo(s, n, c);
    events := Drains(k);
    var r := Run(s, events, c);
    LeadsGives(s, events, c, r);
    SamePastOutputs(s, r);
    BytesPrefix(s.log, n + 1, |r.wire|);
  }

  lemma {:induction false} EmitsShort(slots: seq<Slot>, n: nat)
    requires n <= |slots| && forall i :: 0 <= i < n ==> |slots[i].emitted| <= |Output(slots[i])|
    ensures |Emits(slots, n)| <= |Outputs(slots, n)|
    ensures (exists d :: 0 <= d < n && |slots[d].emitted| < |Output(slots[d])|) ==> |Emits(slots, n)| < |Outputs(slots, n)|
  {
    hide Output;
    if n > 0 {
      EmitsShort(slots, n - 1);
    }
  }

  lemma LogShort(s: Session, d: nat, c: Config)
    requires Inv(s, c, 0) && Skipped(s, d) && s.slots[d].emitted == ""
    ensures |Bytes(s.log)| < |Outputs(s.slots, |s.slots|)|
  {
    hide QueueInv, AccountInv, StopInv, SlotInv, Bytes, Output, Sorted, Emits, Outputs;
    forall i | 0 <= i < |s.slots| ensures |s.slots[i].emitted| <= |Output(s.slots[i])| {
      assert SlotInv(s.slots[i], i, s.front <= i);
      EmittedPrefix(s.slots[i], i, s.front <= i);
    }
    EmitsShort(s.slots, |s.slots|);
  }

  /** With everything sent, a new response whose first character differs goes out in the skipped one's place. */
  lemma WrongAnswer(s: Session, d: nat, c: Config) returns (events: seq<Event>)
    requires Inv(s, c, 0) && !s.closed && !s.dispatching && s.front == |s.slots| && s.writes == []
    requires Skipped(s, d) && c.maxPendingResponses >= 1
    ensures NoNewSilent(s, Run(s, events, c)) && !InPrefix(Run(s, events, c))
  {
    hide Inv, Run, Bytes, Outputs, Keeps, NoNewSilent, Leads, Output, Skipped, Fresh;
    SkippedLeft(s, d, c);
    LogShort(s, d, c);
    var sent, all := Bytes(s.log), Outputs(s.slots, |s.slots|);
    var text := if all[|sent|] == 'a' then "b" else "a";
    AsksAndAnswers(s, text, c);
    events := [Request(false, false), Respond(|s.slots|, text)];
    var r := Run(s, events, c);
    LeadsGives(s, events, c, r);
    SamePastOutputs(s, r);
    BytesSnoc(s.log, Write(|s.slots|, text, false, true));
    Differs(sent, all, text, Outputs(r.slots, |r.slots|));
  }

  lemma Differs(sent: string, all: string, text: string, more: string)
    requires |sent| < |all| && all <= more && |text| == 1 && text[0] != all[|sent|]
    ensures !(sent + text <= more)
  {
    assert (sent + text)[|sent|] == text[0];
  }

  lemma PrefixViolates(s: Session, d: nat, c: Config) returns (events: seq<Event>)
    requires Inv(s, c, 0) && !s.closed && s.front == |s.slots| && c.maxPendingResponses >= 1
    requires Skipped(s, d) && !Hidden(s)
    ensures NoNewSilent(s, Run(s, events, c)) && !InPrefix(Run(s, events, c))
  {
    hide Inv, Run, Handle, Keeps, NoNewSilent, Leads, Output, Skipped, InPrefix, Hidden, FirstClose, DrainedBy,
         Flushed, Drains;
    if FirstClose(s.log) < |s.log| {
      events := WrongClose(s, c);
    } else {
      SkippedLeft(s, d, c);
      DispatchOver(s, c);
      var t := Handle(s, DispatchEnds, c);
      EmptyQueue(s, c);
      LeadsGives(s, [DispatchEnds], c, t);
      SkippedStays(s, t, d);
      SkippedLeft(t, d, c);
      DrainOut(t, c);
      var drain := Drains(|t.writes|);
      var u := Run(t, drain, c);
      AllDrained(t, u);
      LeadsGives(t, drain, c, u);
      SkippedStays(t, u, d);
      var last := WrongAnswer(u, d, c);
      LeadsOn(s, [DispatchEnds], t, drain, c, u);
      LeadsGives(s, [DispatchEnds] + drain, c, u);
      events := [DispatchEnds] + drain + last;
      RunThen(s, [DispatchEnds] + drain, last, c);
      NoNewSilentOn(s, u, Run(u, last, c));
    }
  }

  lemma EmptyQueue(s: Session, c: Config)
    requires s.front == |s.slots|
    ensures Handle(s, DispatchEnds, c) == s.(dispatching := false)
  {
  }

  /** The bytes on the wire, exactly, once nothing is queued, as right behind a silent close: they stay a prefix
      of all responses in order if and only if each skipped response was empty or is behind a closing write, or
      the connection is about to close with bytes that happen to be right. */
  lemma InPrefixExactly(s: Session, c: Config)
    requires Inv(s, c, 0) && !s.closed && s.front == |s.slots| && c.maxPendingResponses >= 1
    ensures StaysInPrefix(s, c) <==> Tidy(s) || Hidden(s)
  {
    hide Inv, Run, Tidy, NoneLeftSilent, InOrder, InPrefix, NoNewSilent, Skipped, Hidden, Silent;
    if Tidy(s) || Hidden(s) {
      forall events ensures NoNewSilent(s, Run(s, events, c)) ==> InPrefix(Run(s, events, c)) {
        if Hidden(s) {
          HiddenKept(s, events, c);
        } else {
          TidyKept(s, events, c);
          if NoNewSilent(s, Run(s, events, c)) {
            NoneLeaves(s, Run(s, events, c));
          }
        }
      }
    } else {
      var d := SomeSkipped(s);
      var events := PrefixViolates(s, d, c);
    }
  }

  // ---------------------------------------------------------------- before the call

  /** The front request streams its response under its own content-length and will close behind it. */
  predicate EndsSilently(s: Session, hasLength: bool) {
    && s.front < |s.slots|
    && var slot := s.slots[s.front];
       && slot.claimed && !slot.completed && slot.closeAfter && !slot.suppressBody
       && if slot.headersQueued then !slot.chunked else hasLength
  }

  predicate NothingBehind(s: Session) {
    forall k :: s.front < k < |s.slots| ==> Output(s.slots[k]) == ""
  }

  lemma SilentDone(slot: Slot, i: nat, head: string, hasLength: bool)
    requires SlotInv(slot, i, true) && slot.claimed && !slot.completed && slot.closeAfter && !slot.suppressBody
    requires if slot.headersQueued then !slot.chunked else hasLength
    ensures var done := Done(slot, i, head, hasLength);
            && Silent(done) && !done.dropped && done.streaming && done.completed && done.closeAfter
  {
    hide Bytes, Output;
  }

  /** Ending it moves its writes to the queue and drops everything behind. */
  lemma SilentEnd(s: Session, head: string, hasLength: bool, c: Config)
    requires Inv(s, c, 0) && !s.closed && !s.dispatching && EndsSilently(s, hasLength)
    ensures s.front < |s.slots|
    ensures var r := Handle(s, EndStream(s.front, head, hasLength), c);
            && Inv(r, c, 0) && !r.closed && r.front == |r.slots| == |s.slots|
            && (forall k :: 0 <= k < |s.slots| && k != s.front ==>
                  Output(r.slots[k]) == Output(s.slots[k]) && r.slots[k].dropped == (s.front < k || s.slots[k].dropped))
            && (forall k :: s.front < k < |s.slots| ==> r.slots[k].streamWrites == s.slots[k].streamWrites)
            && !r.slots[s.front].dropped
            && s.log <= r.log && (forall j :: |s.log| <= j < |r.log| ==> !r.log[j].closeAfter)
  {
    hide Inv, Output, FlushSlots, StreamEnd, Bytes, Done, StreamBytes, Silent, Step;
    var f := s.front;
    SilentActive(s, hasLength, c);
    EndShape(s, f, head, hasLength, c, 0);
    var done := Done(s.slots[f], f, head, hasLength);
    SilentDone(s.slots[f], f, head, hasLength);
    var u := Grow(s, f, done);
    StepInv(u, c, 0);
    StepDrops(u);
    NothingToFlush(Step(u));
    HandleInv(s, EndStream(f, head, hasLength), c, 0);
    SilentWrites(u, c);
    forall k | 0 <= k < |s.slots| && f < k ensures Output(Drop(s.slots[k], Cancelled)) == Output(s.slots[k]) {
      DroppedSays(s.slots[k], Cancelled);
    }
  }

  lemma SilentActive(s: Session, hasLength: bool, c: Config)
    requires Inv(s, c, 0) && EndsSilently(s, hasLength)
    ensures Active(s, s.front)
  {
    hide QueueInv, AccountInv, OrderInv, StopInv, Bytes, Output;
    assert SlotInv(s.slots[s.front], s.front, true);
  }

  lemma StepDrops(s: Session)
    requires s.front < |s.slots| && s.slots[s.front].streaming && s.slots[s.front].closeAfter
    ensures var r := Step(s);
            && r.front == |r.slots| == |s.slots|
            && (forall k :: 0 <= k < s.front ==> r.slots[k] == s.slots[k])
            && (forall k :: s.front < k < |s.slots| ==> r.slots[k] == Drop(s.slots[k], Cancelled))
            && r.slots[s.front].dropped == s.slots[s.front].dropped
  {
    hide Bytes;
  }

  lemma SilentWrites(s: Session, c: Config)
    requires Inv(s, c, 0) && s.front < |s.slots| && Silent(s.slots[s.front])
    ensures forall j :: 0 <= j < |s.slots[s.front].streamWrites| ==> !s.slots[s.front].streamWrites[j].closeAfter
  {
    hide QueueInv, AccountInv, OrderInv, StopInv, Bytes, Output, Silent;
    assert SlotInv(s.slots[s.front], s.front, true);
  }

  /** Tidy behind a silent close: tidy before, and nothing to send behind, or a closing write already queued. */
  lemma TidyBehind(s: Session, r: Session, c: Config)
    requires Inv(s, c, 0) && s.front < |s.slots| == |r.slots|
    requires forall k :: 0 <= k < |s.slots| && k != s.front ==>
               Output(r.slots[k]) == Output(s.slots[k]) && r.slots[k].dropped == (s.front < k || s.slots[k].dropped)
    requires !r.slots[s.front].dropped
    requires s.log <= r.log && forall j :: |s.log| <= j < |r.log| ==> !r.log[j].closeAfter
    ensures Tidy(r) <==> Tidy(s) && (NothingBehind(s) || HasCloseBefore(s.log, s.front))
  {
    hide QueueInv, AccountInv, Bytes, Output, HasCloseBefore;
    forall d ensures HasCloseBefore(r.log, d) <==> HasCloseBefore(s.log, d) {
      SameCloses(s.log, r.log, d);
    }
    forall d | s.front <= d < |s.slots| ensures HasCloseBefore(s.log, d) <==> HasCloseBefore(s.log, s.front) {
      ClosesLeft(s, d);
    }
    forall d | s.front <= d < |s.slots| ensures !s.slots[d].dropped {
      assert SlotInv(s.slots[d], d, true);
      NotDropped(s.slots[d], d);
    }
    if Tidy(r) && !HasCloseBefore(s.log, s.front) {
      assert NothingBehind(s);
    }
    if Tidy(r) {
      forall d | 0 <= d < |s.slots| && s.slots[d].dropped ensures Output(s.slots[d]) == "" || HasCloseBefore(s.log, d) {
        assert r.slots[d].dropped;
      }
    }
  }

  lemma SameCloses(log: seq<Write>, more: seq<Write>, d: nat)
    requires log <= more && forall j :: |log| <= j < |more| ==> !more[j].closeAfter
    ensures HasCloseBefore(more, d) <==> HasCloseBefore(log, d)
  {
    if HasCloseBefore(log, d) {
      var j :| 0 <= j < |log| && log[j].closeAfter && log[j].slot < d;
      assert more[j] == log[j];
    }
    if HasCloseBefore(more, d) {
      var j :| 0 <= j < |more| && more[j].closeAfter && more[j].slot < d;
      assert more[j] == log[j];
    }
  }

  lemma ClosesLeft(s: Session, d: nat)
    requires Stops(s) && s.front <= d
    ensures HasCloseBefore(s.log, d) <==> HasCloseBefore(s.log, s.front)
  {
    hide Bytes, Emits, Closes;
    if HasCloseBefore(s.log, d) {
      var j :| 0 <= j < |s.log| && s.log[j].closeAfter && s.log[j].slot < d;
      assert CloseMark(s, j);
    }
  }

  /** Before the call that ends such a stream: the order survives it if and only if it was not lost already and
      nothing with something to send is queued behind, unless a closing write is already on its way. With no
      such write the same decides whether the bytes stay right. */
  lemma SilentEndExactly(s: Session, head: string, hasLength: bool, c: Config)
    requires Inv(s, c, 0) && !s.closed && !s.dispatching && EndsSilently(s, hasLength) && c.maxPendingResponses >= 1
    ensures s.front <= |s.slots|
    ensures var r := Handle(s, EndStream(s.front, head, hasLength), c);
            && (StaysInOrder(r, c) <==> Tidy(s) && (NothingBehind(s) || HasCloseBefore(s.log, s.front)))
            && (NoneClose(s.log, |s.log|) ==> (StaysInPrefix(r, c) <==> Tidy(s) && NothingBehind(s)))
  {
    hide Inv, Handle, Tidy, NothingBehind, StaysInOrder, StaysInPrefix, EndsSilently, Output, HasCloseBefore, Bytes,
         FirstClose, NoneClose, Outputs;
    SilentEnd(s, head, hasLength, c);
    var r := Handle(s, EndStream(s.front, head, hasLength), c);
    TidyBehind(s, r, c);
    InOrderExactly(r, c);
    InPrefixExactly(r, c);
    if NoneClose(s.log, |s.log|) {
      NoCloseAtAll(s.log, r.log, s.front);
    }
  }

  lemma NoCloseAtAll(log: seq<Write>, more: seq<Write>, d: nat)
    requires NoneClose(log, |log|) && log <= more && forall j :: |log| <= j < |more| ==> !more[j].closeAfter
    ensures !HasCloseBefore(log, d) && FirstClose(more) == |more|
  {
    hide FirstClose;
    forall j | 0 <= j < |more| ensures !more[j].closeAfter {
      assert j < |log| ==> more[j] == log[j];
    }
  }

  // ---------------------------------------------------------------- it happens

  /** Two pipelined requests of a server that does not keep connections alive: the second is answered with
      `text`, then the first is claimed for streaming. */
  function TwoRequests(text: string): seq<Event> {
    [Request(true, false), Request(true, false), Respond(1, text), Claim(0)]
  }

  lemma Unfold(s: Session, e: Event, rest: seq<Event>, c: Config)
    requires s.front <= |s.slots|
    ensures Handle(s, e, c).front <= |Handle(s, e, c).slots|
    ensures Run(s, [e] + rest, c) == Run(Handle(s, e, c), rest, c)
  {
    hide Handle;
    assert ([e] + rest)[1..] == rest;
  }

  const FIRST := NewSlot(true, false)
  const ASKED := FRESH.(slots := [FIRST, FIRST])

  function Claimed(text: string): Session {
    FRESH.(slots := [FIRST.(claimed := true), Answered(FIRST, text)])
  }

  lemma AsksTwice(text: string, c: Config)
    requires c.maxPendingResponses >= 2
    ensures Run(FRESH, TwoRequests(text), c) == Run(ASKED, [Respond(1, text), Claim(0)], c)
  {
    hide Run;
    var rest := [Respond(1, text), Claim(0)];
    var one := FRESH.(slots := [FIRST]);
    assert TwoRequests(text) == [Request(true, false)] + ([Request(true, false)] + rest);
    Unfold(FRESH, Request(true, false), [Request(true, false)] + rest, c);
    assert Handle(FRESH, Request(true, false), c) == one;
    Unfold(one, Request(true, false), rest, c);
    assert Handle(one, Request(true, false), c) == ASKED;
  }

  lemma ClaimsFirst(text: string, c: Config)
    ensures Run(ASKED, [Respond(1, text), Claim(0)], c) == Claimed(text)
  {
    hide Run;
    var two := FRESH.(slots := [FIRST, Answered(FIRST, text)]);
    assert [Respond(1, text), Claim(0)] == [Respond(1, text)] + [Claim(0)];
    Unfold(ASKED, Respond(1, text), [Claim(0)], c);
    assert Handle(ASKED, Respond(1, text), c) == two;
    RunOne(two, Claim(0), c);
    assert Handle(two, Claim(0), c) == Claimed(text);
  }

  /** Then ending the first, under any head with a content-length, leaves the order to luck exactly when the
      second had something to send. */
  lemma SilentCloseSkips(text: string, head: string, c: Config)
    requires c.maxPendingResponses >= 2
    ensures var s := Run(FRESH, TwoRequests(text) + [EndStream(0, head, true)], c);
            s.front <= |s.slots| && (StaysInPrefix(s, c) <==> text == "") && (StaysInOrder(s, c) <==> text == "")
  {
    hide Run, Handle, Inv, StaysInOrder, StaysInPrefix, FlushSlots;
    AsksTwice(text, c);
    ClaimsFirst(text, c);
    FreshInv(c);
    RunInv(FRESH, TwoRequests(text), c, 0);
    var s, e := Claimed(text), EndStream(0, head, true);
    RunThen(FRESH, TwoRequests(text), [e], c);
    RunOne(s, e, c);
    SilentEndExactly(s, head, true, c);
    ClaimedSays(text);
  }

  lemma ClaimedSays(text: string)
    ensures var s := Claimed(text);
            Tidy(s) && NoneClose(s.log, |s.log|) && !HasCloseBefore(s.log, s.front) && EndsSilently(s, true)
            && (NothingBehind(s) <==> text == "")
  {
    var s := Claimed(text);
    assert Output(s.slots[1]) == text;
  }

  // ---------------------------------------------------------------- luck

  const STREAMED := FIRST.(claimed := true, streaming := true, ended := true, headersQueued := true, chunked := false,
                           head := "H", completed := true, hooks := [Completed], emitted := "H")
  const HEAD := Write(0, "H", false, false)
  const TAIL := Write(2, "B", true, true)
  const SKIPPED := FRESH.(slots := [STREAMED, Answered(FIRST, "B").(dropped := true)], front := 2, writes := [HEAD],
                          log := [HEAD], wire := [HEAD], writing := true, pendingBytes := 1)
  const LUCKY := SKIPPED.(slots := SKIPPED.slots + [Answered(FIRST, "B").(emitted := "B")], front := 3,
                          writes := [HEAD, TAIL], log := [HEAD, TAIL], pendingBytes := 2, pendingResponses := 1)

  lemma EndsFirst(c: Config)
    ensures Handle(Claimed("B"), EndStream(0, "H", true), c) == SKIPPED
  {
    var s := Claimed("B");
    var ended := EndedSlot(s.slots[0], 0, "H", true);
    assert ended.streamWrites == [HEAD];
    BytesSnoc([], HEAD);
    assert [] + [HEAD] == [HEAD];
    var done := RunHooks(ended.(completed := true), Completed);
    var grown := s.(slots := [done, s.slots[1]], pendingBytes := 1);
    assert Update(Grow(s, 0, ended), 0, done) == grown;
    assert Bytes([HEAD]) == "H" && "" + "H" == "H";
    var sent := FlushStream(grown);
    assert sent == SKIPPED.(slots := [STREAMED, s.slots[1]], front := 0);
    assert CancelAll(sent.(front := 1), Cancelled) == SKIPPED;
    assert FlushSlots(grown) == FlushSlots(SKIPPED) == SKIPPED;
  }

  lemma AnswersLast(c: Config)
    requires c.maxPendingResponses >= 2
    ensures Handle(Handle(SKIPPED, Request(true, false), c), Respond(2, "B"), c) == LUCKY
  {
    var more := SKIPPED.(slots := SKIPPED.slots + [FIRST]);
    assert Handle(SKIPPED, Request(true, false), c) == more;
    var done := more.(slots := SKIPPED.slots + [Answered(FIRST, "B")]);
    assert FlushWhole(done) == LUCKY;
    assert CancelAll(LUCKY, Cancelled) == LUCKY;
    assert Update(Update(more, 2, FIRST.(text := "B")), 2, Answered(FIRST, "B")) == done;
    assert FlushSlots(done) == LUCKY;
  }

  /** Luck happens: the skipped response and the one behind it have the same text, and the connection closes
      before anybody can tell. */
  lemma LuckHappens(c: Config)
    requires c.maxPendingResponses >= 2
    ensures var s := Run(FRESH, TwoRequests("B") + [EndStream(0, "H", true), Request(true, false), Respond(2, "B")], c);
            !s.closed && s.front == |s.slots| && StaysInPrefix(s, c) && !Tidy(s)
  {
    hide Run, Handle, Inv, StaysInPrefix, Tidy, Hidden;
    var tail := [EndStream(0, "H", true), Request(true, false), Respond(2, "B")];
    AsksTwice("B", c);
    ClaimsFirst("B", c);
    FreshInv(c);
    RunThen(FRESH, TwoRequests("B"), tail, c);
    RunInv(FRESH, TwoRequests("B") + tail, c, 0);
    assert tail == [tail[0]] + ([tail[1]] + [tail[2]]);
    Unfold(Claimed("B"), tail[0], [tail[1]] + [tail[2]], c);
    EndsFirst(c);
    Unfold(SKIPPED, tail[1], [tail[2]], c);
    RunOne(Handle(SKIPPED, tail[1], c), tail[2], c);
    AnswersLast(c);
    LuckySays();
    InPrefixExactly(LUCKY, c);
  }

  lemma LuckySays()
    ensures Hidden(LUCKY) && !Tidy(LUCKY)
  {
    var slots := LUCKY.slots;
    BytesSnoc([], HEAD);
    BytesSnoc([HEAD], TAIL);
    assert [] + [HEAD] == [HEAD] && [HEAD] + [TAIL] == [HEAD, TAIL] && "" + "H" == "H";
    assert Output(slots[0]) == "H" + "" == "H";
    assert Outputs(slots, 1) == Outputs(slots, 0) + Output(slots[0]);
    assert Outputs(slots, 2) == Outputs(slots, 1) + "B";
    assert Outputs(slots, 3) == Outputs(slots, 2) + "B";
    assert LUCKY.log[..2] == LUCKY.log && [HEAD, TAIL][..1] == [HEAD];
    assert FirstClose(LUCKY.log) == 1;
    assert slots[1].dropped && Output(slots[1]) == "B";
  }
}
