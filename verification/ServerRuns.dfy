/** The invariants of `ServerOrder` hold in every reachable state; pipelined responses never reorder or
    interleave. */
module ServerRuns {
  import opened Text
  import opened ServerSession
  import opened ServerOrder
  import Chunked
  import ChunkCoding

  // ---------------------------------------------------------------- the queue

  lemma PushQueue(s: Session, more: seq<Write>)
    requires QueueInv(s) && !s.closed
    ensures QueueInv(Push(s, more))
    ensures var r := Push(s, more);
            r == s.(writes := s.writes + more, log := s.log + more, writing := r.writing, wire := r.wire)
  {
    var k := |s.log| - |s.writes|;
    assert s.log[k..] + more == (s.log + more)[k..];
    assert s.log[..k] == (s.log + more)[..k];
    if s.writing {
      assert (s.log + more)[..k + 1] == s.log[..k + 1];
    } else if more != [] {
      assert s.log[..k] + [more[0]] == (s.log + more)[..k + 1];
    } else {
      assert s.log + more == s.log && s.writes + more == s.writes;
    }
  }

  // ---------------------------------------------------------------- moving writes to the queue

  /** The front slot after its output so far has moved: everything emitted, or still queued when not
      completed. */
  lemma MovedSlot(slot: Slot, i: nat)
    requires SlotInv(slot, i, true) && slot.streaming
    ensures SlotInv(slot.(streamWrites := [], emitted := slot.emitted + Bytes(slot.streamWrites)), i, !slot.completed)
  {
    assert Output(slot.(streamWrites := [], emitted := slot.emitted + Bytes(slot.streamWrites))) == Output(slot);
    assert Output(slot) + "" == Output(slot);
  }

  lemma WholeSlot(slot: Slot, i: nat)
    requires SlotInv(slot, i, true) && !slot.streaming && slot.completed
    ensures SlotInv(slot.(emitted := slot.text), i, false)
  {
  }

  /** `s` after the front slot emitted `more` and, when `left`, left the response queue. */
  function Moved(s: Session, more: seq<Write>, slot: Slot, left: bool): Session
    requires s.front < |s.slots|
  {
    Push(s.(slots := s.slots[s.front := slot], front := if left then s.front + 1 else s.front), more)
  }

  predicate Moves(s: Session, more: seq<Write>, slot: Slot, left: bool) {
    && !s.closed && s.front < |s.slots|
    && SlotInv(slot, s.front, !left) && !slot.dropped
    && slot.emitted == s.slots[s.front].emitted + Bytes(more)
    && (!left && slot.headersQueued && slot.streamWrites == [] ==> more != [] || Sent(s.log, s.front))
    && (left && Closes(slot) ==> more != [] && more[|more| - 1].closeAfter)
    && forall j :: 0 <= j < |more| ==>
         more[j].slot == s.front && (more[j].closeAfter ==> left && j == |more| - 1 && Closes(slot))
  }

  lemma MovedShape(s: Session, more: seq<Write>, slot: Slot, left: bool)
    requires QueueInv(s) && s.front < |s.slots| && !s.closed
    ensures var r := Moved(s, more, slot, left);
            && QueueInv(r) && r.slots == s.slots[s.front := slot] && r.log == s.log + more && !r.closed
            && r.front == (if left then s.front + 1 else s.front)
  {
    hide QueueInv;
    var u := s.(slots := s.slots[s.front := slot], front := if left then s.front + 1 else s.front);
    QueueIgnores(s, u);
    PushQueue(u, more);
  }

  lemma MovedSlots(s: Session, more: seq<Write>, slot: Slot, left: bool)
    requires SlotsInv(s) && QueueInv(s) && Moves(s, more, slot, left)
    ensures SlotsInv(Moved(s, more, slot, left))
  {
    hide SlotInv, Bytes, Silent, QueueInv, Moved;
    MovedShape(s, more, slot, left);
    var r := Moved(s, more, slot, left);
    forall i | 0 <= i < |r.slots| ensures SlotInv(r.slots[i], i, r.front <= i) {
      assert SlotInv(s.slots[i], i, s.front <= i);
    }
  }

  lemma MovedEmits(s: Session, more: seq<Write>, slot: Slot, left: bool)
    requires OrderInv(s) && QueueInv(s) && Moves(s, more, slot, left)
    ensures var r := Moved(s, more, slot, left);
            Bytes(r.log) == Emits(r.slots, |r.slots|) == Emits(r.slots, s.front + 1)
  {
    hide SlotInv, Bytes, Silent, QueueInv, Moved, Sorted;
    MovedShape(s, more, slot, left);
    var f, after := s.front, s.slots[s.front := slot];
    BytesSplit(s.log, more);
    EmitsSame(s.slots, after, f);
    EmitsBehind(s.slots, f + 1, |s.slots|);
    EmitsBehind(after, f + 1, |s.slots|);
    assert Emits(s.slots, f) + (s.slots[f].emitted + Bytes(more)) == Emits(s.slots, f) + s.slots[f].emitted + Bytes(more);
  }

  lemma MovedOrder(s: Session, more: seq<Write>, slot: Slot, left: bool)
    requires SlotsInv(s) && OrderInv(s) && QueueInv(s) && Moves(s, more, slot, left)
    ensures var r := Moved(s, more, slot, left);
            SlotsInv(r) && OrderInv(r) && QueueInv(r) && Emits(r.slots, |r.slots|) == Emits(r.slots, s.front + 1)
  {
    hide SlotInv, Bytes, Silent, QueueInv, Moved, Emits;
    MovedShape(s, more, slot, left);
    MovedSlots(s, more, slot, left);
    MovedEmits(s, more, slot, left);
  }

  lemma QueueIgnores(s: Session, r: Session)
    requires QueueInv(s) && s.writes == r.writes && s.log == r.log && s.wire == r.wire
    requires s.writing == r.writing && s.closed == r.closed
    ensures QueueInv(r)
  {
  }

  lemma KeptMark(s: Session, r: Session, j: nat)
    requires j < |s.log| <= |r.log| && CloseMark(s, j) && r.log[..j + 1] == s.log[..j + 1]
    requires s.front <= r.front <= |r.slots| && s.front <= |r.slots| && s.front <= |s.slots|
    requires forall i :: 0 <= i < s.front ==> r.slots[i].emitted == s.slots[i].emitted && Closes(r.slots[i]) == Closes(s.slots[i])
    ensures CloseMark(r, j)
  {
    hide Bytes, Closes;
    assert r.log[j] == s.log[..j + 1][j];
    if s.log[j].closeAfter {
      EmitsSame(s.slots, r.slots, s.log[j].slot + 1);
    }
  }

  lemma KeptClose(log: seq<Write>, more: seq<Write>, d: nat)
    requires HasCloseBefore(log, d)
    ensures HasCloseBefore(log + more, d)
  {
    var j :| 0 <= j < |log| && log[j].closeAfter && log[j].slot < d;
    assert (log + more)[j] == log[j];
  }

  lemma MovedStop(s: Session, more: seq<Write>, slot: Slot, left: bool, from: nat)
    requires SlotsInv(s) && OrderInv(s) && QueueInv(s) && StopInv(s, from) && Moves(s, more, slot, left)
    ensures StopInv(Moved(s, more, slot, left), from)
  {
    hide SlotInv, Bytes, Silent, QueueInv, CloseMark, HasCloseBefore, Moved, Tidy, NoneLeftSilent, LeftCloses, HeadSent,
         Sent, Closes;
    var r := Moved(s, more, slot, left);
    MovedShape(s, more, slot, left);
    forall j | 0 <= j < |r.log| ensures CloseMark(r, j) {
      if j < |s.log| {
        assert CloseMark(s, j);
        assert r.log[..j + 1] == s.log[..j + 1];
        KeptMark(s, r, j);
      } else {
        NewMark(s, more, slot, left, j);
      }
    }
    MovedLeft(s, more, slot, left);
    MovedHeads(s, more, slot, left);
    MovedTidy(s, more, slot, left, from);
  }

  lemma MovedTidy(s: Session, more: seq<Write>, slot: Slot, left: bool, from: nat)
    requires QueueInv(s) && KeptSince(s, from) && Moves(s, more, slot, left)
    ensures KeptSince(Moved(s, more, slot, left), from)
  {
    hide SlotInv, Bytes, Silent, Output, QueueInv, HasCloseBefore, Moved;
    var r := Moved(s, more, slot, left);
    MovedShape(s, more, slot, left);
    if NoneLeftSilent(r.slots, from, r.front) {
      forall i | from <= i < s.front && i < |s.slots| ensures s.slots[i].dropped || !Silent(s.slots[i]) {
        assert r.slots[i] == s.slots[i];
      }
      forall d | 0 <= d < |r.slots| && r.slots[d].dropped ensures Output(r.slots[d]) == "" || HasCloseBefore(r.log, d) {
        assert s.slots[d].dropped;
        if HasCloseBefore(s.log, d) {
          KeptClose(s.log, more, d);
        }
      }
    }
  }

  lemma MovedHeads(s: Session, more: seq<Write>, slot: Slot, left: bool)
    requires QueueInv(s) && HeadSent(s) && Moves(s, more, slot, left)
    ensures HeadSent(Moved(s, more, slot, left))
  {
    hide SlotInv, Bytes, Silent, Closes, QueueInv, Moved, Sent;
    var r := Moved(s, more, slot, left);
    MovedShape(s, more, slot, left);
    forall i | r.front <= i < |r.slots| && r.slots[i].headersQueued && r.slots[i].streamWrites == []
      ensures Sent(r.log, i)
    {
      if more != [] {
        LastSent(s.log, more);
      }
      if Sent(s.log, i) {
        StillSent(s.log, more, i);
      }
    }
  }

  lemma LastSent(log: seq<Write>, more: seq<Write>)
    requires more != []
    ensures Sent(log + more, more[|more| - 1].slot)
  {
    assert (log + more)[|log + more| - 1] == more[|more| - 1];
  }

  lemma StillSent(log: seq<Write>, more: seq<Write>, i: nat)
    requires Sent(log, i)
    ensures Sent(log + more, i)
  {
    var j :| 0 <= j < |log| && log[j].slot == i;
    assert (log + more)[j] == log[j];
  }

  lemma MovedLeft(s: Session, more: seq<Write>, slot: Slot, left: bool)
    requires QueueInv(s) && LeftCloses(s) && Moves(s, more, slot, left)
    ensures LeftCloses(Moved(s, more, slot, left))
  {
    hide SlotInv, Bytes, Closes, QueueInv, Moved;
    var r := Moved(s, more, slot, left);
    MovedShape(s, more, slot, left);
    forall i | 0 <= i < r.front && i < |r.slots| && Closes(r.slots[i]) ensures HasCloseOf(r.log, i) {
      if i < s.front {
        assert r.slots[i] == s.slots[i];
        var j :| 0 <= j < |s.log| && s.log[j].closeAfter && s.log[j].slot == i;
        assert r.log[j] == s.log[j];
      } else {
        assert r.log[|r.log| - 1] == more[|more| - 1];
      }
    }
  }

  lemma NewMark(s: Session, more: seq<Write>, slot: Slot, left: bool, j: nat)
    requires SlotsInv(s) && OrderInv(s) && QueueInv(s) && Moves(s, more, slot, left)
    requires |s.log| <= j < |s.log| + |more|
    ensures var r := Moved(s, more, slot, left); j < |r.log| && CloseMark(r, j)
  {
    hide SlotInv, Bytes, Silent, QueueInv, Moved;
    var r := Moved(s, more, slot, left);
    MovedShape(s, more, slot, left);
    MovedOrder(s, more, slot, left);
    assert r.log[j] == more[j - |s.log|];
    if r.log[j].closeAfter {
      assert r.log[..j + 1] == r.log;
    }
  }

  // ---------------------------------------------------------------- flushing

  /** Flushing a streaming slot; a completed one leaves. */
  lemma StreamStep(s: Session, c: Config, from: nat)
    requires Inv(s, c, from) && !s.closed && s.front < |s.slots| && s.slots[s.front].streaming
    ensures var slot := s.slots[s.front];
            var sent := FlushStream(s);
            var r := if slot.completed then sent.(front := sent.front + 1) else sent;
            && sent.front < |sent.slots| && Inv(r, c, from) && r.dispatching == s.dispatching && !r.closed
            && (slot.completed && slot.closeAfter ==>
                  !NoneLeftSilent(r.slots, from, r.front) || HasCloseBefore(r.log, r.front))
            && (slot.completed ==> NextUnsent(r))
  {
    hide SlotInv, Bytes, Silent, QueueInv, SlotsInv, OrderInv, HasCloseBefore, AccountInv, WritesInv, Moves, Moved,
         FlushStream, Tidy, NoneLeftSilent, HeadSent, LeftCloses, CloseMark;
    var slot := s.slots[s.front];
    var after := slot.(streamWrites := [], emitted := slot.emitted + Bytes(slot.streamWrites));
    StreamMoves(s);
    MovedOrder(s, slot.streamWrites, after, slot.completed);
    MovedStop(s, slot.streamWrites, after, slot.completed, from);
    StreamAccount(s, c);
    MovedClose(s);
    FrontLater(s);
    SilentAfter(slot);
    NextStays(s, after);
    SilentSlot(s.slots[s.front := after], s.front, from);
  }

  /** The slot now at the front has emitted nothing. */
  predicate NextUnsent(s: Session) {
    s.front < |s.slots| ==> s.slots[s.front].emitted == ""
  }

  lemma NextStays(s: Session, slot: Slot)
    requires OrderInv(s) && SlotsInv(s) && s.front < |s.slots|
    ensures NextUnsent(s.(slots := s.slots[s.front := slot], front := s.front + 1))
  {
  }

  lemma SilentAfter(slot: Slot)
    ensures Silent(slot.(streamWrites := [], emitted := slot.emitted + Bytes(slot.streamWrites))) == Silent(slot)
  {
    hide Bytes;
  }

  lemma FrontLater(s: Session)
    requires s.front < |s.slots| && !s.closed
    ensures var slot := s.slots[s.front];
            var after := slot.(streamWrites := [], emitted := slot.emitted + Bytes(slot.streamWrites));
            var sent := FlushStream(s);
            && Moved(s, slot.streamWrites, after, slot.completed) ==
               (if slot.completed then sent.(front := sent.front + 1) else sent)
            && sent.front == s.front && sent.slots == s.slots[s.front := after]
            && sent.dispatching == s.dispatching && !sent.closed && sent.log == s.log + slot.streamWrites
  {
    hide Bytes;
  }

  lemma StreamMoves(s: Session)
    requires SlotsInv(s) && HeadSent(s) && !s.closed && s.front < |s.slots| && s.slots[s.front].streaming
    ensures var slot := s.slots[s.front];
            Moves(s, slot.streamWrites,
                  slot.(streamWrites := [], emitted := slot.emitted + Bytes(slot.streamWrites)), slot.completed)
    ensures !s.slots[s.front].dropped
  {
    hide Bytes, Output;
    var slot := s.slots[s.front];
    assert SlotInv(slot, s.front, true);
    MovedSlot(slot, s.front);
    forall j | 0 <= j < |slot.streamWrites|
      ensures slot.streamWrites[j].slot == s.front
      ensures slot.streamWrites[j].closeAfter ==> slot.completed && j == |slot.streamWrites| - 1
    {
    }
  }

  lemma MovedClose(s: Session)
    requires SlotsInv(s) && s.front < |s.slots| && s.slots[s.front].streaming
    ensures s.slots[s.front].completed && s.slots[s.front].closeAfter && !Silent(s.slots[s.front]) ==>
              HasCloseBefore(s.log + s.slots[s.front].streamWrites, s.front + 1)
  {
    hide Bytes, Output, Silent;
    var slot := s.slots[s.front];
    assert SlotInv(slot, s.front, true);
    if slot.completed && slot.closeAfter && !Silent(slot) {
      var log := s.log + slot.streamWrites;
      assert log[|log| - 1] == slot.streamWrites[|slot.streamWrites| - 1];
    }
  }

  lemma StreamAccount(s: Session, c: Config)
    requires SlotsInv(s) && AccountInv(s, c) && !s.closed && s.front < |s.slots| && s.slots[s.front].streaming
    ensures var sent := FlushStream(s);
            AccountInv(sent, c) && AccountInv(sent.(front := sent.front + 1), c)
  {
    hide Bytes, Output, SlotInv, SlotsInv, Counted, Streamed;
    var slot := s.slots[s.front];
    var after := slot.(streamWrites := [], emitted := slot.emitted + Bytes(slot.streamWrites));
    StreamedUpdate(s.slots, s.front, after, |s.slots|);
    BytesSplit(s.writes, slot.streamWrites);
    CountedSplit(s.writes, slot.streamWrites);
    StreamNotCounted(s);
    NoBytes();
  }

  lemma StreamNotCounted(s: Session)
    requires SlotsInv(s) && s.front < |s.slots|
    ensures Counted(s.slots[s.front].streamWrites) == 0
  {
    hide Bytes, Output;
    assert SlotInv(s.slots[s.front], s.front, true);
    NoneCounted(s.slots[s.front].streamWrites);
  }

  lemma NoBytes()
    ensures Bytes([]) == ""
  {
  }

  /** A completed slot that does not stream leaves as one counted write. */
  lemma WholeStep(s: Session, c: Config, from: nat)
    requires Inv(s, c, from) && !s.closed && s.front < |s.slots|
    requires s.slots[s.front].completed && !s.slots[s.front].streaming
    ensures var slot := s.slots[s.front];
            var r := FlushWhole(s);
            && Inv(r, c, from) && r.front == s.front + 1 && r.dispatching == s.dispatching && !r.closed
            && (slot.closeAfter ==> HasCloseBefore(r.log, r.front)) && NextUnsent(r)
  {
    hide SlotInv, Bytes, Silent, QueueInv, StopInv, OrderInv, HasCloseBefore, AccountInv, WritesInv;
    var f, slot := s.front, s.slots[s.front];
    var w := Write(f, slot.text, slot.closeAfter, true);
    var u := s.(pendingBytes := s.pendingBytes + |w.payload|, pendingResponses := s.pendingResponses + 1);
    var after := slot.(emitted := slot.text);
    assert SlotInv(slot, f, true);
    WholeSlot(slot, f);
    WholeMoves(s);
    CountersIgnored(s, u, c, from);
    assert Moves(u, [w], after, true);
    MovedOrder(u, [w], after, true);
    MovedStop(u, [w], after, true, from);
    MovedShape(u, [w], after, true);
    WholeAccount(s, c);
    NextStays(s, after);
    if slot.closeAfter {
      LastCloses(s.log, w);
    }
  }

  lemma LastCloses(log: seq<Write>, w: Write)
    requires w.closeAfter
    ensures HasCloseBefore(log + [w], w.slot + 1)
  {
    assert (log + [w])[|log|] == w;
  }

  lemma WholeMoves(s: Session)
    requires SlotsInv(s) && !s.closed && s.front < |s.slots|
    requires s.slots[s.front].completed && !s.slots[s.front].streaming
    ensures var slot := s.slots[s.front];
            Moves(s, [Write(s.front, slot.text, slot.closeAfter, true)], slot.(emitted := slot.text), true)
  {
    var slot := s.slots[s.front];
    assert SlotInv(slot, s.front, true);
    WholeSlot(slot, s.front);
    BytesSnoc([], Write(s.front, slot.text, slot.closeAfter, true));
    assert [] + [Write(s.front, slot.text, slot.closeAfter, true)] == [Write(s.front, slot.text, slot.closeAfter, true)];
  }

  /** Nothing but the slots, the front, the log and, once closed, the wire matters to these invariants. */
  lemma {:induction false} SameSending(s: Session, u: Session, from: nat)
    requires s.slots == u.slots && s.front == u.front && s.log == u.log && s.closed == u.closed
    requires s.closed ==> s.wire == u.wire
    ensures SlotsInv(s) ==> SlotsInv(u)
    ensures OrderInv(s) ==> OrderInv(u)
    ensures StopInv(s, from) ==> StopInv(u, from)
    ensures forall j :: 0 <= j < |s.log| && CloseMark(s, j) ==> CloseMark(u, j)
    ensures LeftCloses(s) ==> LeftCloses(u)
  {
    hide SlotInv, Bytes, Sorted, Emits, NoneLeftSilent, Outputs, Output, Closes, HasCloseOf, HasCloseBefore, Sent;
    forall j | 0 <= j < |s.log| && CloseMark(s, j) ensures CloseMark(u, j) {
      assert CloseMark(s, j);
    }
  }

  /** Nothing but the accounting looks at the two counters. */
  lemma CountersIgnored(s: Session, u: Session, c: Config, from: nat)
    requires SlotsInv(s) && QueueInv(s) && OrderInv(s) && StopInv(s, from)
    requires u == s.(pendingBytes := u.pendingBytes, pendingResponses := u.pendingResponses)
    ensures SlotsInv(u) && QueueInv(u) && OrderInv(u) && StopInv(u, from)
  {
    hide SlotsInv, OrderInv, StopInv;
    SameSending(s, u, from);
  }

  lemma WholeAccount(s: Session, c: Config)
    requires SlotsInv(s) && AccountInv(s, c) && !s.closed && s.front < |s.slots|
    requires s.slots[s.front].completed && !s.slots[s.front].streaming
    ensures AccountInv(FlushWhole(s), c)
  {
    hide Bytes, SlotInv;
    var slot := s.slots[s.front];
    var w := Write(s.front, slot.text, slot.closeAfter, true);
    StreamedUpdate(s.slots, s.front, slot.(emitted := slot.text), |s.slots|);
    BytesSnoc(s.writes, w);
    CountedSplit(s.writes, [w]);
    assert Counted([w]) == 1;
  }

  // ---------------------------------------------------------------- cancelling

  lemma DroppedSlot(slot: Slot, i: nat, outcome: Outcome)
    requires SlotInv(slot, i, true) && outcome in {Cancelled, Failed}
    ensures SlotInv(Drop(slot, outcome), i, false)
    ensures var d := Drop(slot, outcome);
            && d.emitted == slot.emitted && d.streamWrites == slot.streamWrites && Output(d) == Output(slot)
            && Silent(d) == Silent(slot) && d.dropped
  {
    hide Bytes, Output;
    DroppedSays(slot, outcome);
  }

  lemma DroppedSays(slot: Slot, outcome: Outcome)
    ensures Output(Drop(slot, outcome)) == Output(slot)
  {
    hide Chunks, Joined;
    var d := Drop(slot, outcome);
    SameSays(slot, d);
  }

  lemma SameSays(a: Slot, b: Slot)
    requires b == a.(hooks := b.hooks, dropped := b.dropped)
    ensures Output(a) == Output(b)
  {
    hide Chunks, Joined;
  }

  /** What cancelling keeps, whatever made the session cancel. */
  lemma CancelKeeps(s: Session, outcome: Outcome, c: Config, from: nat)
    requires SlotsInv(s) && OrderInv(s) && AccountInv(s, c) && outcome in {Cancelled, Failed}
    ensures var r := CancelAll(s, outcome);
            && SlotsInv(r) && OrderInv(r) && AccountInv(r, c)
            && (forall j :: 0 <= j < |s.log| && CloseMark(s, j) ==> CloseMark(r, j))
            && (LeftCloses(s) ==> LeftCloses(r))
            && Outputs(r.slots, |r.slots|) == Outputs(s.slots, |s.slots|)
            && (NoneLeftSilent(r.slots, from, r.front) ==> NoneLeftSilent(s.slots, from, s.front))
            && (InOrder(s) ==> InOrder(r)) && (InPrefix(s) ==> InPrefix(r))
  {
    hide SlotInv, Bytes, Silent, Sorted, Drop, Output, StreamBytes, CloseMark;
    var r := CancelAll(s, outcome);
    forall i | 0 <= i < |s.slots|
      ensures SlotInv(r.slots[i], i, r.front <= i)
      ensures r.slots[i].emitted == s.slots[i].emitted && r.slots[i].streamWrites == s.slots[i].streamWrites
      ensures Output(r.slots[i]) == Output(s.slots[i]) && Silent(r.slots[i]) == Silent(s.slots[i])
      ensures s.front <= i ==> r.slots[i].dropped
    {
      assert SlotInv(s.slots[i], i, s.front <= i);
      if s.front <= i {
        DroppedSlot(s.slots[i], i, outcome);
      }
    }
    EmitsSame(s.slots, r.slots, |s.slots|);
    StreamedSame(s.slots, r.slots, |s.slots|);
    OutputsSame(s.slots, r.slots, |s.slots|);
    forall j | 0 <= j < |s.log| && CloseMark(s, j) ensures CloseMark(r, j) {
      KeptMark(s, r, j);
    }
    if NoneLeftSilent(r.slots, from, r.front) {
      forall i | from <= i < s.front && i < |s.slots| ensures s.slots[i].dropped || !Silent(s.slots[i]) {
        assert r.slots[i] == s.slots[i];
      }
    }
  }

  /** Cancelling behind a response that closes the connection. */
  lemma CancelBehind(s: Session, outcome: Outcome, c: Config, from: nat)
    requires Inv(s, c, from) && !s.closed && outcome in {Cancelled, Failed}
    requires HasCloseBefore(s.log, s.front) || !NoneLeftSilent(s.slots, from, s.front)
    requires NextUnsent(s)
    ensures Inv(CancelAll(s, outcome), c, from)
  {
    hide SlotInv, Bytes, Silent, AccountInv, CloseMark, Outputs, Output, InOrder, InPrefix, Sorted, Emits,
         HasCloseBefore, LeftCloses, NoneLeftSilent;
    CancelKeeps(s, outcome, c, from);
    var r := CancelAll(s, outcome);
    QueueIgnores(s, r);
    assert forall j :: 0 <= j < |s.log| ==> CloseMark(s, j);
    CancelUnsent(s, outcome);
    if NoneLeftSilent(r.slots, from, r.front) {
      forall d | 0 <= d < |r.slots| && r.slots[d].dropped ensures Output(r.slots[d]) == "" || HasCloseBefore(r.log, d) {
        if d < s.front {
          assert r.slots[d] == s.slots[d];
        } else {
          CloseBeforeLater(s.log, s.front, d);
        }
      }
    }
  }

  lemma CancelUnsent(s: Session, outcome: Outcome)
    requires SlotsInv(s) && OrderInv(s) && NextUnsent(s)
    requires forall d :: 0 <= d < |s.slots| && s.slots[d].dropped ==> s.slots[d].emitted == ""
    ensures var r := CancelAll(s, outcome);
            forall d :: 0 <= d < |r.slots| && r.slots[d].dropped ==> r.slots[d].emitted == ""
  {
    hide SlotInv, Bytes, Sorted, Emits;
    var r := CancelAll(s, outcome);
    forall d | 0 <= d < |r.slots| && r.slots[d].dropped ensures r.slots[d].emitted == "" {
      assert s.slots[d].emitted == "";
    }
  }

  lemma CloseBeforeLater(log: seq<Write>, a: nat, b: nat)
    requires HasCloseBefore(log, a) && a <= b
    ensures HasCloseBefore(log, b)
  {
  }

  // ---------------------------------------------------------------- the wire

  /** The log up to its first closing write. */
  function FirstClose(log: seq<Write>): (n: nat)
    ensures n <= |log| && NoneClose(log, n) && (n < |log| ==> log[n].closeAfter)
  {
    if log == [] then 0
    else
      var n := FirstClose(log[..|log| - 1]);
      if n < |log| - 1 || log[|log| - 1].closeAfter then n else |log|
  }

  /** A slot that left the queue uncancelled, or had nothing to send, has emitted all of its output. */
  lemma FullBefore(s: Session, n: nat)
    requires SlotsInv(s) && n <= s.front && forall i :: 0 <= i < n && s.slots[i].dropped ==> Output(s.slots[i]) == ""
    ensures forall i :: 0 <= i < n ==> s.slots[i].emitted == Output(s.slots[i])
    ensures Emits(s.slots, n) == Outputs(s.slots, n)
  {
    hide Output, Bytes;
    forall i | 0 <= i < n ensures s.slots[i].emitted == Output(s.slots[i]) {
      assert SlotInv(s.slots[i], i, false);
      FullSlot(s.slots[i], i);
    }
    EmitsAreOutputs(s.slots, n);
  }

  lemma FullSlot(slot: Slot, i: nat)
    requires SlotInv(slot, i, false) && (slot.dropped ==> Output(slot) == "")
    ensures slot.emitted == Output(slot)
  {
    hide BodyOutput;
    assert slot.emitted + "" == slot.emitted;
    assert |slot.emitted| <= |slot.emitted + Bytes(slot.streamWrites)|;
  }

  /** While open and tidy, the wire is a prefix of the outputs in request order. */
  lemma WirePrefix(s: Session, c: Config, from: nat)
    requires Inv(s, c, from) && !s.closed && Tidy(s)
    ensures InPrefix(s)
  {
    hide SlotInv, Bytes, Silent, Emits, Outputs, Output, FirstClose, Sorted, QueueInv, Tidy;
    var n := FirstClose(s.log);
    var m := |s.wire|;
    WireStops(s, n);
    if n < |s.log| {
      assert CloseMark(s, n);
      var k := s.log[n].slot;
      NoneSkipped(s, n);
      FullBefore(s, k + 1);
      OutputsGrow(s.slots, k + 1, |s.slots|);
      BytesPrefix(s.log, m, n + 1);
    } else {
      BytesPrefix(s.log, m, |s.log|);
      assert s.log[..|s.log|] == s.log;
      NothingSkipped(s);
      AllButFront(s);
    }
  }

  /** While open and tidy, every request before one on the wire went out entirely. */
  lemma WireOrder(s: Session, c: Config, from: nat)
    requires Inv(s, c, from) && !s.closed && Tidy(s)
    ensures InOrder(s)
  {
    hide SlotInv, Bytes, Silent, Emits, Output, FirstClose, Sorted, QueueInv, Tidy;
    var n := FirstClose(s.log);
    WireStops(s, n);
    if n < |s.log| {
      assert CloseMark(s, n);
      NoneSkipped(s, n);
      FullBefore(s, s.log[n].slot + 1);
    } else {
      NothingSkipped(s);
      FullBefore(s, s.front);
    }
    forall j, d | 0 <= j < |s.wire| && 0 <= d < s.wire[j].slot && d < |s.slots|
      ensures s.slots[d].emitted == Output(s.slots[d])
    {
      assert s.wire[j] == s.log[j];
      if n < |s.log| {
        SortedAt(s.log, j, n);
      }
    }
  }

  lemma SortedAt(log: seq<Write>, j: nat, n: nat)
    requires Sorted(log) && j <= n < |log|
    ensures log[j].slot <= log[n].slot
  {
  }

  lemma WireStops(s: Session, n: nat)
    requires QueueInv(s) && !s.closed && n == FirstClose(s.log)
    ensures |s.wire| <= |s.log| && s.wire == s.log[..|s.wire|]
    ensures n < |s.log| ==> |s.wire| <= n + 1 && s.log[n].closeAfter
  {
  }

  lemma NoneSkipped(s: Session, n: nat)
    requires Tidy(s) && OrderInv(s) && n == FirstClose(s.log) < |s.log| && s.log[n].slot < |s.slots|
    ensures forall d :: 0 <= d <= s.log[n].slot && s.slots[d].dropped ==> Output(s.slots[d]) == ""
  {
    hide Bytes, Emits, Output;
    forall d | 0 <= d <= s.log[n].slot && s.slots[d].dropped ensures Output(s.slots[d]) == "" {
      FirstBefore(s.log, d);
    }
  }

  lemma FirstBefore(log: seq<Write>, d: nat)
    requires Sorted(log)
    ensures HasCloseBefore(log, d) ==> var n := FirstClose(log); n < |log| && log[n].slot < d
  {
    if HasCloseBefore(log, d) {
      var j :| 0 <= j < |log| && log[j].closeAfter && log[j].slot < d;
      assert FirstClose(log) <= j;
    }
  }

  lemma NothingSkipped(s: Session)
    requires Tidy(s) && FirstClose(s.log) == |s.log|
    ensures forall d :: 0 <= d < |s.slots| && s.slots[d].dropped ==> Output(s.slots[d]) == ""
  {
    hide Bytes, Output;
  }

  lemma AllButFront(s: Session)
    requires SlotsInv(s) && OrderInv(s)
    requires forall d :: 0 <= d < |s.slots| && s.slots[d].dropped ==> Output(s.slots[d]) == ""
    ensures Bytes(s.log) <= Outputs(s.slots, |s.slots|)
  {
    hide SlotInv, Bytes, Sorted, Output;
    var f := s.front;
    FullBefore(s, f);
    if f < |s.slots| {
      EmitsBehind(s.slots, f + 1, |s.slots|);
      assert SlotInv(s.slots[f], f, true);
      PartSlot(s.slots[f], f);
      OutputsGrow(s.slots, f + 1, |s.slots|);
      PrefixUnder(Emits(s.slots, f), s.slots[f].emitted, Output(s.slots[f]));
    }
  }

  lemma PrefixUnder(a: string, b: string, d: string)
    requires b <= d
    ensures a + b <= a + d
  {
  }

  lemma PartSlot(slot: Slot, i: nat)
    requires SlotInv(slot, i, true)
    ensures slot.emitted <= Output(slot)
  {
    hide Bytes, BodyOutput;
  }

  // ---------------------------------------------------------------- flushing all that is ready

  lemma {:induction false} FlushInv(s: Session, c: Config, from: nat)
    requires Inv(s, c, from) && !s.closed
    ensures Inv(FlushSlots(s), c, from) && !FlushSlots(s).closed
    decreases |s.slots| - s.front
  {
    hide SlotInv, QueueInv, StopInv, OrderInv, AccountInv, HasCloseBefore, Silent, Bytes, FlushStream, FlushWhole,
         CancelAll, NextUnsent, NoneLeftSilent;
    if s.front < |s.slots| {
      var slot := s.slots[s.front];
      if slot.streaming {
        StreamStep(s, c, from);
        if slot.completed {
          var r := FlushStream(s).(front := s.front + 1);
          FrontKept(s);
          PassedInv(r, slot.closeAfter, c, from);
          FlushInv(Passed(r, slot.closeAfter), c, from);
        }
      } else if slot.completed {
        WholeStep(s, c, from);
        FrontKept(s);
        PassedInv(FlushWhole(s), slot.closeAfter, c, from);
        FlushInv(Passed(FlushWhole(s), slot.closeAfter), c, from);
      }
    }
  }

  lemma FrontKept(s: Session)
    requires s.front < |s.slots|
    ensures FlushStream(s).front == s.front && |FlushStream(s).slots| == |FlushWhole(s).slots| == |s.slots|
  {
    hide Bytes;
  }

  lemma SilentSlot(slots: seq<Slot>, i: nat, from: nat)
    requires from <= i < |slots|
    ensures Silent(slots[i]) && !slots[i].dropped ==> !NoneLeftSilent(slots, from, i + 1)
  {
  }

  lemma PassedInv(s: Session, closeAfter: bool, c: Config, from: nat)
    requires Inv(s, c, from) && !s.closed
    requires closeAfter ==> (HasCloseBefore(s.log, s.front) || !NoneLeftSilent(s.slots, from, s.front)) && NextUnsent(s)
    ensures Inv(Passed(s, closeAfter), c, from) && !Passed(s, closeAfter).closed
    ensures |Passed(s, closeAfter).slots| == |s.slots| && s.front <= Passed(s, closeAfter).front
  {
    hide SlotInv, QueueInv, StopInv, OrderInv, AccountInv, HasCloseBefore, NoneLeftSilent, NextUnsent;
    if closeAfter {
      CancelBehind(s, Cancelled, c, from);
    }
  }

  // ---------------------------------------------------------------- one slot changes

  /** `b` has its head queued, unless `a` had already passed it on. */
  predicate NoLostHead(a: Slot, b: Slot) {
    b.headersQueued && b.streamWrites == [] ==> a.headersQueued && a.streamWrites == []
  }

  /** A queued slot that grows, is claimed or completes. */
  lemma GrowInv(s: Session, i: nat, slot: Slot, c: Config, from: nat)
    requires Inv(s, c, from) && !s.closed && s.front <= i < |s.slots|
    requires SlotInv(slot, i, true) && slot.emitted == s.slots[i].emitted && NoLostHead(s.slots[i], slot)
    requires StreamBytes(s.slots[i]) <= StreamBytes(slot)
    ensures Inv(Grow(s, i, slot), c, from)
  {
    hide SlotInv, Bytes, Silent, Sorted, StreamBytes, CloseMark, HasCloseBefore, KeptSince, Sent, Closes;
    var r := Grow(s, i, slot);
    QueueIgnores(s, r);
    EmitsSame(s.slots, r.slots, |s.slots|);
    StreamedUpdate(s.slots, i, slot, |s.slots|);
    forall k | 0 <= k < |r.slots| ensures SlotInv(r.slots[k], k, r.front <= k) {
      assert SlotInv(s.slots[k], k, s.front <= k);
    }
    forall j | 0 <= j < |r.log| ensures CloseMark(r, j) {
      assert CloseMark(s, j);
      KeptMark(s, r, j);
    }
    NotDropped(slot, i);
    GrowKept(s, i, slot, from);
  }

  lemma GrowKept(s: Session, i: nat, slot: Slot, from: nat)
    requires KeptSince(s, from) && !s.closed && s.front <= i < |s.slots| && !slot.dropped
    requires StreamBytes(s.slots[i]) <= StreamBytes(slot)
    ensures KeptSince(Grow(s, i, slot), from)
  {
    hide Bytes, Silent, StreamBytes, HasCloseBefore, Output;
    var r := Grow(s, i, slot);
    if NoneLeftSilent(r.slots, from, r.front) {
      forall k | from <= k < s.front && k < |s.slots| ensures s.slots[k].dropped || !Silent(s.slots[k]) {
        assert r.slots[k] == s.slots[k];
      }
    }
  }

  lemma NotDropped(slot: Slot, i: nat)
    requires SlotInv(slot, i, true)
    ensures !slot.dropped
  {
    hide Bytes, Output;
  }

  lemma UpdateInv(s: Session, i: nat, slot: Slot, c: Config, from: nat)
    requires Inv(s, c, from) && !s.closed && s.front <= i < |s.slots|
    requires SlotInv(slot, i, true) && slot.emitted == s.slots[i].emitted && NoLostHead(s.slots[i], slot)
    requires slot.streamWrites == s.slots[i].streamWrites
    ensures Inv(Update(s, i, slot), c, from)
  {
    hide SlotInv, Bytes, Silent, Inv;
    GrowInv(s, i, slot, c, from);
    assert Grow(s, i, slot) == Update(s, i, slot);
  }

  /** Backpressure is no part of the invariants. */
  lemma BackpressureSlot(slot: Slot, i: nat, queued: bool, b: bool)
    requires SlotInv(slot, i, queued)
    ensures SlotInv(slot.(backpressured := b), i, queued)
    ensures Output(slot.(backpressured := b)) == Output(slot) && Silent(slot.(backpressured := b)) == Silent(slot)
  {
    hide Bytes;
  }

  predicate SameButBackpressure(s: Session, r: Session) {
    && r == s.(slots := r.slots) && |r.slots| == |s.slots|
    && forall i :: 0 <= i < |s.slots| ==> r.slots[i] == s.slots[i].(backpressured := r.slots[i].backpressured)
  }

  lemma BackpressureInv(s: Session, r: Session, c: Config, from: nat)
    requires SlotsInv(s) && OrderInv(s) && StopInv(s, from) && AccountInv(s, c) && SameButBackpressure(s, r)
    ensures SlotsInv(r) && OrderInv(r) && StopInv(r, from) && AccountInv(r, c)
    ensures (InOrder(s) ==> InOrder(r)) && (InPrefix(s) ==> InPrefix(r))
    ensures NoneLeftSilent(r.slots, from, r.front) ==> NoneLeftSilent(s.slots, from, s.front)
  {
    hide SlotInv, Bytes, Silent, Sorted, StreamBytes, Output, StopInv, InOrder, InPrefix, NoneLeftSilent;
    forall i | 0 <= i < |s.slots| ensures SlotInv(r.slots[i], i, r.front <= i) {
      assert SlotInv(s.slots[i], i, s.front <= i);
      BackpressureSlot(s.slots[i], i, s.front <= i, r.slots[i].backpressured);
    }
    EmitsSame(s.slots, r.slots, |s.slots|);
    StreamedSame(s.slots, r.slots, |s.slots|);
    BackpressureKept(s, r, from);
  }

  lemma BackpressureKept(s: Session, r: Session, from: nat)
    requires SlotsInv(s) && StopInv(s, from) && SameButBackpressure(s, r)
    ensures StopInv(r, from)
    ensures (InOrder(s) ==> InOrder(r)) && (InPrefix(s) ==> InPrefix(r))
    ensures NoneLeftSilent(r.slots, from, r.front) ==> NoneLeftSilent(s.slots, from, s.front)
  {
    hide SlotInv, Bytes, Silent, CloseMark, Output, HasCloseBefore, Sent;
    forall i | 0 <= i < |s.slots|
      ensures Output(r.slots[i]) == Output(s.slots[i]) && Silent(r.slots[i]) == Silent(s.slots[i])
    {
      assert SlotInv(s.slots[i], i, s.front <= i);
      BackpressureSlot(s.slots[i], i, s.front <= i, r.slots[i].backpressured);
    }
    OutputsSame(s.slots, r.slots, |s.slots|);
    forall j | 0 <= j < |r.log| ensures CloseMark(r, j) {
      assert CloseMark(s, j);
      KeptMark(s, r, j);
    }
    if NoneLeftSilent(r.slots, from, r.front) {
      forall i | from <= i < s.front && i < |s.slots| ensures s.slots[i].dropped || !Silent(s.slots[i]) {
        assert r.slots[i].dropped || !Silent(r.slots[i]);
      }
    }
  }

  // ---------------------------------------------------------------- streaming into a slot

  lemma NewWrites(slot: Slot, i: nat, payload: string, closeAfter: bool)
    requires WritesInv(slot, i) && forall j :: 0 <= j < |slot.streamWrites| ==> !slot.streamWrites[j].closeAfter
    requires closeAfter ==> slot.closeAfter && (slot.suppressBody || slot.chunked)
    ensures var r := QueueStream(slot, i, payload, closeAfter);
            && Bytes(r.streamWrites) == Bytes(slot.streamWrites) + payload
            && WritesInv(r.(completed := true), i)
            && (!closeAfter ==> WritesInv(r, i) && forall j :: 0 <= j < |r.streamWrites| ==> !r.streamWrites[j].closeAfter)
  {
    hide Bytes, WritesInv;
    var w := Write(i, payload, closeAfter, false);
    BytesSnoc(slot.streamWrites, w);
    AppendWrite(slot, i, w);
  }

  lemma AppendWrite(slot: Slot, i: nat, w: Write)
    requires WritesInv(slot, i) && forall j :: 0 <= j < |slot.streamWrites| ==> !slot.streamWrites[j].closeAfter
    requires w.slot == i && !w.countsResponse
    requires w.closeAfter ==> slot.closeAfter && (slot.suppressBody || slot.chunked)
    ensures var r := slot.(streamWrites := slot.streamWrites + [w]);
            && WritesInv(r.(completed := true), i)
            && (!w.closeAfter ==> WritesInv(r, i) && forall j :: 0 <= j < |r.streamWrites| ==> !r.streamWrites[j].closeAfter)
  {
  }

  /** An active slot has queued nothing that closes. */
  lemma ActiveWrites(slot: Slot, i: nat)
    requires SlotInv(slot, i, true) && !slot.completed
    ensures WritesInv(slot, i) && forall j :: 0 <= j < |slot.streamWrites| ==> !slot.streamWrites[j].closeAfter
  {
    hide Bytes, Output;
  }

  lemma HeadSlot(slot: Slot, i: nat, head: string, hasLength: bool, closeAfter: bool)
    requires SlotInv(slot, i, true) && !slot.completed && !slot.ended && slot.claimed
    requires closeAfter ==> slot.closeAfter && slot.suppressBody
    requires !slot.headersQueued || !closeAfter
    ensures var r := QueueHead(slot.(streaming := true), i, head, hasLength, closeAfter);
            && r.emitted + Bytes(r.streamWrites) == r.head + BodyOutput(r)
            && WritesInv(r.(completed := true), i)
            && (!closeAfter ==> WritesInv(r, i) && forall j :: 0 <= j < |r.streamWrites| ==> !r.streamWrites[j].closeAfter)
            && (closeAfter ==> r.streamWrites != [] && r.streamWrites[|r.streamWrites| - 1].closeAfter)
            && (slot.suppressBody ==> r.payloads == [])
  {
    hide Bytes, WritesInv;
    ActiveWrites(slot, i);
    var claimed := slot.(streaming := true);
    if !slot.headersQueued {
      assert slot.streamWrites == [] && slot.emitted == "" by { NoHeadYet(slot, i); }
      var headed := claimed.(chunked := !hasLength, head := head, headersQueued := true);
      PlainWrites(slot, headed, i);
      NewWrites(headed, i, head, closeAfter);
      NoBytes();
    } else {
      PlainWrites(slot, claimed, i);
      PlainWrites(slot, claimed.(completed := true), i);
    }
  }

  lemma PlainWrites(a: Slot, b: Slot, i: nat)
    requires WritesInv(a, i) && forall j :: 0 <= j < |a.streamWrites| ==> !a.streamWrites[j].closeAfter
    requires a.streamWrites == b.streamWrites
    ensures WritesInv(b, i)
  {
  }

  lemma NoHeadYet(slot: Slot, i: nat)
    requires SlotInv(slot, i, true) && !slot.headersQueued
    ensures slot.streamWrites == [] && slot.emitted == "" && slot.payloads == []
  {
  }

  lemma {:induction false} ChunksSnoc(payloads: seq<string>, payload: string)
    ensures Chunks(payloads + [payload]) == Chunks(payloads) + Chunked.SerializeChunk(payload)
    ensures Joined(payloads + [payload]) == Joined(payloads) + payload
  {
    assert (payloads + [payload])[..|payloads|] == payloads;
  }

  /** A payload put behind the head. */
  lemma GrownSlot(slot: Slot, i: nat, head: string, hasLength: bool, payload: string)
    requires SlotInv(slot, i, true) && !slot.completed && !slot.ended && slot.claimed && !slot.suppressBody
    ensures var r := QueuePayload(QueueHead(slot.(streaming := true), i, head, hasLength, false), i, payload);
            SlotInv(r, i, true) && r.emitted == slot.emitted && !r.completed && NoLostHead(slot, r)
  {
    hide Bytes, Chunks, Joined, WritesInv, Chunked.SerializeChunk;
    HeadSlot(slot, i, head, hasLength, false);
    var headed := QueueHead(slot.(streaming := true), i, head, hasLength, false);
    if payload != "" {
      ChunksSnoc(headed.payloads, payload);
      var grown := headed.(payloads := headed.payloads + [payload]);
      PlainWrites(headed, grown, i);
      var framed := if grown.chunked then Chunked.SerializeChunk(payload) else payload;
      NewWrites(grown, i, framed, false);
      var r := QueueStream(grown, i, framed, false);
      Longer(headed.emitted, Bytes(headed.streamWrites), framed, headed.head, BodyOutput(headed));
      assert BodyOutput(r) == BodyOutput(headed) + framed by {
        assert Chunks(headed.payloads) + "" == Chunks(headed.payloads);
        assert Chunks(r.payloads) + "" == Chunks(r.payloads);
      }
    }
  }

  lemma Longer(a: string, b: string, w: string, x: string, y: string)
    requires a + b == x + y
    ensures a + (b + w) == x + (y + w)
  {
    assert a + (b + w) == a + b + w;
    assert x + (y + w) == x + y + w;
  }

  /** An ended stream: head, body and, when chunked, the last chunk, which closes a close-after response. */
  lemma EndSlot(slot: Slot, i: nat, head: string, hasLength: bool)
    requires SlotInv(slot, i, true) && !slot.completed && !slot.ended && slot.claimed
    ensures var r := RunHooks(EndedSlot(slot, i, head, hasLength).(completed := true), Completed);
            SlotInv(r, i, true) && r.emitted == slot.emitted && NoLostHead(slot, r)
            && StreamBytes(r) == StreamBytes(EndedSlot(slot, i, head, hasLength))
  {
    hide Bytes, Chunks, Joined, WritesInv;
    var close := slot.suppressBody && slot.closeAfter;
    HeadEarlier(slot, i);
    HeadSlot(slot, i, head, hasLength, close);
    EndHead(slot, i, head, hasLength);
    var headed := QueueHead(slot.(streaming := true), i, head, hasLength, close);
    var ended := headed.(ended := true);
    if !slot.suppressBody && headed.chunked {
      PlainWrites(headed, ended, i);
      NewWrites(ended, i, Chunked.LAST_CHUNK, slot.closeAfter);
      Longer(headed.emitted, Bytes(headed.streamWrites), Chunked.LAST_CHUNK, headed.head, BodyOutput(headed));
      assert Chunks(headed.payloads) + "" == Chunks(headed.payloads);
      WritesIgnore(EndedSlot(slot, i, head, hasLength).(completed := true), i);
    } else {
      WritesIgnore(headed.(completed := true), i);
    }
  }

  lemma HeadEarlier(slot: Slot, i: nat)
    requires SlotInv(slot, i, true) && !slot.ended
    ensures slot.suppressBody ==> !slot.headersQueued
    ensures !slot.completed ==> slot.hooks == [] && !slot.dropped
  {
    hide Bytes, Output;
  }

  lemma EndHead(slot: Slot, i: nat, head: string, hasLength: bool)
    ensures var close := slot.suppressBody && slot.closeAfter;
            var headed := QueueHead(slot.(streaming := true), i, head, hasLength, close);
            QueueHead(slot.(streaming := true, ended := true), i, head, hasLength, close) == headed.(ended := true)
  {
  }

  lemma WritesIgnore(slot: Slot, i: nat)
    requires WritesInv(slot, i)
    ensures WritesInv(slot.(hooks := [Completed]), i)
    ensures WritesInv(slot.(ended := true, hooks := [Completed]), i)
  {
  }

  // ---------------------------------------------------------------- closing

  /** The session closes for good: what is on the wire stays a prefix of the outputs. */
  lemma ShutInv(s: Session, outcome: Outcome, c: Config, from: nat)
    requires !s.closed && SlotsInv(s) && OrderInv(s) && AccountInv(s, c) && outcome in {Cancelled, Failed}
    requires LeftCloses(s) && forall j :: 0 <= j < |s.log| ==> CloseMark(s, j)
    requires s.wire <= s.log && NoneClose(s.wire, if s.wire == [] then 0 else |s.wire| - 1)
    requires from <= s.front && (NoneLeftSilent(s.slots, from, s.front) ==> InOrder(s) && InPrefix(s))
    ensures Inv(CancelAll(s.(closed := true), outcome), c, from)
  {
    hide SlotInv, OrderInv, Bytes, Silent, CloseMark, Outputs, Output, Counted, Streamed, NoneLeftSilent;
    CancelKeeps(s, outcome, c, from);
    var r := CancelAll(s.(closed := true), outcome);
    var open := CancelAll(s, outcome);
    assert r == open.(closed := true);
    ClosedIgnored(open);
    forall j | 0 <= j < |r.log| ensures CloseMark(r, j) {
      assert CloseMark(s, j);
      assert CloseMark(open, j);
      MarkIgnoresClosed(open, j);
    }
  }

  lemma ClosedIgnored(s: Session)
    requires SlotsInv(s) && s.front == |s.slots| && OrderInv(s)
    ensures SlotsInv(s.(closed := true)) && OrderInv(s.(closed := true))
  {
    hide SlotInv, Bytes, Sorted;
  }

  lemma MarkIgnoresClosed(s: Session, j: nat)
    requires j < |s.log| && CloseMark(s, j)
    ensures CloseMark(s.(closed := true), j)
  {
    hide Bytes, Emits;
  }

  /** What an open session knows of its wire. */
  lemma OpenWire(s: Session, c: Config, from: nat)
    requires Inv(s, c, from) && !s.closed
    ensures s.wire <= s.log && NoneClose(s.wire, if s.wire == [] then 0 else |s.wire| - 1)
    ensures from <= s.front && (NoneLeftSilent(s.slots, from, s.front) ==> InOrder(s) && InPrefix(s))
    ensures LeftCloses(s) && forall j :: 0 <= j < |s.log| ==> CloseMark(s, j)
  {
    hide SlotsInv, OrderInv, Bytes, Silent, CloseMark, Outputs, AccountInv, NoneLeftSilent, InOrder, InPrefix, Tidy;
    if NoneLeftSilent(s.slots, from, s.front) {
      WirePrefix(s, c, from);
      WireOrder(s, c, from);
    }
  }

  lemma CloseInv(s: Session, c: Config, from: nat)
    requires Inv(s, c, from)
    ensures Inv(CloseSession(s), c, from)
  {
    hide QueueInv, AccountInv, SlotsInv, OrderInv, StopInv, CancelAll, CloseMark, NoneClose, Bytes, InOrder, InPrefix,
         NoneLeftSilent;
    if !s.closed {
      OpenWire(s, c, from);
      ShutInv(s, Cancelled, c, from);
    }
  }

  /** Cancelling with an error, then closing. */
  lemma FailInv(s: Session, u: Session, c: Config, from: nat)
    requires Inv(s, c, from) && !s.closed && u == s.(writing := u.writing)
    ensures Inv(CloseSession(CancelAll(u, Failed)), c, from)
  {
    hide AccountInv, SlotsInv, OrderInv, StopInv, CloseMark, NoneClose, Bytes, Outputs, Output, NoneLeftSilent,
         QueueInv;
    OpenWire(s, c, from);
    WritingIgnored(s, u, c, from);
    ShutInv(u, Failed, c, from);
    FrontInside(u);
    CancelOnce(u);
  }

  lemma WritingIgnored(s: Session, u: Session, c: Config, from: nat)
    requires SlotsInv(s) && OrderInv(s) && AccountInv(s, c) && u == s.(writing := u.writing)
    requires LeftCloses(s) && forall j :: 0 <= j < |s.log| ==> CloseMark(s, j)
    ensures SlotsInv(u) && OrderInv(u) && AccountInv(u, c) && LeftCloses(u) && forall j :: 0 <= j < |u.log| ==> CloseMark(u, j)
  {
    hide SlotsInv, OrderInv, Bytes, Counted, Streamed, CloseMark, LeftCloses;
    SameSending(s, u, from);
  }

  lemma CancelOnce(s: Session)
    requires s.front <= |s.slots| && !s.closed
    ensures CloseSession(CancelAll(s, Failed)) == CancelAll(s.(closed := true), Failed)
  {
    hide Drop;
    var slots := Dropped(s.slots, s.front, |s.slots|, Failed);
    assert Dropped(slots, |slots|, |slots|, Cancelled) == slots;
  }

  // ---------------------------------------------------------------- a completed write

  lemma PopAccount(s: Session, c: Config)
    requires AccountInv(s, c) && s.writes != []
    ensures AccountInv(PopWrite(s), c)
    ensures |s.writes[0].payload| <= s.pendingBytes
    ensures s.writes[0].countsResponse ==> s.pendingResponses > 0
  {
    hide Streamed;
    var w := s.writes[0];
    assert s.writes == [w] + s.writes[1..];
    CountedSplit([w], s.writes[1..]);
    assert Counted([w]) == if w.countsResponse then 1 else 0;
  }

  /** The session after its front write is done: open with the next write in flight, or closed behind a
      closing write. The two clamped subtractions never clamp. */
  lemma WriteDoneInv(s: Session, ok: bool, c: Config, from: nat)
    requires Inv(s, c, from) && s.writing
    ensures Inv(WriteDone(s, ok, c), c, from)
    ensures !s.closed ==> s.writes != [] && |s.writes[0].payload| <= s.pendingBytes
                          && (s.writes[0].countsResponse ==> s.pendingResponses > 0)
  {
    hide SlotsInv, OrderInv, StopInv, AccountInv, Bytes, PopWrite, NotifyDrains, CancelAll;
    if !s.closed {
      PopAccount(s, c);
    }
    if s.closed {
      IdleClosed(s, c, from);
    } else if !ok {
      FailInv(s, s.(writing := false), c, from);
    } else {
      DrainInv(s, c, from);
    }
  }

  lemma IdleClosed(s: Session, c: Config, from: nat)
    requires Inv(s, c, from) && s.closed
    ensures Inv(s.(writing := false), c, from)
  {
    hide SlotsInv, OrderInv, StopInv, Bytes, Counted, Streamed;
    SameSending(s, s.(writing := false), from);
  }

  function Popped(s: Session, c: Config): Session
    requires s.front <= |s.slots| && s.writes != []
  {
    NotifyDrains(PopWrite(s.(writing := false)), c)
  }

  lemma DrainInv(s: Session, c: Config, from: nat)
    requires Inv(s, c, from) && s.writing && !s.closed
    ensures s.front <= |s.slots| && s.writes != []
    ensures var r := Popped(s, c); Inv(if s.writes[0].closeAfter then CloseSession(r) else FlushNext(r), c, from)
  {
    hide SlotsInv, OrderInv, StopInv, AccountInv, Bytes, NoneLeftSilent, CloseMark, PopWrite, NotifyDrains, CancelAll;
    assert SlotsInv(s) && s.front <= |s.slots| by { FrontInside(s); }
    OpenWire(s, c, from);
    PoppedParts(s, c, from);
    var r := Popped(s, c);
    if s.writes[0].closeAfter {
      assert r.wire == s.wire && r.log == s.log && !r.closed;
      ShutInv(r, Cancelled, c, from);
    } else {
      NextQueue(s, r);
      FlushIgnored(r, c, from);
    }
  }

  lemma FrontInside(s: Session)
    requires SlotsInv(s)
    ensures s.front <= |s.slots|
  {
  }

  /** Everything but the queue, after the front write left and drained slots were told. */
  lemma PoppedParts(s: Session, c: Config, from: nat)
    requires Inv(s, c, from) && !s.closed && s.writes != []
    ensures s.front <= |s.slots|
    ensures var r := Popped(s, c);
            && SlotsInv(r) && OrderInv(r) && StopInv(r, from) && AccountInv(r, c)
            && LeftCloses(r) && (forall j :: 0 <= j < |r.log| ==> CloseMark(r, j))
            && (NoneLeftSilent(r.slots, from, r.front) ==> NoneLeftSilent(s.slots, from, s.front))
            && (InOrder(s) ==> InOrder(r)) && (InPrefix(s) ==> InPrefix(r))
            && r == s.(slots := r.slots, writes := s.writes[1..], writing := false,
                       pendingBytes := r.pendingBytes, pendingResponses := r.pendingResponses)
  {
    hide SlotsInv, OrderInv, AccountInv, QueueInv, Bytes, NoneLeftSilent, CloseMark, HasCloseBefore, InOrder, InPrefix,
         HeadSent, KeptSince;
    FrontInside(s);
    var idle := s.(writing := false);
    PartsIgnored(s, idle, c, from);
    PopAccount(idle, c);
    var p := PopWrite(idle);
    PartsIgnored(idle, p, c, from);
    BackpressureInv(p, NotifyDrains(p, c), c, from);
  }

  lemma PartsIgnored(s: Session, u: Session, c: Config, from: nat)
    requires SlotsInv(s) && OrderInv(s) && StopInv(s, from)
    requires u == s.(writes := u.writes, writing := u.writing, pendingBytes := u.pendingBytes, pendingResponses := u.pendingResponses)
    ensures SlotsInv(u) && OrderInv(u) && StopInv(u, from)
    ensures AccountInv(s, c) && u == s.(writing := u.writing) ==> AccountInv(u, c)
    ensures (InOrder(s) ==> InOrder(u)) && (InPrefix(s) ==> InPrefix(u))
  {
    hide SlotsInv, OrderInv, StopInv, Bytes, Counted, Streamed, Output, Outputs;
    SameSending(s, u, from);
  }

  /** The queue moves on by one. */
  lemma NextQueue(s: Session, r: Session)
    requires QueueInv(s) && !s.closed && s.writing && s.writes != [] && !s.writes[0].closeAfter
    requires r.writes == s.writes[1..] && r.log == s.log && r.wire == s.wire && !r.writing && !r.closed
    ensures QueueInv(FlushNext(r))
  {
    var k := |s.log| - |s.writes|;
    assert s.writes[1..] == s.log[k + 1..];
    assert s.log[k] == s.writes[0];
    if r.writes != [] {
      assert s.log[..k + 1] + [s.log[k + 1]] == s.log[..k + 2];
    }
  }

  lemma FlushIgnored(s: Session, c: Config, from: nat)
    requires SlotsInv(s) && OrderInv(s) && StopInv(s, from) && AccountInv(s, c) && !s.closed
    ensures SlotsInv(FlushNext(s)) && OrderInv(FlushNext(s)) && StopInv(FlushNext(s), from) && AccountInv(FlushNext(s), c)
  {
    hide SlotsInv, OrderInv, StopInv, Bytes, Counted, Streamed;
    SameSending(s, FlushNext(s), from);
  }

  // ---------------------------------------------------------------- a new request

  lemma RequestInv(s: Session, closeAfter: bool, suppressBody: bool, c: Config, from: nat)
    requires Inv(s, c, from)
    ensures Inv(NewRequest(s, closeAfter, suppressBody, c), c, from)
  {
    hide QueueInv, SlotInv, StopInv, Bytes, Sorted, CloseSession, Counted;
    if s.closed {
    } else if c.maxPendingResponses <= |s.slots| - s.front + s.pendingResponses {
      CloseInv(s, c, from);
    } else {
      var slot := NewSlot(closeAfter, suppressBody);
      var r := s.(slots := s.slots + [slot]);
      NewSlotInv(slot, |s.slots|);
      forall i | 0 <= i < |r.slots| ensures SlotInv(r.slots[i], i, r.front <= i) {
        assert i < |s.slots| ==> SlotInv(s.slots[i], i, s.front <= i);
      }
      EmitsSame(s.slots, r.slots, |s.slots|);
      StreamedSame(s.slots, r.slots, |s.slots|);
      QueueIgnores(s, r);
      RequestStop(s, slot, from);
    }
  }

  lemma NewSlotInv(slot: Slot, i: nat)
    requires slot == NewSlot(slot.closeAfter, slot.suppressBody)
    ensures SlotInv(slot, i, true) && !Silent(slot) && slot.emitted == "" && StreamBytes(slot) == 0
  {
  }

  lemma RequestStop(s: Session, slot: Slot, from: nat)
    requires StopInv(s, from) && !s.closed && !slot.dropped && !slot.headersQueued && s.front <= |s.slots|
    ensures StopInv(s.(slots := s.slots + [slot]), from)
  {
    hide Silent, Bytes, HasCloseBefore, CloseMark, Output, Sent;
    var r := s.(slots := s.slots + [slot]);
    forall j | 0 <= j < |r.log| ensures CloseMark(r, j) {
      assert CloseMark(s, j);
      KeptMark(s, r, j);
    }
    if NoneLeftSilent(r.slots, from, r.front) {
      forall i | from <= i < s.front && i < |s.slots| ensures s.slots[i].dropped || !Silent(s.slots[i]) {
        assert r.slots[i] == s.slots[i];
      }
      forall d | 0 <= d < |r.slots| && r.slots[d].dropped
        ensures Output(r.slots[d]) == "" || HasCloseBefore(r.log, d)
      {
        assert s.slots[d].dropped;
      }
    }
  }

  // ---------------------------------------------------------------- answering

  lemma DoneSlot(slot: Slot, i: nat, text: string)
    requires SlotInv(slot, i, true) && !slot.completed && !slot.streaming
    ensures SlotInv(slot.(text := text), i, true)
    ensures var r := RunHooks(slot.(text := text, completed := true), Completed);
            SlotInv(r, i, true) && r.streamWrites == slot.streamWrites && r.emitted == slot.emitted
  {
    hide Bytes;
  }

  function Answered(slot: Slot, text: string): Slot {
    RunHooks(slot.(text := text, completed := true), Completed)
  }

  lemma RespondShape(s: Session, i: nat, text: string, c: Config, from: nat)
    requires Inv(s, c, from) && Active(s, i) && !s.slots[i].claimed && !s.closed
    ensures var u := Update(s, i, Answered(s.slots[i], text));
            && Inv(u, c, from) && Output(u.slots[i]) == text && !u.slots[i].streaming
            && Complete(Update(s, i, s.slots[i].(text := text)), i) == FlushUnlessDispatching(u)
  {
    hide SlotInv, FlushSlots, Update, QueueInv, OrderInv, StopInv, AccountInv;
    var slot := s.slots[i];
    assert SlotInv(slot, i, true);
    UnclaimedSlot(slot, i);
    DoneSlot(slot, i, text);
    var done := Answered(slot, text);
    UpdateInv(s, i, done, c, from);
    UpdateTwice(s, i, slot.(text := text), done);
    UpdateTwice(s, i, done, done);
  }

  lemma RespondInv(s: Session, i: nat, text: string, c: Config, from: nat)
    requires Inv(s, c, from) && Active(s, i) && !s.slots[i].claimed && !s.closed
    ensures Inv(Complete(Update(s, i, s.slots[i].(text := text)), i), c, from)
  {
    hide Inv, Output, FlushSlots, Complete;
    RespondShape(s, i, text, c, from);
    var u := Update(s, i, Answered(s.slots[i], text));
    if !s.dispatching {
      FlushInv(u, c, from);
    }
  }

  lemma UnclaimedSlot(slot: Slot, i: nat)
    requires SlotInv(slot, i, true) && !slot.claimed
    ensures !slot.streaming
  {
    hide Bytes, Output;
  }

  lemma UpdateTwice(s: Session, i: nat, a: Slot, b: Slot)
    requires i < |s.slots|
    ensures Update(Update(s, i, a), i, b) == Update(s, i, b)
    ensures Update(s, i, a).slots[i] == a && Update(s, i, a).front == s.front && |Update(s, i, a).slots| == |s.slots|
    ensures Update(s, i, a).dispatching == s.dispatching && Update(s, i, a).closed == s.closed
  {
    assert s.slots[i := a][i := b] == s.slots[i := b];
  }

  /** Nothing of a queued whole response has been emitted, so it may change. */
  lemma AmendInv(s: Session, i: nat, text: string, c: Config, from: nat)
    requires Inv(s, c, from) && Amendable(s, i)
    ensures !s.closed && Inv(Update(s, i, s.slots[i].(text := text)), c, from)
  {
    hide SlotInv, Update, QueueInv, OrderInv, StopInv, AccountInv;
    assert SlotInv(s.slots[i], i, true);
    AmendedSlot(s.slots[i], i, text);
    UpdateInv(s, i, s.slots[i].(text := text), c, from);
  }

  lemma AmendedSlot(slot: Slot, i: nat, text: string)
    requires SlotInv(slot, i, true) && !slot.streaming
    ensures SlotInv(slot.(text := text), i, true)
  {
    hide Bytes;
  }

  lemma ClaimInv(s: Session, i: nat, c: Config, from: nat)
    requires Inv(s, c, from) && Active(s, i) && !s.slots[i].claimed && !s.closed
    ensures Inv(Update(s, i, s.slots[i].(claimed := true)), c, from)
  {
    hide SlotInv, Silent, Update, QueueInv, OrderInv, StopInv, AccountInv;
    assert SlotInv(s.slots[i], i, true);
    UnclaimedSlot(s.slots[i], i);
    ClaimedSlot(s.slots[i], i);
    UpdateInv(s, i, s.slots[i].(claimed := true), c, from);
  }

  lemma ClaimedSlot(slot: Slot, i: nat)
    requires SlotInv(slot, i, true) && !slot.streaming
    ensures SlotInv(slot.(claimed := true), i, true)
  {
    hide Bytes;
  }

  lemma MutedSlot(slot: Slot, i: nat)
    requires SlotInv(slot, i, true) && slot.suppressBody && slot.claimed && !slot.completed && !slot.ended
    ensures SlotInv(slot.(streaming := true), i, true)
  {
  }

  lemma StreamGrown(s: Session, i: nat, head: string, hasLength: bool, payload: string, c: Config, from: nat)
    requires Inv(s, c, from) && Active(s, i) && s.slots[i].claimed && !s.closed
    requires !s.slots[i].ended && !s.slots[i].suppressBody
    ensures var grown := QueuePayload(QueueHead(s.slots[i].(streaming := true), i, head, hasLength, false), i, payload);
            StreamBytes(s.slots[i]) <= StreamBytes(grown) && Inv(Grow(s, i, grown), c, from)
  {
    hide SlotInv, Silent, QueueInv, OrderInv, StopInv, AccountInv, Bytes, QueueHead, QueuePayload, Grow, StreamBytes;
    var slot := s.slots[i];
    assert SlotInv(slot, i, true);
    GrownSlot(slot, i, head, hasLength, payload);
    BytesGrow(slot, i, head, hasLength, payload);
    GrowInv(s, i, QueuePayload(QueueHead(slot.(streaming := true), i, head, hasLength, false), i, payload), c, from);
  }

  lemma StreamInv(s: Session, i: nat, head: string, hasLength: bool, payload: string, c: Config, from: nat)
    requires Inv(s, c, from) && Active(s, i) && s.slots[i].claimed && !s.closed
    ensures Inv(StreamWrite(s, i, head, hasLength, payload, c), c, from)
  {
    hide SlotInv, Silent, FlushSlots, QueueInv, OrderInv, StopInv, AccountInv, Bytes, QueueHead, QueuePayload, Grow,
         Update, StreamBytes;
    var slot := s.slots[i];
    assert SlotInv(slot, i, true);
    if slot.ended || slot.backpressured {
    } else if slot.suppressBody {
      MutedSlot(slot, i);
      UpdateInv(s, i, slot.(streaming := true), c, from);
    } else {
      StreamGrown(s, i, head, hasLength, payload, c, from);
      var grown := QueuePayload(QueueHead(slot.(streaming := true), i, head, hasLength, false), i, payload);
      FrontOfGrow(s, i, grown);
      FlushInv(Grow(s, i, grown), c, from);
      PressInv(FlushSlots(Grow(s, i, grown)), i, c, from);
    }
  }

  lemma FrontOfGrow(s: Session, i: nat, slot: Slot)
    requires i < |s.slots| && StreamBytes(s.slots[i]) <= StreamBytes(slot)
    ensures var r := Grow(s, i, slot);
            && r.front == s.front && |r.slots| == |s.slots| && r.closed == s.closed
            && r.dispatching == s.dispatching && r.slots[i] == slot
  {
  }

  lemma PressInv(s: Session, i: nat, c: Config, from: nat)
    requires Inv(s, c, from) && i < |s.slots|
    ensures Inv(Update(s, i, s.slots[i].(backpressured := true)), c, from)
  {
    hide SlotInv, StopInv, OrderInv, AccountInv, SlotsInv, QueueInv;
    var r := Update(s, i, s.slots[i].(backpressured := true));
    BackpressureInv(s, r, c, from);
    QueueIgnores(s, r);
  }

  function Done(slot: Slot, i: nat, head: string, hasLength: bool): Slot {
    RunHooks(EndedSlot(slot, i, head, hasLength).(completed := true), Completed)
  }

  lemma EndShape(s: Session, i: nat, head: string, hasLength: bool, c: Config, from: nat)
    requires Inv(s, c, from) && Active(s, i) && s.slots[i].claimed && !s.closed
    ensures !s.slots[i].ended && SlotInv(s.slots[i], i, true)
    ensures var done := Done(s.slots[i], i, head, hasLength);
            && StreamBytes(s.slots[i]) <= StreamBytes(done)
            && Inv(Grow(s, i, done), c, from)
            && StreamEnd(s, i, head, hasLength) == FlushUnlessDispatching(FlushUnlessDispatching(Grow(s, i, done)))
  {
    hide SlotInv, Silent, FlushSlots, QueueInv, OrderInv, StopInv, AccountInv, Bytes, EndedSlot, Grow, Update,
         StreamBytes, RunHooks;
    var slot := s.slots[i];
    assert SlotInv(slot, i, true);
    NotEnded(slot, i);
    var ended := EndedSlot(slot, i, head, hasLength);
    EndSlot(slot, i, head, hasLength);
    BytesEnd(slot, i, head, hasLength);
    EndedNotDone(slot, i, head, hasLength);
    var done := Done(slot, i, head, hasLength);
    GrowInv(s, i, done, c, from);
    GrowThenUpdate(s, i, ended, done);
    FrontOfGrow(s, i, ended);
    FrontOfGrow(s, i, done);
  }

  lemma NotEnded(slot: Slot, i: nat)
    requires SlotInv(slot, i, true) && !slot.completed
    ensures !slot.ended
  {
    hide Bytes, Output;
  }

  lemma EndInv(s: Session, i: nat, head: string, hasLength: bool, c: Config, from: nat)
    requires Inv(s, c, from) && Active(s, i) && s.slots[i].claimed && !s.closed
    ensures Inv(StreamEnd(s, i, head, hasLength), c, from)
  {
    hide Inv, FlushSlots, StreamEnd, Grow, StreamBytes, Done;
    EndShape(s, i, head, hasLength, c, from);
    var r := Grow(s, i, Done(s.slots[i], i, head, hasLength));
    FrontOfGrow(s, i, Done(s.slots[i], i, head, hasLength));
    if !s.dispatching {
      FlushInv(r, c, from);
      FlushInv(FlushSlots(r), c, from);
      InvFront(FlushSlots(r), c, from);
    }
  }

  lemma EndedNotDone(slot: Slot, i: nat, head: string, hasLength: bool)
    ensures EndedSlot(slot, i, head, hasLength).completed == slot.completed
  {
  }

  lemma GrowThenUpdate(s: Session, i: nat, a: Slot, b: Slot)
    requires i < |s.slots| && StreamBytes(s.slots[i]) <= StreamBytes(a) == StreamBytes(b)
    ensures Update(Grow(s, i, a), i, b) == Grow(s, i, b)
  {
    hide StreamBytes;
    assert s.slots[i := a][i := b] == s.slots[i := b];
  }

  // ---------------------------------------------------------------- every run

  lemma HandleInv(s: Session, e: Event, c: Config, from: nat)
    requires Inv(s, c, from)
    ensures s.front <= |s.slots| && Inv(Handle(s, e, c), c, from)
  {
    hide SlotInv, QueueInv, StopInv, OrderInv, AccountInv, NewRequest, FlushSlots, Complete, Update, StreamWrite,
         StreamEnd, WriteDone, CloseSession, CancelAll;
    match e
    case Request(closeAfter, suppressBody) => RequestInv(s, closeAfter, suppressBody, c, from);
    case DispatchBegins => DispatchIgnored(s, true, c, from);
    case DispatchEnds =>
      DispatchIgnored(s, false, c, from);
      if s.closed {
        NothingToFlush(s.(dispatching := false));
      } else {
        FlushInv(s.(dispatching := false), c, from);
      }
    case Respond(i, text) => if Active(s, i) && !s.slots[i].claimed { RespondInv(s, i, text, c, from); }
    case Amend(i, text) => if Amendable(s, i) { AmendInv(s, i, text, c, from); }
    case Claim(i) => if Active(s, i) && !s.slots[i].claimed { ClaimInv(s, i, c, from); }
    case Stream(i, head, hasLength, payload) =>
      if Active(s, i) && s.slots[i].claimed { StreamInv(s, i, head, hasLength, payload, c, from); }
    case EndStream(i, head, hasLength) =>
      if Active(s, i) && s.slots[i].claimed { EndInv(s, i, head, hasLength, c, from); }
    case Written(ok) => if s.writing { WriteDoneInv(s, ok, c, from); }
    case BodyTimeout => if !s.closed { FailInv(s, s, c, from); }
    case Close => CloseInv(s, c, from);
  }

  lemma NothingToFlush(s: Session)
    requires s.front == |s.slots|
    ensures FlushSlots(s) == s
  {
  }

  lemma DispatchIgnored(s: Session, b: bool, c: Config, from: nat)
    requires Inv(s, c, from)
    ensures Inv(s.(dispatching := b), c, from)
  {
    hide SlotsInv, OrderInv, StopInv, Bytes, Counted, Streamed;
    SameSending(s, s.(dispatching := b), from);
  }

  lemma {:induction false} RunInv(s: Session, events: seq<Event>, c: Config, from: nat)
    requires Inv(s, c, from)
    ensures s.front <= |s.slots| && Inv(Run(s, events, c), c, from)
    decreases |events|
  {
    hide Inv, Handle;
    if events != [] {
      HandleInv(s, events[0], c, from);
      RunInv(Handle(s, events[0], c), events[1..], c, from);
    }
    InvFront(s, c, from);
  }

  lemma InvFront(s: Session, c: Config, from: nat)
    requires Inv(s, c, from)
    ensures s.front <= |s.slots|
  {
  }

  lemma FreshInv(c: Config)
    ensures Inv(FRESH, c, 0)
  {
  }

  // ---------------------------------------------------------------- main results

  /** In every run: the bytes handed to the transport are a prefix of what the requests have emitted, in
      request order and never interleaved; what a request emitted is a prefix of its output, all of it once
      it left the queue uncancelled, and nothing while requests before it are still queued. */
  lemma NeverInterleaved(events: seq<Event>, c: Config)
    ensures var s := Run(FRESH, events, c);
            && s.front <= |s.slots|
            && Bytes(s.wire) <= Emits(s.slots, |s.slots|)
            && Sorted(s.wire)
            && forall i :: 0 <= i < |s.slots| ==>
                 && s.slots[i].emitted <= Output(s.slots[i])
                 && (i < s.front && !s.slots[i].dropped ==> s.slots[i].emitted == Output(s.slots[i]))
                 && (s.front < i ==> s.slots[i].emitted == "")
  {
    hide Run, SlotInv, Output, Bytes, Emits, CloseMark, Stops, KeptSince;
    FreshInv(c);
    RunInv(FRESH, events, c, 0);
    var s := Run(FRESH, events, c);
    assert s.wire <= s.log;
    assert s.wire == s.log[..|s.wire|] && s.log == s.log[..|s.log|];
    BytesPrefix(s.log, |s.wire|, |s.log|);
    forall i | 0 <= i < |s.slots|
      ensures s.slots[i].emitted <= Output(s.slots[i])
      ensures i < s.front && !s.slots[i].dropped ==> s.slots[i].emitted == Output(s.slots[i])
    {
      assert SlotInv(s.slots[i], i, s.front <= i);
      EmittedPrefix(s.slots[i], i, s.front <= i);
    }
  }

  lemma EmittedPrefix(slot: Slot, i: nat, queued: bool)
    requires SlotInv(slot, i, queued)
    ensures slot.emitted <= Output(slot)
    ensures !queued && !slot.dropped ==> slot.emitted == Output(slot)
  {
    hide BodyOutput;
    if !queued && !slot.dropped {
      FullSlot(slot, i);
    }
  }

  /** Pipelined responses go out whole and in request order unless a close-after response streamed under its
      own content-length has left the queue. */
  lemma ResponsesInOrder(events: seq<Event>, c: Config)
    ensures var s := Run(FRESH, events, c);
            NoneLeftSilent(s.slots, 0, s.front) ==> InOrder(s) && InPrefix(s)
  {
    hide Run, SlotInv, NoneLeftSilent, InOrder, InPrefix, Tidy, Stops, AccountInv, OrderInv, QueueInv;
    FreshInv(c);
    RunInv(FRESH, events, c, 0);
    var s := Run(FRESH, events, c);
    if NoneLeftSilent(s.slots, 0, s.front) && !s.closed {
      WirePrefix(s, c, 0);
      WireOrder(s, c, 0);
    }
  }

  /** A response that went out to be followed by a close leaves a closing write exactly when it was not
      streamed under its own content-length; only such responses leave one. */
  lemma ClosesExactly(events: seq<Event>, c: Config, i: nat)
    ensures var s := Run(FRESH, events, c);
            && s.front <= |s.slots|
            && (i < s.front && !s.slots[i].dropped ==>
                  (HasCloseOf(s.log, i) <==> s.slots[i].closeAfter && !Silent(s.slots[i])))
  {
    hide Run, SlotInv, Silent, Bytes, Outputs, Emits;
    FreshInv(c);
    RunInv(FRESH, events, c, 0);
    var s := Run(FRESH, events, c);
    if HasCloseOf(s.log, i) {
      var j :| 0 <= j < |s.log| && s.log[j].closeAfter && s.log[j].slot == i;
      assert CloseMark(s, j);
    }
  }

  /** At most one write is in flight: an open session with queued writes always has one; nothing follows a
      closing write on the wire. */
  lemma OneWriteInFlight(events: seq<Event>, c: Config)
    ensures var s := Run(FRESH, events, c);
            && (!s.closed ==>
                  (s.writing <==> s.writes != [])
                  && |s.wire| == |s.log| - |s.writes| + if s.writing then 1 else 0)
            && (forall j :: 0 <= j < |s.wire| - 1 ==> !s.wire[j].closeAfter)
            && s.wire <= s.log
  {
    hide Run, SlotInv, Bytes, Outputs, Emits, Silent;
    FreshInv(c);
    RunInv(FRESH, events, c, 0);
  }

  /** Slot accounting: queued slots plus unsent counted responses stay within the limit; the two counters are
      exactly what the queues hold, the bytes of cancelled streams included for ever. */
  lemma SlotAccounting(events: seq<Event>, c: Config)
    ensures var s := Run(FRESH, events, c);
            && s.front <= |s.slots|
            && |s.slots| - s.front + s.pendingResponses <= c.maxPendingResponses
            && s.pendingResponses == Counted(s.writes)
            && s.pendingBytes == |Bytes(s.writes)| + Streamed(s.slots, |s.slots|)
  {
    hide Run, SlotInv, Bytes, Counted, Streamed;
    FreshInv(c);
    RunInv(FRESH, events, c, 0);
  }

  /** Response hooks: never twice; once, with the outcome `Completed`, when the response completed; once, with
      another outcome, when it was cancelled; not yet while it is queued and incomplete. */
  lemma HooksRunOnce(events: seq<Event>, c: Config, i: nat)
    ensures var s := Run(FRESH, events, c);
            i < |s.slots| ==>
              && |s.slots[i].hooks| <= 1
              && (i < s.front ==> |s.slots[i].hooks| == 1)
              && (s.slots[i].completed <==> s.slots[i].hooks == [Completed])
              && (i < s.front && !s.slots[i].completed ==> s.slots[i].dropped)
  {
    hide Run, Output, Bytes;
    FreshInv(c);
    RunInv(FRESH, events, c, 0);
    var s := Run(FRESH, events, c);
    if i < |s.slots| {
      assert SlotInv(s.slots[i], i, s.front <= i);
    }
  }

  /** A completed chunked stream is its head followed by a body that decodes to exactly what was written. */
  lemma StreamedBodyDecodes(events: seq<Event>, c: Config, i: nat)
    ensures var s := Run(FRESH, events, c);
            i < |s.slots| ==>
              var slot := s.slots[i];
              slot.streaming && slot.completed && slot.chunked && !slot.suppressBody ==>
                && Output(slot) == slot.head + Chunked.Encode(slot.payloads)
                && ((forall p :: p in slot.payloads ==> |p| < Chunked.WORD) ==>
                      Chunked.Decode(Chunked.Encode(slot.payloads), 0) == Chunked.Decoded(Concat(slot.payloads)))
  {
    hide Run, Bytes, Chunks, Chunked.Encode, Chunked.Decode;
    FreshInv(c);
    RunInv(FRESH, events, c, 0);
    var s := Run(FRESH, events, c);
    if i < |s.slots| {
      var slot := s.slots[i];
      assert SlotInv(slot, i, s.front <= i);
      EncodeIsChunks(slot.payloads);
      if forall p :: p in slot.payloads ==> |p| < Chunked.WORD {
        ChunkCoding.ChunkRoundTrip(slot.payloads);
      }
    }
  }
}
