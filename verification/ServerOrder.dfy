/** What every run of a server session keeps: queue order, accounting, hooks that run once, and responses
    that never reorder or interleave. */
module ServerOrder {
  import opened Text
  import opened ServerSession
  import Chunked

  // ---------------------------------------------------------------- what a slot stands for

  function Chunks(payloads: seq<string>): string {
    if payloads == [] then "" else Chunks(payloads[..|payloads| - 1]) + Chunked.SerializeChunk(payloads[|payloads| - 1])
  }

  function Joined(payloads: seq<string>): string {
    if payloads == [] then "" else Joined(payloads[..|payloads| - 1]) + payloads[|payloads| - 1]
  }

  /** The response on the wire: head and body of a streaming slot, in the framing its headers chose, or the
      whole text of a completed one. */
  function Output(slot: Slot): string {
    if !slot.streaming then if slot.completed then slot.text else ""
    else if !slot.headersQueued then ""
    else slot.head + BodyOutput(slot)
  }

  function BodyOutput(slot: Slot): string {
    if slot.suppressBody then ""
    else if !slot.chunked then Joined(slot.payloads)
    else Chunks(slot.payloads) + if slot.ended then Chunked.LAST_CHUNK else ""
  }

  /** A close-after response streamed under its own content-length: nothing tells the write queue to close. */
  predicate Silent(slot: Slot) {
    slot.closeAfter && slot.streaming && slot.completed && !slot.suppressBody && !slot.chunked
  }

  /** No such response left the queue between `from` and `to`. */
  predicate NoneLeftSilent(slots: seq<Slot>, from: nat, to: nat) {
    forall i :: from <= i < to && i < |slots| ==> slots[i].dropped || !Silent(slots[i])
  }

  /** The outputs of the first `n` requests, in request order. */
  function Outputs(slots: seq<Slot>, n: nat): string
    requires n <= |slots|
  {
    if n == 0 then "" else Outputs(slots, n - 1) + Output(slots[n - 1])
  }

  /** What the first `n` requests have moved to the write queue, in request order. */
  function Emits(slots: seq<Slot>, n: nat): string
    requires n <= |slots|
  {
    if n == 0 then "" else Emits(slots, n - 1) + slots[n - 1].emitted
  }

  lemma {:induction false} EncodeIsChunks(payloads: seq<string>)
    ensures Chunks(payloads) + Chunked.LAST_CHUNK == Chunked.Encode(payloads)
  {
    ChunksThen(payloads, []);
    assert payloads + [] == payloads;
  }

  lemma {:induction false} ChunksThen(front: seq<string>, rest: seq<string>)
    ensures Chunked.Encode(front + rest) == Chunks(front) + Chunked.Encode(rest)
  {
    if front == [] {
      assert [] + rest == rest;
    } else {
      var init, last := front[..|front| - 1], front[|front| - 1];
      assert front + rest == init + ([last] + rest);
      ChunksThen(init, [last] + rest);
      assert ([last] + rest)[1..] == rest;
    }
  }

  // ---------------------------------------------------------------- the invariants

  predicate HooksInv(slot: Slot, queued: bool) {
    if slot.completed then slot.hooks == [Completed]
    else if queued then slot.hooks == []
    else slot.dropped && slot.hooks in {[Cancelled], [Failed]}
  }

  predicate WritesInv(slot: Slot, i: nat) {
    forall j :: 0 <= j < |slot.streamWrites| ==>
      var w := slot.streamWrites[j];
      && w.slot == i && !w.countsResponse
      && (w.closeAfter ==> j == |slot.streamWrites| - 1 && slot.completed && slot.closeAfter && !Silent(slot))
  }

  /** `queued` means the slot has not left the response queue. */
  predicate SlotInv(slot: Slot, i: nat, queued: bool) {
    && HooksInv(slot, queued)
    && (queued ==> !slot.dropped)
    && (if slot.streaming then
          && slot.claimed && (slot.ended <==> slot.completed) && (slot.completed ==> slot.headersQueued)
          && slot.emitted + Bytes(slot.streamWrites) == Output(slot)
        else
          && slot.streamWrites == [] && !slot.headersQueued && !slot.ended
          && slot.emitted == if !queued && !slot.dropped then slot.text else "")
    && (slot.suppressBody && slot.headersQueued ==> slot.ended)
    && (!slot.headersQueued ==> slot.payloads == [] && slot.streamWrites == [])
    && (forall k :: 0 <= k < |slot.payloads| ==> slot.payloads[k] != "")
    && (!queued && !slot.dropped ==> slot.completed && slot.streamWrites == [])
    && WritesInv(slot, i)
    && (queued && slot.streaming && slot.completed && slot.closeAfter && !Silent(slot) ==>
          slot.streamWrites != [] && slot.streamWrites[|slot.streamWrites| - 1].closeAfter)
  }

  predicate SlotsInv(s: Session) {
    && s.front <= |s.slots|
    && (s.closed ==> s.front == |s.slots|)
    && forall i :: 0 <= i < |s.slots| ==> SlotInv(s.slots[i], i, s.front <= i)
  }

  predicate NoneClose(log: seq<Write>, n: nat)
    requires n <= |log|
  {
    forall j :: 0 <= j < n ==> !log[j].closeAfter
  }

  /** While open the queue is the tail of the log, one write is in flight exactly when it is not empty, and
      no completed write asked to close; once closed nothing more is handed over. */
  predicate QueueInv(s: Session) {
    if s.closed then s.wire <= s.log && NoneClose(s.wire, if s.wire == [] then 0 else |s.wire| - 1)
    else
      && |s.writes| <= |s.log| && s.writes == s.log[|s.log| - |s.writes|..]
      && (s.writing <==> s.writes != [])
      && s.wire == s.log[..|s.log| - |s.writes| + if s.writing then 1 else 0]
      && NoneClose(s.log, |s.log| - |s.writes|)
  }

  function Counted(writes: seq<Write>): nat {
    if writes == [] then 0 else Counted(writes[..|writes| - 1]) + if writes[|writes| - 1].countsResponse then 1 else 0
  }

  /** Bytes still in slots, those of dropped slots included. */
  function Streamed(slots: seq<Slot>, n: nat): nat
    requires n <= |slots|
  {
    if n == 0 then 0 else Streamed(slots, n - 1) + StreamBytes(slots[n - 1])
  }

  predicate AccountInv(s: Session, c: Config) {
    && s.front <= |s.slots|
    && s.pendingBytes == |Bytes(s.writes)| + Streamed(s.slots, |s.slots|)
    && s.pendingResponses == Counted(s.writes)
    && |s.slots| - s.front + s.pendingResponses <= c.maxPendingResponses
  }

  predicate Sorted(log: seq<Write>) {
    forall j, k :: 0 <= j < k < |log| ==> log[j].slot <= log[k].slot
  }

  /** The log is what the slots have emitted, in request order; slots behind the front emitted nothing. */
  predicate OrderInv(s: Session) {
    && (forall i :: s.front < i < |s.slots| ==> s.slots[i].emitted == "")
    && Bytes(s.log) == Emits(s.slots, |s.slots|)
    && Sorted(s.log)
    && forall j :: 0 <= j < |s.log| ==> s.log[j].slot <= s.front && s.log[j].slot < |s.slots|
  }

  /** A response behind which the connection closes. */
  predicate Closes(slot: Slot) { !slot.dropped && slot.closeAfter && !Silent(slot) }

  predicate HasCloseOf(log: seq<Write>, i: nat) {
    exists j :: 0 <= j < |log| && log[j].closeAfter && log[j].slot == i
  }

  /** Every response that went out to be followed by a close has left a closing write. */
  predicate LeftCloses(s: Session) {
    forall i :: 0 <= i < s.front && i < |s.slots| && Closes(s.slots[i]) ==> HasCloseOf(s.log, i)
  }

  /** Up to a write that closes, the log is the whole output of its request and those before. */
  predicate CloseMark(s: Session, j: nat)
    requires j < |s.log|
  {
    s.log[j].closeAfter ==>
      var k := s.log[j].slot;
      && k < s.front <= |s.slots| && Closes(s.slots[k])
      && Bytes(s.log[..j + 1]) == Emits(s.slots, k + 1)
  }

  predicate HasCloseBefore(log: seq<Write>, d: nat) {
    exists j :: 0 <= j < |log| && log[j].closeAfter && log[j].slot < d
  }

  /** Every response skipped so far had nothing to send, or a closing write comes before it. */
  predicate Tidy(s: Session) {
    forall d :: 0 <= d < |s.slots| && s.slots[d].dropped ==> Output(s.slots[d]) == "" || HasCloseBefore(s.log, d)
  }

  /** Whenever bytes of a response are on the wire, those of every request before it went out entirely. */
  predicate InOrder(s: Session) {
    forall j, d :: 0 <= j < |s.wire| && 0 <= d < s.wire[j].slot && d < |s.slots| ==>
      s.slots[d].emitted == Output(s.slots[d])
  }

  /** The bytes on the wire are a prefix of all responses in request order. */
  predicate InPrefix(s: Session) {
    Bytes(s.wire) <= Outputs(s.slots, |s.slots|)
  }

  predicate Sent(log: seq<Write>, i: nat) {
    exists j :: 0 <= j < |log| && log[j].slot == i
  }

  /** A queued head waits in its slot until it is in the log. */
  predicate HeadSent(s: Session) {
    forall i :: s.front <= i < |s.slots| && s.slots[i].headersQueued && s.slots[i].streamWrites == [] ==> Sent(s.log, i)
  }

  predicate Stops(s: Session) {
    && (forall j :: 0 <= j < |s.log| ==> CloseMark(s, j))
    && LeftCloses(s)
    && HeadSent(s)
    && (!s.closed ==> forall d :: 0 <= d < |s.slots| && s.slots[d].dropped ==> s.slots[d].emitted == "")
  }

  /** Order is kept since request `from` was at the front, unless a silent close left the queue since. */
  predicate KeptSince(s: Session, from: nat) {
    && from <= s.front
    && (NoneLeftSilent(s.slots, from, s.front) ==> if s.closed then InOrder(s) && InPrefix(s) else Tidy(s))
  }

  predicate StopInv(s: Session, from: nat) {
    Stops(s) && KeptSince(s, from)
  }

  predicate Inv(s: Session, c: Config, from: nat) {
    SlotsInv(s) && QueueInv(s) && AccountInv(s, c) && OrderInv(s) && StopInv(s, from)
  }

  // ---------------------------------------------------------------- sums over slots

  lemma {:induction false} EmitsSame(a: seq<Slot>, b: seq<Slot>, n: nat)
    requires n <= |a| && n <= |b| && forall i :: 0 <= i < n ==> a[i].emitted == b[i].emitted
    ensures Emits(a, n) == Emits(b, n)
  {
    if n > 0 {
      EmitsSame(a, b, n - 1);
    }
  }

  lemma {:induction false} EmitsBehind(slots: seq<Slot>, from: nat, n: nat)
    requires from <= n <= |slots| && forall i :: from <= i < n ==> slots[i].emitted == ""
    ensures Emits(slots, n) == Emits(slots, from)
  {
    if from < n {
      EmitsBehind(slots, from, n - 1);
    }
  }

  lemma {:induction false} OutputsSame(a: seq<Slot>, b: seq<Slot>, n: nat)
    requires n <= |a| && n <= |b| && forall i :: 0 <= i < n ==> Output(a[i]) == Output(b[i])
    ensures Outputs(a, n) == Outputs(b, n)
  {
    hide Output;
    if n > 0 {
      OutputsSame(a, b, n - 1);
    }
  }

  lemma {:induction false} EmitsAreOutputs(slots: seq<Slot>, n: nat)
    requires n <= |slots| && forall i :: 0 <= i < n ==> slots[i].emitted == Output(slots[i])
    ensures Emits(slots, n) == Outputs(slots, n)
  {
    hide Output;
    if n > 0 {
      EmitsAreOutputs(slots, n - 1);
    }
  }

  lemma {:induction false} OutputsGrow(slots: seq<Slot>, m: nat, n: nat)
    requires m <= n <= |slots|
    ensures Outputs(slots, m) <= Outputs(slots, n)
  {
    hide Output;
    if m < n {
      OutputsGrow(slots, m, n - 1);
    }
  }

  lemma {:induction false} StreamedSame(a: seq<Slot>, b: seq<Slot>, n: nat)
    requires n <= |a| && n <= |b| && forall i :: 0 <= i < n ==> a[i].streamWrites == b[i].streamWrites
    ensures Streamed(a, n) == Streamed(b, n)
  {
    if n > 0 {
      StreamedSame(a, b, n - 1);
    }
  }

  lemma {:induction false} StreamedUpdate(slots: seq<Slot>, i: nat, slot: Slot, n: nat)
    requires i < n <= |slots|
    ensures Streamed(slots[i := slot], n) == Streamed(slots, n) - StreamBytes(slots[i]) + StreamBytes(slot)
  {
    hide StreamBytes;
    if i == n - 1 {
      StreamedSame(slots, slots[i := slot], n - 1);
    } else {
      StreamedUpdate(slots, i, slot, n - 1);
    }
  }

  lemma {:induction false} CountedSplit(a: seq<Write>, b: seq<Write>)
    ensures Counted(a + b) == Counted(a) + Counted(b)
  {
    if b == [] {
      assert a + b == a;
    } else {
      assert (a + b)[..|a + b| - 1] == a + b[..|b| - 1];
      CountedSplit(a, b[..|b| - 1]);
    }
  }

  lemma {:induction false} NoneCounted(writes: seq<Write>)
    requires forall j :: 0 <= j < |writes| ==> !writes[j].countsResponse
    ensures Counted(writes) == 0
  {
    if writes != [] {
      NoneCounted(writes[..|writes| - 1]);
    }
  }

  lemma {:induction false} BytesPrefix(log: seq<Write>, m: nat, n: nat)
    requires m <= n <= |log|
    ensures Bytes(log[..m]) <= Bytes(log[..n])
  {
    hide Bytes;
    assert log[..n] == log[..m] + log[m..n];
    BytesSplit(log[..m], log[m..n]);
  }
}
