/** What an upload does for the application: which writes it takes, what each of them queues, and that a body
    that was ended goes out and is answered. */
module UploadProgress {
  import opened Text
  import opened Upload
  import Chunked

  /** The writes the source promises to take. */
  predicate Takes(u: Upload, payload: string) {
    && payload != "" && !u.completed && !u.ended && !u.backpressured
    && (u.mode.NoBody? ==> !u.headersStarted && !u.headersWritten)
    && (u.mode.ContentLength? ==> u.accepted + |payload| <= u.mode.size)
  }

  function OnWire(mode: Mode, payload: string): string {
    if mode.ContentLength? then payload else Chunked.SerializeChunk(payload)
  }

  function Why(u: Upload): Rejection {
    if u.completed || u.ended then NotConnected else if u.backpressured then WouldBlock else InvalidArgument
  }

  predicate Fills(u: Upload, payload: string, max: nat) {
    max > 0 && u.pending + |OnWire(u.mode, payload)| >= max
  }

  /** Which writes are taken, what a taken one queues, and what is answered. */
  lemma {:induction false} WriteDecides(u: Upload, payload: string, max: nat)
    ensures var (r, result) := Write(u, payload, max);
            if Takes(u, payload) then
              && r.payloads == u.payloads + [payload] && r.accepted == u.accepted + |payload|
              && r.writes == u.writes + [OnWire(u.mode, payload)] && r.log == u.log + [OnWire(u.mode, payload)]
              && r.mode == (if u.mode.NoBody? then ChunkedBody else u.mode)
              && r.drains == u.drains && !r.completed && !r.ended
              && (r.backpressured <==> Fills(u, payload, max))
              && result == if Fills(u, payload, max) then Backpressure else Ready
            else
              r == u && result == if payload == "" then Ready else Rejected(Why(u))
  {
    hide Chunked.SerializeChunk, Flush;
    var v := if u.mode.NoBody? then u.(mode := ChunkedBody) else u;
    FlushKeeps(Enqueue(Count(v, payload), OnWire(u.mode, payload)));
  }

  /** A taken write goes out at once when the head is out and nothing is queued before it. */
  lemma {:induction false} TakenGoesOut(u: Upload, payload: string, max: nat)
    requires Inv(u, max) && Takes(u, payload)
    ensures Write(u, payload, max).0.wire
            == u.wire + if u.headersWritten && u.writes == [] then [OnWire(u.mode, payload)] else []
  {
    hide Chunked.SerializeChunk, Framed, Concat;
  }

  /** The framing is the one chosen last before the start; the head is handed over once, to a request that was
      started and not finished, and a body announced as empty has then ended. */
  lemma {:induction false} BeginDecides(u: Upload, size: nat, max: nat)
    ensures var r := Handle(u, SetContentLength(size), max);
            r.mode == (if u.started then u.mode else ContentLength(size)) && r == u.(mode := r.mode)
    ensures var r := Handle(u, SetChunked, max);
            r.mode == (if u.started then u.mode else ChunkedBody) && r == u.(mode := r.mode)
    ensures Handle(u, Start, max).started
    ensures var r := Handle(u, Connected, max);
            && (r.headersStarted <==> u.headersStarted || (u.started && !u.completed))
            && (r.ended <==> u.ended || (!u.headersStarted && r.headersStarted && u.mode == ContentLength(0)))
            && r == u.(headersStarted := r.headersStarted, ended := r.ended)
  {
    hide Write, End, HeadersDone, Written;
  }

  // ---------------------------------------------------------------- every run

  /** The payloads of the writes taken during a run, in order. */
  function Taken(u: Upload, events: seq<Event>, max: nat): seq<string>
    decreases |events|
  {
    if events == [] then []
    else
      var e := events[0];
      (if e.WriteBody? && u.started && Takes(u, e.payload) then [e.payload] else [])
      + Taken(Handle(u, e, max), events[1..], max)
  }

  /** How many of them filled the queue. */
  function Filled(u: Upload, events: seq<Event>, max: nat): nat
    decreases |events|
  {
    if events == [] then 0
    else
      var e := events[0];
      (if e.WriteBody? && u.started && Takes(u, e.payload) && Fills(u, e.payload, max) then 1 else 0)
      + Filled(Handle(u, e, max), events[1..], max)
  }

  /** Drain callbacks that ran, and the one still owed. */
  function Owed(u: Upload): nat { u.drains + if u.backpressured then 1 else 0 }

  lemma {:induction false} FlushKeeps(u: Upload)
    ensures Flush(u) == u.(writing := Flush(u).writing, wire := Flush(u).wire)
  {
  }

  lemma {:induction false} PopKeeps(u: Upload)
    ensures Pop(u) == u.(pending := Pop(u).pending, writes := Pop(u).writes)
  {
    if u.writes == [] {
      assert Pop(u) == u;
    }
  }

  lemma {:induction false} DrainPays(u: Upload, max: nat)
    ensures Owed(NotifyDrain(u, max)) == Owed(u) && NotifyDrain(u, max).payloads == u.payloads
  {
  }

  lemma {:induction false} EndKeeps(u: Upload)
    ensures End(u).payloads == u.payloads && Owed(End(u)) == Owed(u)
    ensures End(u).headersWritten == u.headersWritten && End(u).headersStarted == u.headersStarted
  {
    hide End, Flush, Done;
    EndTo(u);
    FlushKeeps(u.(ended := true));
    FlushKeeps(Enqueue(u, Chunked.LAST_CHUNK).(ended := true));
  }

  /** The states an upload may end in. */
  lemma {:induction false} EndTo(u: Upload)
    ensures var plain, last := u.(ended := true), Flush(Enqueue(u, Chunked.LAST_CHUNK).(ended := true));
            var r := End(u);
            && (u.completed || u.ended ==> r == u)
            && (!u.completed && !u.ended && u.mode.NoBody? ==>
                  r == if u.headersWritten then plain.(reading := true) else plain)
            && (!u.completed && !u.ended && u.mode.ContentLength? ==>
                  if u.accepted != u.mode.size then r == Fail(u)
                  else r == if Done(Flush(plain)) then Flush(plain).(reading := true) else Flush(plain))
            && (!u.completed && !u.ended && u.mode.ChunkedBody? ==> r == last)
  {
    FlushKeeps(u.(ended := true));
    FlushKeeps(Enqueue(u, Chunked.LAST_CHUNK).(ended := true));
    hide Flush;
  }

  predicate Done(u: Upload) { u.headersWritten && u.writes == [] && !u.writing }

  lemma {:induction false} WrittenKeeps(u: Upload, ok: bool, max: nat)
    ensures Written(u, ok, max).payloads == u.payloads && Owed(Written(u, ok, max)) == Owed(u)
  {
    hide Flush, Pop, NotifyDrain;
    var idle := u.(writing := false);
    PopKeeps(idle);
    DrainPays(Pop(idle), max);
    FlushKeeps(NotifyDrain(Pop(idle), max));
  }

  lemma {:induction false} HeadKeeps(u: Upload, ok: bool)
    ensures HeadersDone(u, ok).payloads == u.payloads && Owed(HeadersDone(u, ok)) == Owed(u)
  {
    hide Flush;
    FlushKeeps(u.(headersWritten := true));
  }

  lemma {:induction false} WriteOwes(u: Upload, payload: string, max: nat)
    ensures var r := Write(u, payload, max).0;
            && r.payloads == u.payloads + (if Takes(u, payload) then [payload] else [])
            && Owed(r) == Owed(u) + if Takes(u, payload) && Fills(u, payload, max) then 1 else 0
  {
    hide Write, Fills, OnWire;
    WriteDecides(u, payload, max);
  }

  lemma {:induction false} HandleTakes(u: Upload, e: Event, max: nat)
    ensures Handle(u, e, max).payloads
            == u.payloads + if e.WriteBody? && u.started && Takes(u, e.payload) then [e.payload] else []
    ensures Owed(Handle(u, e, max))
            == Owed(u) + if e.WriteBody? && u.started && Takes(u, e.payload) && Fills(u, e.payload, max) then 1 else 0
  {
    if e.WriteBody? {
      hide Write, Takes, Fills, Owed;
      WriteOwes(u, e.payload, max);
    } else {
      OthersOwe(u, e, max);
    }
  }

  lemma {:induction false} OthersOwe(u: Upload, e: Event, max: nat)
    requires !e.WriteBody?
    ensures Handle(u, e, max).payloads == u.payloads && Owed(Handle(u, e, max)) == Owed(u)
  {
    hide Write, End, Written, HeadersDone;
    EndKeeps(u);
    if e.HeadersWritten? {
      HeadKeeps(u, e.ok);
    }
    if e.BodyWritten? {
      WrittenKeeps(u, e.ok, max);
    }
  }

  /** In every run the body consists of exactly the writes that were taken, in order; and every write that was
      answered with backpressure is followed by exactly one drain callback, or is still owed it. */
  lemma {:induction false} TakenIsBody(u: Upload, events: seq<Event>, max: nat)
    ensures Run(u, events, max).payloads == u.payloads + Taken(u, events, max)
    ensures Owed(Run(u, events, max)) == Owed(u) + Filled(u, events, max)
    decreases |events|
  {
    hide Handle, Takes, Fills, Owed;
    if events != [] {
      HandleTakes(u, events[0], max);
      TakenIsBody(Handle(u, events[0], max), events[1..], max);
    }
  }

  // ---------------------------------------------------------------- progress

  /** Ending fails exactly when fewer bytes were written than were announced; otherwise the chunked body gets
      its last chunk, and the response is read at once when nothing is left to send. */
  lemma {:induction false} EndDecides(u: Upload, max: nat)
    requires Inv(u, max) && !u.completed && !u.ended
    ensures var r := End(u);
            && (r.completed <==> u.mode.ContentLength? && u.accepted != u.mode.size)
            && (!r.completed ==>
                  && r.ended && r.mode == u.mode && r.payloads == u.payloads && r.backpressured == u.backpressured
                  && r.headersStarted == u.headersStarted && r.headersWritten == u.headersWritten
                  && r.log == u.log + (if u.mode.ChunkedBody? then [Chunked.LAST_CHUNK] else [])
                  && (r.reading <==> u.reading || (u.headersWritten && u.writes == [] && !u.mode.ChunkedBody?)))
  {
    hide Framed, Concat, End, Flush, TailOf, NoneEmpty, Handed, PressureInv;
    EndTo(u);
    HandedIdle(u);
    FlushKeeps(Enqueue(u, Chunked.LAST_CHUNK).(ended := true));
    if u.mode.ContentLength? {
      FlushIdle(u.(ended := true));
    }
  }

  lemma {:induction false} HandedIdle(u: Upload)
    requires QueueInv(u) && !u.completed
    ensures u.writing <==> u.headersWritten && u.writes != []
    ensures u.log == [] ==> u.writes == []
  {
  }

  lemma {:induction false} FlushIdle(u: Upload)
    requires u.writing || u.writes == [] || !u.headersWritten
    ensures Flush(u) == u
  {
  }

  /** The completed head starts the body, or the response when there is none. */
  lemma {:induction false} HeadDecides(u: Upload, max: nat)
    requires Inv(u, max) && !u.completed && !u.headersWritten
    ensures var r := HeadersDone(u, true);
            && !r.completed && r.headersWritten && r.ended == u.ended && r.mode == u.mode
            && r.payloads == u.payloads && r.log == u.log && r.writes == u.writes
            && (r.writing <==> u.writes != [])
            && (r.reading <==> u.writes == [] && (u.ended || u.mode.NoBody?))
  {
    hide Framed, Concat;
  }

  /** A completed write takes its size off the pending count and calls the drain callback exactly at or below
      half the limit. */
  lemma {:induction false} WrittenDecides(u: Upload, max: nat)
    requires Inv(u, max) && !u.completed && u.writing
    ensures var r := Written(u, true, max);
            && u.writes != [] && |u.writes[0]| <= u.pending
            && !r.completed && r.headersWritten && r.ended == u.ended && r.mode == u.mode
            && r.payloads == u.payloads && r.log == u.log && r.writes == u.writes[1..]
            && r.pending == u.pending - |u.writes[0]|
            && (r.backpressured <==> u.backpressured && r.pending > max / 2)
            && r.drains == u.drains + if u.backpressured && !r.backpressured then 1 else 0
  {
    hide Framed, Concat;
    PopQueue(u);
  }

  function Completions(n: nat): seq<Event> { seq(n, i requires 0 <= i < n => BodyWritten(true)) }

  /** With the head out, as many completions as there are queued writes put all of the body on the wire. */
  lemma {:induction false} AllGoesOut(u: Upload, max: nat)
    requires Inv(u, max) && !u.completed && u.headersWritten
    ensures var r := Run(u, Completions(|u.writes|), max);
            && r.writes == [] && r.wire == u.log && r.log == u.log && r.pending == 0 && !r.backpressured
            && r.payloads == u.payloads && r.mode == u.mode && r.ended == u.ended && !r.completed
            && (u.ended || u.mode.NoBody? ==> r.reading)
    decreases |u.writes|
  {
    var events := Completions(|u.writes|);
    if u.writes == [] {
      Empty(u, max);
    } else {
      InFlight(u, max);
      hide Inv, Written;
      var next := Written(u, true, max);
      WrittenDecides(u, max);
      WrittenInv(u, true, max);
      assert events[0] == BodyWritten(true) && events[1..] == Completions(|next.writes|);
      AllGoesOut(next, max);
    }
  }

  lemma {:induction false} InFlight(u: Upload, max: nat)
    requires Inv(u, max) && !u.completed && u.headersWritten && u.writes != []
    ensures u.writing
  {
    hide Framed, Concat;
  }

  lemma {:induction false} Empty(u: Upload, max: nat)
    requires Inv(u, max) && !u.completed && u.headersWritten && u.writes == []
    ensures u.wire == u.log && u.pending == 0 && !u.backpressured
    ensures u.ended || u.mode.NoBody? ==> u.reading
  {
    hide Framed;
    assert u.log[..|u.log|] == u.log;
  }

  /** The end of a body, the head if it is still under way, and the writes then queued. */
  function Finishing(u: Upload): seq<Event> {
    [EndBody] + (if u.headersWritten then [] else [HeadersWritten(true)]) + Completions(|End(u).writes|)
  }

  /** From every state of every run in which the head was handed over and as many bytes as announced were
      written, ending the body and completing the writes sends the whole framed body and starts reading the
      response. */
  lemma {:induction false} UploadCompletes(u: Upload, max: nat)
    requires Inv(u, max) && !u.completed && u.headersStarted
    requires u.mode.ContentLength? ==> u.accepted == u.mode.size
    ensures var r := Run(u, Finishing(u), max);
            && r.reading && r.wire == Framed(u.mode, u.payloads, true) && r.pending == 0 && !r.backpressured
            && r.payloads == u.payloads
  {
    StartedFirst(u, max);
    var v := End(u);
    if !u.ended {
      EndDecides(u, max);
    }
    EndInv(u, max);
    EndKeeps(u);
    hide Framed, Inv, End, Run, HeadersDone;
    var w := if u.headersWritten then v else HeadersDone(v, true);
    if !u.headersWritten {
      HeadDecides(v, max);
      HeadersInv(v, true, max);
      RunTwo(u, EndBody, HeadersWritten(true), Completions(|v.writes|), max);
    } else {
      RunOne(u, EndBody, Completions(|v.writes|), max);
    }
    AllGoesOut(w, max);
    LogIsFramed(w, max);
  }

  lemma {:induction false} StartedFirst(u: Upload, max: nat)
    requires Inv(u, max) && u.headersStarted
    ensures u.started
  {
    hide QueueInv, Framed, Concat;
  }

  lemma {:induction false} LogIsFramed(u: Upload, max: nat)
    requires Inv(u, max)
    ensures u.log == Framed(u.mode, u.payloads, u.ended)
  {
    hide QueueInv, Framed, Concat;
  }

  lemma {:induction false} RunOne(u: Upload, e: Event, rest: seq<Event>, max: nat)
    ensures Run(u, [e] + [] + rest, max) == Run(Handle(u, e, max), rest, max)
  {
    hide Handle;
    assert ([e] + [] + rest)[1..] == rest;
  }

  lemma {:induction false} RunTwo(u: Upload, e: Event, f: Event, rest: seq<Event>, max: nat)
    ensures Run(u, [e] + [f] + rest, max) == Run(Handle(Handle(u, e, max), f, max), rest, max)
  {
    hide Handle;
    assert ([e] + [f] + rest)[1..] == [f] + rest;
    assert ([f] + rest)[1..] == rest;
  }
}
