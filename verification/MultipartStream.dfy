/** The incremental multipart parser: a buffer, a phase, and callbacks that may ask for a pause. It is
    shown to refine the whole-buffer parser. */
module MultipartStream {
  import opened Text
  import opened Multipart

  datatype Phase = FirstBoundary | InHeaders | InBody | Done | Failed(error: Error)

  /** `current` is the open part with the data emitted for it so far; `calls` counts the callbacks made. */
  datatype Stream = Stream(
    buffer: string,
    phase: Phase,
    paused: bool,
    current: Option<Part>,
    parts: seq<Part>,
    partCount: nat,
    received: nat,
    calls: nat)

  const FRESH := Stream("", FirstBoundary, false, None, [], 0, 0, 0)

  /** Which callbacks, by their number, ask the stream to pause. */
  type Pauses = nat -> bool

  function Fail(s: Stream, error: Error): Stream {
    if s.phase.Failed? || s.phase.Done? then s else s.(phase := Failed(error), current := None)
  }

  /** A callback runs, and may pause the stream. */
  function Callback(s: Stream, pauses: Pauses): Stream {
    s.(paused := s.paused || pauses(s.calls), calls := s.calls + 1)
  }

  function TooLarge(part: Part, limits: Limits): bool {
    if part.head.filename.Some? then limits.maxFileBytes != 0 && limits.maxFileBytes < |part.body|
    else limits.maxFieldBytes < |part.body|
  }

  /** `emit_current_data`: nothing for empty data, else the limits and then the data callback. */
  function Emit(s: Stream, data: string, c: Config, pauses: Pauses): Stream {
    if data == "" || s.current.None? then s
    else
      var part := s.current.value.(body := s.current.value.body + data);
      if TooLarge(part, c.limits) then Fail(s, LimitExceeded)
      else Callback(s.(current := Some(part)), pauses)
  }

  function EndPart(s: Stream, pauses: Pauses): Stream {
    if s.current.None? then s
    else Callback(s.(parts := s.parts + [s.current.value], current := None), pauses)
  }

  function Consume(s: Stream, n: nat): Stream
    requires n <= |s.buffer|
  {
    s.(buffer := s.buffer[n..])
  }

  /** What one turn of the loop leaves, and whether the loop goes on. */
  datatype Step = Step(next: Stream, again: bool)

  function BoundaryTurn(s: Stream, c: Config, pauses: Pauses): Step {
    var after := |c.First()|;
    if |s.buffer| < after + 2 then Step(s, false)
    else if !(c.First() <= s.buffer) then Step(Fail(s, MalformedBody), false)
    else if PairAt(s.buffer, after, DASHES) then
      Step(Callback(Consume(s, after + 2).(phase := Done), pauses), false)
    else if !PairAt(s.buffer, after, CRLF) then Step(Fail(s, MalformedBody), false)
    else Step(Consume(s, after + 2).(phase := InHeaders), true)
  }

  /** `parse_part_headers`, with a part handler that takes the part as a stream. */
  function OpenPart(s: Stream, block: string, c: Config, pauses: Pauses): Stream {
    match ParseHead(block, c.limits)
    case Err(e) => Fail(s, e)
    case Ok(head) =>
      var counted := s.(partCount := s.partCount + 1);
      if c.limits.maxParts < counted.partCount then Fail(counted, LimitExceeded)
      else Callback(counted.(current := Some(Part(head, ""))), pauses).(phase := InBody)
  }

  function HeadersTurn(s: Stream, c: Config, pauses: Pauses): Step {
    match Find(s.buffer, BLANK_LINE, 0)
    case None =>
      Step(if c.limits.maxPartHeaderBytes < |s.buffer| then Fail(s, LimitExceeded) else s, false)
    case Some(end) =>
      if c.limits.maxPartHeaderBytes < end then Step(Fail(s, LimitExceeded), false)
      else Step(OpenPart(Consume(s, end + 4), s.buffer[..end], c, pauses), true)
  }

  /** Emits a prefix of the buffer and drops it, unless emitting failed. */
  function EmitFront(s: Stream, n: nat, c: Config, pauses: Pauses): Stream
    requires n <= |s.buffer|
  {
    var emitted := Emit(s, s.buffer[..n], c, pauses);
    if emitted.phase.Failed? then emitted else emitted.(buffer := s.buffer[n..])
  }

  /** The bytes kept back while no delimiter is in sight. */
  function Settled(s: Stream, c: Config): (n: nat)
    ensures n <= |s.buffer|
  {
    if |c.Next()| < |s.buffer| then |s.buffer| - |c.Next()| else 0
  }

  /** The part ends at the delimiter; the final one ends the stream. */
  function CloseBody(s: Stream, isFinal: bool, c: Config, pauses: Pauses): Step
    requires |c.Next()| + 2 <= |s.buffer|
  {
    var ended := Consume(EndPart(s, pauses), |c.Next()| + 2);
    if !isFinal then Step(ended.(phase := InHeaders), true)
    else
      var rest := if CRLF <= ended.buffer then Consume(ended, 2) else ended;
      Step(Callback(rest.(phase := Done), pauses), false)
  }

  lemma EmitFrontKeeps(s: Stream, n: nat, c: Config, pauses: Pauses)
    requires n <= |s.buffer| && s.phase.InBody?
    ensures var emitted := EmitFront(s, n, c, pauses);
            emitted.phase.Failed? || (emitted.phase.InBody? && emitted.buffer == s.buffer[n..])
  {
  }

  lemma CloseBodyAgain(s: Stream, isFinal: bool, c: Config, pauses: Pauses)
    requires |c.Next()| + 2 <= |s.buffer|
    ensures CloseBody(s, isFinal, c, pauses).again == !isFinal
  {
  }

  function BodyTurn(s: Stream, c: Config, pauses: Pauses): Step {
    match SearchDelimiter(s.buffer, c.Next(), 0)
    case NeedMore(position) => Step(EmitFront(s, position, c, pauses), false)
    case NotFound => Step(EmitFront(s, Settled(s, c), c, pauses), false)
    case Found(position, isFinal) =>
      var emitted := EmitFront(s, position, c, pauses);
      if emitted.paused || emitted.phase.Failed? then Step(emitted, false)
      else CloseBody(emitted, isFinal, c, pauses)
  }

  function Turn(s: Stream, c: Config, pauses: Pauses): (r: Step)
    ensures r.again ==> |r.next.buffer| < |s.buffer|
  {
    match s.phase
    case FirstBoundary => BoundaryTurn(s, c, pauses)
    case InHeaders => HeadersTurn(s, c, pauses)
    case InBody => BodyTurn(s, c, pauses)
    case _ => Step(s, false)
  }

  function Parse(s: Stream, c: Config, pauses: Pauses): Stream
    decreases |s.buffer|
  {
    if s.phase.Failed? || s.paused then s
    else
      var step := Turn(s, c, pauses);
      if step.again then Parse(step.next, c, pauses) else step.next
  }

  datatype Event = Data(chunk: string) | Pause | Resume

  function OnData(s: Stream, chunk: string, c: Config, pauses: Pauses): Stream {
    var counted := s.(received := s.received + |chunk|);
    if c.limits.maxTotalBytes != 0 && c.limits.maxTotalBytes < counted.received then Fail(counted, LimitExceeded)
    else Parse(counted.(buffer := counted.buffer + chunk), c, pauses)
  }

  function Handle(s: Stream, event: Event, c: Config, pauses: Pauses): Stream {
    match event
    case Data(chunk) => OnData(s, chunk, c, pauses)
    case Pause => s.(paused := true)
    case Resume => if s.paused then Parse(s.(paused := false), c, pauses) else s
  }

  function Run(s: Stream, events: seq<Event>, c: Config, pauses: Pauses): Stream
    decreases |events|
  {
    if events == [] then s else Run(Handle(s, events[0], c, pauses), events[1..], c, pauses)
  }

  function Finish(s: Stream, c: Config, pauses: Pauses): Stream {
    if s.phase.Failed? then s
    else
      var last := Parse(s, c, pauses);
      if last.phase.Failed? || last.phase.Done? then last else Fail(last, UnexpectedEnd)
  }

  function DataOf(events: seq<Event>): string
    decreases |events|
  {
    if events == [] then ""
    else (if events[0].Data? then events[0].chunk else "") + DataOf(events[1..])
  }

  // ---------------------------------------------------------------- the stream object

  class StreamObject {
    const config: Config
    const pauses: Pauses
    var buffer: string
    var phase: Phase
    var paused: bool
    var current: Option<Part>
    var parts: seq<Part>
    var partCount: nat
    var received: nat
    var calls: nat

    ghost function View(): Stream
      reads this
    {
      Stream(buffer, phase, paused, current, parts, partCount, received, calls)
    }

    constructor (config: Config, pauses: Pauses)
      ensures View() == FRESH && this.config == config && this.pauses == pauses
    {
      this.config, this.pauses := config, pauses;
      buffer, phase, paused, current, parts, partCount, received, calls :=
        "", FirstBoundary, false, None, [], 0, 0, 0;
    }

    method RunCallback()
      modifies this`paused, this`calls
      ensures View() == Callback(old(View()), pauses)
    {
      if pauses(calls) {
        paused := true;
      }
      calls := calls + 1;
    }

    method FailWith(error: Error)
      modifies this
      ensures View() == Fail(old(View()), error)
    {
      if phase.Failed? || phase.Done? {
        return;
      }
      phase := Failed(error);
      current := None;
    }

    method EmitCurrentData(data: string)
      modifies this
      ensures View() == Emit(old(View()), data, config, pauses)
    {
      if data == "" || current.None? {
        return;
      }
      var part := current.value.(body := current.value.body + data);
      if TooLarge(part, config.limits) {
        FailWith(LimitExceeded);
        return;
      }
      current := Some(part);
      RunCallback();
    }

    method EndCurrentPart()
      modifies this
      ensures View() == EndPart(old(View()), pauses)
    {
      if current.Some? {
        parts, current := parts + [current.value], None;
        RunCallback();
      }
    }

    method ParsePartHeaders(block: string)
      requires phase.InHeaders?
      modifies this
      ensures View() == OpenPart(old(View()), block, config, pauses)
    {
      hide ParseHead;
      var head := ParsePartHeaderBlock(block, config.limits);
      if head.Err? {
        FailWith(head.error);
        return;
      }
      partCount := partCount + 1;
      if config.limits.maxParts < partCount {
        FailWith(LimitExceeded);
        return;
      }
      current := Some(Part(head.value, ""));
      RunCallback();
      phase := InBody;
    }

    method ParseLoop()
      modifies this
      ensures View() == Parse(old(View()), config, pauses)
    {
      hide Find, SearchDelimiter, ParseHead, PairAt;
      while !phase.Failed? && !paused
        invariant Parse(View(), config, pauses) == Parse(old(View()), config, pauses)
        decreases |buffer|
      {
        ghost var before := View();
        if phase.FirstBoundary? {
          var after := |config.First()|;
          if |buffer| < after + 2 {
            return;
          }
          if !(config.First() <= buffer) {
            FailWith(MalformedBody);
            return;
          }
          if PairAt(buffer, after, DASHES) {
            buffer, phase := buffer[after + 2..], Done;
            RunCallback();
            return;
          }
          if !PairAt(buffer, after, CRLF) {
            FailWith(MalformedBody);
            return;
          }
          buffer, phase := buffer[after + 2..], InHeaders;
        } else if phase.InHeaders? {
          var end := Find(buffer, BLANK_LINE, 0);
          if end.None? {
            if config.limits.maxPartHeaderBytes < |buffer| {
              FailWith(LimitExceeded);
            }
            return;
          }
          if config.limits.maxPartHeaderBytes < end.value {
            FailWith(LimitExceeded);
            return;
          }
          var block := buffer[..end.value];
          buffer := buffer[end.value + 4..];
          ParsePartHeaders(block);
        } else if phase.InBody? {
          var again := ParseBody();
          if !again {
            return;
          }
        } else {
          return;
        }
        assert Step(View(), true) == Turn(before, config, pauses);
      }
    }

    /** Emits the front of the buffer and erases it, unless emitting failed the stream. */
    method EmitAndErase(n: nat)
      requires n <= |buffer| && phase.InBody?
      modifies this
      ensures View() == EmitFront(old(View()), n, config, pauses)
    {
      EmitCurrentData(buffer[..n]);
      if phase.Failed? {
        return;
      }
      buffer := buffer[n..];
    }

    method FinishPart(isFinal: bool)
      requires |config.Next()| + 2 <= |buffer| && phase.InBody?
      modifies this
      ensures View() == CloseBody(old(View()), isFinal, config, pauses).next
    {
      EndCurrentPart();
      buffer := buffer[|config.Next()| + 2..];
      if !isFinal {
        phase := InHeaders;
        return;
      }
      if CRLF <= buffer {
        buffer := buffer[2..];
      }
      phase := Done;
      RunCallback();
    }

    method ParseBody() returns (again: bool)
      requires phase.InBody? && !paused
      modifies this
      ensures Step(View(), again) == BodyTurn(old(View()), config, pauses)
    {
      hide Find, SearchDelimiter, EmitFront, CloseBody;
      var search := FindNextMultipartDelimiter(buffer, config.Next(), 0);
      ghost var before := View();
      if search.NeedMore? {
        EmitAndErase(search.position);
        return false;
      }
      if search.NotFound? {
        EmitAndErase(if |config.Next()| < |buffer| then |buffer| - |config.Next()| else 0);
        return false;
      }
      EmitFrontKeeps(before, search.position, config, pauses);
      EmitAndErase(search.position);
      if paused || phase.Failed? {
        return false;
      }
      CloseBodyAgain(View(), search.isFinal, config, pauses);
      FinishPart(search.isFinal);
      return !search.isFinal;
    }

    method Receive(chunk: string)
      modifies this
      ensures View() == OnData(old(View()), chunk, config, pauses)
    {
      hide Parse;
      received := received + |chunk|;
      if config.limits.maxTotalBytes != 0 && config.limits.maxTotalBytes < received {
        FailWith(LimitExceeded);
        return;
      }
      buffer := buffer + chunk;
      ParseLoop();
    }

    method PauseStream()
      modifies this
      ensures View() == Handle(old(View()), Pause, config, pauses)
    {
      paused := true;
    }

    method ResumeStream()
      modifies this
      ensures View() == Handle(old(View()), Resume, config, pauses)
    {
      if !paused {
        return;
      }
      paused := false;
      ParseLoop();
    }

    method FinishStream()
      modifies this
      ensures View() == Finish(old(View()), config, pauses)
    {
      if phase.Failed? {
        return;
      }
      ParseLoop();
      if phase.Failed? {
        return;
      }
      if !phase.Done? {
        FailWith(UnexpectedEnd);
      }
    }
  }
}
