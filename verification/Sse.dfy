/** Server-sent events: the frames `sse_stream` writes, and the event-stream interpretation of section
    9.2.6 of the HTML Living Standard that a browser applies to them. */
module Sse {
  import opened Text

  const LINE_END := "\r\n"
  /** Invalid in an `event` or `id` field. */
  const FIELD_STOPS := "\r\n\0"
  /** One year, in milliseconds. */
  const MAX_RETRY := 31536000000

  // ---------------------------------------------------------------- the printer

  /** Length of the line terminator at the front: CRLF, CR or LF. */
  function TerminatorLength(s: string): (n: nat)
    requires s != ""
    ensures 1 <= n <= |s|
  {
    if "\r\n" <= s then 2 else 1
  }

  /** The lines of a value; a trailing terminator leaves a final empty line. */
  function Lines(value: string): (lines: seq<string>)
    ensures lines != []
  {
    var end := Until(value, LINE_END);
    if end == |value| then [value]
    else [value[..end]] + Lines(value[end + TerminatorLength(value[end..])..])
  }

  function FieldLine(field: string, value: string): string {
    field + ":" + (if value == "" then "" else " " + value) + "\n"
  }

  function FieldLines(field: string, values: seq<string>): string {
    if values == [] then "" else FieldLine(field, values[0]) + FieldLines(field, values[1..])
  }

  function Dec(n: nat): (s: string)
    ensures s != "" && DecNumber(s) == Some(n) && Clean(s, LINE_END)
  {
    if n < 10 then ["0123456789"[n]] else
      var s := Dec(n / 10) + ["0123456789"[n % 10]];
      assert s[..|s| - 1] == Dec(n / 10);
      s
  }

  function DecNumber(s: string): Option<nat> {
    if s == "" || !IsDigit(s[|s| - 1]) then None
    else
      var low := s[|s| - 1] as nat - '0' as nat;
      if |s| == 1 then Some(low)
      else match DecNumber(s[..|s| - 1])
           case None => None
           case Some(high) => Some(10 * high + low)
  }

  datatype Call = Send(event: string, id: string, data: string) | Comment(text: string) | Retry(delay: int)

  predicate Accepted(call: Call) {
    match call
    case Send(event, id, _) => Clean(event, FIELD_STOPS) && Clean(id, FIELD_STOPS)
    case Comment(_) => true
    case Retry(delay) => 0 < delay <= MAX_RETRY
  }

  /** The bytes an accepted call writes. */
  function Wire(call: Call): string
    requires Accepted(call)
  {
    match call
    case Send(event, id, data) =>
      (if event == "" then "" else FieldLine("event", event))
      + (if id == "" then "" else FieldLine("id", id))
      + FieldLines("data", Lines(data)) + "\n"
    case Comment(text) => FieldLines("", Lines(text)) + "\n"
    case Retry(delay) => "retry: " + Dec(delay) + "\n\n"
  }

  lemma FieldLinesCons(field: string, line: string, rest: seq<string>)
    ensures FieldLines(field, [line] + rest) == FieldLine(field, line) + FieldLines(field, rest)
  {
    assert ([line] + rest)[1..] == rest;
  }

  lemma {:induction false} LinesUnfold(s: string)
    ensures var end := Until(s, LINE_END);
            Lines(s) == if end == |s| then [s]
                        else [s[..end]] + Lines(s[end + TerminatorLength(s[end..])..])
  {
    hide Until;
  }

  /** The lines from an offset on: the next line, then the lines after its terminator. */
  lemma LinesStep(value: string, offset: nat, end: nat)
    requires offset <= end <= |value| && end == offset + Until(value[offset..], LINE_END)
    ensures end == |value| ==> Lines(value[offset..]) == [value[offset..end]] + []
    ensures end < |value| ==>
              Lines(value[offset..])
              == [value[offset..end]] + Lines(value[end + TerminatorLength(value[end..])..])
  {
    hide Until, Lines;
    var rest := value[offset..];
    LinesUnfold(rest);
    assert rest[end - offset..] == value[end..];
    if end == |value| {
      assert value[offset..end] == rest;
      assert [rest] == [rest] + [];
    } else {
      var next := end + TerminatorLength(value[end..]);
      assert rest[next - offset..] == value[next..];
      assert rest[..end - offset] == value[offset..end];
    }
  }

  /** The index loop that finds the next line end. */
  method LineEnd(value: string, offset: nat) returns (end: nat)
    requires offset <= |value|
    ensures end == offset + Until(value[offset..], LINE_END)
  {
    end := offset;
    while end < |value| && value[end] !in LINE_END
      invariant offset <= end <= |value|
      invariant Clean(value[offset..end], LINE_END)
    {
      assert value[offset..end + 1] == value[offset..end] + [value[end]];
      end := end + 1;
    }
    assert value[offset..] == value[offset..end] + value[end..];
    UntilClean(value[offset..end], value[end..], LINE_END);
  }

  /** Appends one field line per line of the value, as the splitting loop does. */
  method AppendSplitLines(out: string, field: string, value: string) returns (r: string)
    ensures r == out + FieldLines(field, Lines(value))
  {
    hide Until, Lines, FieldLine;
    r := out;
    var offset := 0;
    assert value[0..] == value;
    while offset < |value|
      invariant offset <= |value|
      invariant out + FieldLines(field, Lines(value)) == r + FieldLines(field, Lines(value[offset..]))
    {
      var end := LineEnd(value, offset);
      LinesStep(value, offset, end);
      var next :=
        if end + 1 < |value| && value[end] == '\r' && value[end + 1] == '\n' then end + 2 else end + 1;
      ghost var after := if end == |value| then [] else Lines(value[next..]);
      FieldLinesCons(field, value[offset..end], after);
      assert r + (FieldLine(field, value[offset..end]) + FieldLines(field, after))
          == (r + FieldLine(field, value[offset..end])) + FieldLines(field, after);
      r := r + FieldLine(field, value[offset..end]);
      if end == |value| {
        return;
      }
      offset := next;
    }
    assert value[offset..] == "" && value[offset..offset] == "" && Until("", LINE_END) == 0;
    LinesStep(value, offset, offset);
    FieldLinesCons(field, "", []);
    assert FieldLine(field, "") + "" == FieldLine(field, "");
    r := r + FieldLine(field, "");
  }

  /** `sse_stream::send`, `comment` and `retry`: a rejection, or the frame handed to the stream. */
  method MakeFrame(call: Call) returns (frame: Option<string>)
    ensures frame.Some? <==> Accepted(call)
    ensures frame.Some? ==> frame.value == Wire(call)
  {
    hide Until, Lines;
    match call
    case Send(event, id, data) =>
      if !Clean(event, FIELD_STOPS) || !Clean(id, FIELD_STOPS) {
        return None;
      }
      var out := "";
      if event != "" {
        out := out + FieldLine("event", event);
      }
      if id != "" {
        out := out + FieldLine("id", id);
      }
      out := AppendSplitLines(out, "data", data);
      frame := Some(out + "\n");
    case Comment(text) =>
      var out := AppendSplitLines("", "", text);
      frame := Some(out + "\n");
    case Retry(delay) =>
      if delay <= 0 || MAX_RETRY < delay {
        return None;
      }
      frame := Some("retry: " + Dec(delay) + "\n\n");
  }

  // ---------------------------------------------------------------- the interpreter

  datatype Message = Message(kind: string, data: string, lastEventId: string)

  datatype Client = Client(
    data: string,
    kind: string,
    lastEventId: string,
    reconnection: Option<nat>,
    dispatched: seq<Message>)

  function Dispatch(c: Client): Client {
    if c.data == "" then c.(kind := "")
    else
      var data := if c.data[|c.data| - 1] == '\n' then c.data[..|c.data| - 1] else c.data;
      var message := Message(if c.kind == "" then "message" else c.kind, data, c.lastEventId);
      c.(data := "", kind := "", dispatched := c.dispatched + [message])
  }

  function ProcessField(c: Client, field: string, value: string): Client {
    if field == "event" then c.(kind := value)
    else if field == "data" then c.(data := c.data + value + "\n")
    else if field == "id" then (if '\0' in value then c else c.(lastEventId := value))
    else if field == "retry" then
      (if DecNumber(value).Some? then c.(reconnection := DecNumber(value)) else c)
    else c
  }

  function ProcessLine(c: Client, line: string): Client {
    if line == "" then Dispatch(c)
    else
      var colon := Until(line, ":");
      if colon == 0 then c
      else if colon == |line| then ProcessField(c, line, "")
      else
        var value := line[colon + 1..];
        ProcessField(c, line[..colon], if " " <= value then value[1..] else value)
  }

  /** Reads complete lines, each ended by CRLF, LF or CR; an unfinished last line is discarded. */
  function Interpret(c: Client, stream: string): Client
    decreases |stream|
  {
    var end := Until(stream, LINE_END);
    if end == |stream| then c
    else Interpret(ProcessLine(c, stream[..end]), stream[end + TerminatorLength(stream[end..])..])
  }

  // ---------------------------------------------------------------- what a client should see

  /** Every CRLF, CR and LF becomes LF. */
  function Normalize(s: string): string
    decreases |s|
  {
    if s == "" then ""
    else if s[0] in LINE_END then "\n" + Normalize(s[TerminatorLength(s)..])
    else [s[0]] + Normalize(s[1..])
  }

  function Expected(c: Client, call: Call): Client
    requires Accepted(call)
  {
    match call
    case Send(event, id, data) =>
      var lastEventId := if id == "" then c.lastEventId else id;
      var message := Message(if event == "" then "message" else event, Normalize(data), lastEventId);
      c.(lastEventId := lastEventId, dispatched := c.dispatched + [message])
    case Comment(_) => c
    case Retry(delay) => c.(reconnection := Some(delay))
  }

  predicate AllAccepted(calls: seq<Call>) {
    forall i :: 0 <= i < |calls| ==> Accepted(calls[i])
  }

  function WireAll(calls: seq<Call>): string
    requires AllAccepted(calls)
  {
    if calls == [] then "" else Wire(calls[0]) + WireAll(calls[1..])
  }

  function ExpectedAll(c: Client, calls: seq<Call>): Client
    requires AllAccepted(calls)
    decreases |calls|
  {
    if calls == [] then c else ExpectedAll(Expected(c, calls[0]), calls[1..])
  }

  // ---------------------------------------------------------------- proofs

  /** The data buffer after the `data` lines: each line followed by LF. */
  function Buffered(lines: seq<string>): string {
    if lines == [] then "" else lines[0] + "\n" + Buffered(lines[1..])
  }

  lemma NormalizeClean(a: string, b: string)
    requires Clean(a, LINE_END)
    ensures Normalize(a + b) == a + Normalize(b)
  {
    if a == "" {
      assert a + b == b;
    } else {
      assert (a + b)[1..] == a[1..] + b;
      NormalizeClean(a[1..], b);
    }
  }

  lemma {:induction false} LinesAreNormalized(s: string)
    ensures Buffered(Lines(s)) == Normalize(s) + "\n"
    ensures forall i :: 0 <= i < |Lines(s)| ==> Clean(Lines(s)[i], LINE_END)
    decreases |s|
  {
    hide Until, Clean, Buffered, Normalize, TerminatorLength, Lines;
    var end := Until(s, LINE_END);
    var line, rest := s[..end], s[end..];
    assert s == line + rest;
    NormalizeClean(line, rest);
    LinesSplit(s, end);
    if end == |s| {
      assert line == s && rest == "";
      LastLine(s);
    } else {
      var tail := rest[TerminatorLength(rest)..];
      LinesAreNormalized(tail);
      FirstLine(line, rest, tail);
    }
  }

  lemma {:induction false} LinesSplit(s: string, end: nat)
    requires end == Until(s, LINE_END)
    ensures if end == |s| then Lines(s) == [s]
            else Lines(s) == [s[..end]] + Lines(s[end..][TerminatorLength(s[end..])..])
  {
    hide Until, TerminatorLength;
    if end < |s| {
      var k := TerminatorLength(s[end..]);
      assert s[end..][k..] == s[end + k..];
    }
  }

  lemma {:induction false} LastLine(s: string)
    ensures Buffered([s]) == s + "\n" && Normalize("") == "" && s + "" == s
  {
    assert [s][1..] == [];
    assert s + "\n" + "" == s + "\n";
  }

  lemma {:induction false} FirstLine(line: string, rest: string, tail: string)
    requires rest != "" && rest[0] in LINE_END && tail == rest[TerminatorLength(rest)..]
    requires Buffered(Lines(tail)) == Normalize(tail) + "\n"
    ensures Buffered([line] + Lines(tail)) == line + Normalize(rest) + "\n"
  {
    hide Lines;
    assert ([line] + Lines(tail))[1..] == Lines(tail);
  }

  lemma InterpretLine(c: Client, line: string, rest: string)
    requires Clean(line, LINE_END)
    ensures Interpret(c, line + "\n" + rest) == Interpret(ProcessLine(c, line), rest)
  {
    hide Until, ProcessLine;
    var s := line + "\n" + rest;
    assert s == line + ("\n" + rest);
    UntilClean(line, "\n" + rest, LINE_END);
    assert s[..|line|] == line;
    assert s[|line|] == '\n' && !("\r\n" <= s[|line|..]);
    assert s[|line| + 1..] == rest;
  }

  lemma ProcessFieldLine(c: Client, field: string, value: string)
    requires field != "" && Clean(field, ":")
    ensures ProcessLine(c, field + ":" + (if value == "" then "" else " " + value)) == ProcessField(c, field, value)
  {
    hide Until, ProcessField;
    var after := if value == "" then "" else " " + value;
    var line := field + ":" + after;
    assert line == field + (":" + after);
    UntilClean(field, ":" + after, ":");
    assert line[..|field|] == field && line[|field| + 1..] == after;
    assert value != "" ==> after[1..] == value;
  }

  lemma InterpretFieldLine(c: Client, field: string, value: string, rest: string)
    requires field != "" && Clean(field, ":") && Clean(field, LINE_END) && Clean(value, LINE_END)
    ensures Interpret(c, FieldLine(field, value) + rest) == Interpret(ProcessField(c, field, value), rest)
  {
    hide ProcessLine, ProcessField, Interpret;
    var line := field + ":" + (if value == "" then "" else " " + value);
    CleanConcat(" ", value, LINE_END);
    CleanConcat(field, ":", LINE_END);
    CleanConcat(field + ":", if value == "" then "" else " " + value, LINE_END);
    ProcessFieldLine(c, field, value);
    InterpretLine(c, line, rest);
    assert FieldLine(field, value) + rest == line + "\n" + rest;
  }

  lemma {:induction false} InterpretDataLines(c: Client, lines: seq<string>, rest: string)
    requires forall i :: 0 <= i < |lines| ==> Clean(lines[i], LINE_END)
    ensures Interpret(c, FieldLines("data", lines) + rest)
            == Interpret(c.(data := c.data + Buffered(lines)), rest)
    decreases |lines|
  {
    hide Interpret, Clean, FieldLine;
    if lines == [] {
      assert FieldLines("data", lines) + rest == rest;
      assert c.data + "" == c.data;
    } else {
      var tail := FieldLines("data", lines[1..]) + rest;
      assert FieldLines("data", lines) + rest == FieldLine("data", lines[0]) + tail;
      assert Clean("data", ":") && Clean("data", LINE_END) by { DataIsClean(); }
      InterpretFieldLine(c, "data", lines[0], tail);
      var next := c.(data := c.data + lines[0] + "\n");
      InterpretDataLines(next, lines[1..], rest);
      assert c.data + (lines[0] + "\n" + Buffered(lines[1..])) == (c.data + lines[0] + "\n") + Buffered(lines[1..]);
    }
  }

  lemma DataIsClean()
    ensures Clean("data", ":") && Clean("data", LINE_END)
  {
  }

  lemma {:induction false} InterpretCommentLines(c: Client, lines: seq<string>, rest: string)
    requires forall i :: 0 <= i < |lines| ==> Clean(lines[i], LINE_END)
    ensures Interpret(c, FieldLines("", lines) + rest) == Interpret(c, rest)
    decreases |lines|
  {
    hide Interpret;
    if lines == [] {
      assert FieldLines("", lines) + rest == rest;
    } else {
      var tail := FieldLines("", lines[1..]) + rest;
      var line := ":" + (if lines[0] == "" then "" else " " + lines[0]);
      assert FieldLines("", lines) + rest == line + "\n" + tail;
      CleanConcat(" ", lines[0], LINE_END);
      CleanConcat(":", if lines[0] == "" then "" else " " + lines[0], LINE_END);
      InterpretLine(c, line, tail);
      InterpretCommentLines(c, lines[1..], rest);
    }
  }

  /** Between frames the client has nothing buffered. */
  predicate Idle(c: Client) { c.data == "" && c.kind == "" }

  lemma InterpretNames(c: Client, event: string, id: string, tail: string)
    requires c.kind == "" && Clean(event, FIELD_STOPS) && Clean(id, FIELD_STOPS)
    ensures Interpret(c, (if event == "" then "" else FieldLine("event", event))
                         + ((if id == "" then "" else FieldLine("id", id)) + tail))
            == Interpret(c.(kind := event, lastEventId := if id == "" then c.lastEventId else id), tail)
  {
    hide Interpret, FieldLine;
    var idPart := if id == "" then "" else FieldLine("id", id);
    if event == "" {
      assert "" + (idPart + tail) == idPart + tail;
    } else {
      InterpretFieldLine(c, "event", event, idPart + tail);
    }
    if id == "" {
      assert "" + tail == tail;
    } else {
      InterpretFieldLine(c.(kind := event), "id", id, tail);
    }
  }

  lemma InterpretData(c: Client, data: string, rest: string)
    requires c.data == ""
    ensures Interpret(c, FieldLines("data", Lines(data)) + ("\n" + rest))
            == Interpret(Dispatch(c.(data := Normalize(data) + "\n")), rest)
  {
    hide Interpret, Lines, FieldLines, Normalize, Buffered, Dispatch;
    LinesAreNormalized(data);
    InterpretDataLines(c, Lines(data), "\n" + rest);
    assert c.data + Buffered(Lines(data)) == Normalize(data) + "\n";
    assert "" + "\n" + rest == "\n" + rest;
    InterpretLine(c.(data := Normalize(data) + "\n"), "", rest);
  }

  lemma InterpretSend(c: Client, call: Call, rest: string)
    requires Idle(c) && call.Send? && Accepted(call)
    ensures Interpret(c, Wire(call) + rest) == Interpret(Expected(c, call), rest)
  {
    hide Interpret, Lines, FieldLine, FieldLines, Normalize;
    var Send(event, id, data) := call;
    var tail := FieldLines("data", Lines(data)) + ("\n" + rest);
    InterpretNames(c, event, id, tail);
    assert Wire(call) + rest
        == (if event == "" then "" else FieldLine("event", event))
           + ((if id == "" then "" else FieldLine("id", id)) + tail);
    InterpretData(c.(kind := event, lastEventId := if id == "" then c.lastEventId else id), data, rest);
    assert (Normalize(data) + "\n")[..|Normalize(data)|] == Normalize(data);
  }

  lemma InterpretOther(c: Client, call: Call, rest: string)
    requires Idle(c) && !call.Send? && Accepted(call)
    ensures Interpret(c, Wire(call) + rest) == Interpret(Expected(c, call), rest)
  {
    hide Interpret, Lines, FieldLines, Dec, DecNumber;
    assert "" + "\n" + rest == "\n" + rest;
    if call.Comment? {
      LinesAreNormalized(call.text);
      InterpretCommentLines(c, Lines(call.text), "\n" + rest);
      assert Wire(call) + rest == FieldLines("", Lines(call.text)) + ("\n" + rest);
      InterpretLine(c, "", rest);
    } else {
      InterpretFieldLine(c, "retry", Dec(call.delay), "\n" + rest);
      assert Wire(call) + rest == FieldLine("retry", Dec(call.delay)) + ("\n" + rest);
      InterpretLine(Expected(c, call), "", rest);
    }
  }

  /** A client that reads everything written by any sequence of accepted calls dispatches exactly one
      message per `send`, in order, with the event name, the last id sent and the normalized data. */
  lemma {:induction false} SseRoundTrip(c: Client, calls: seq<Call>)
    requires Idle(c) && AllAccepted(calls)
    ensures Interpret(c, WireAll(calls)) == ExpectedAll(c, calls)
    ensures Idle(ExpectedAll(c, calls))
    decreases |calls|
  {
    hide Interpret, Wire;
    if calls == [] {
      NothingToRead(c);
    } else {
      if calls[0].Send? {
        InterpretSend(c, calls[0], WireAll(calls[1..]));
      } else {
        InterpretOther(c, calls[0], WireAll(calls[1..]));
      }
      SseRoundTrip(Expected(c, calls[0]), calls[1..]);
    }
  }

  lemma NothingToRead(c: Client)
    ensures Interpret(c, "") == c
  {
  }
}
