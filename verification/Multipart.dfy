/** `multipart/form-data` (section 4 of RFC 7578, section 5.1 of RFC 2046): the whole-buffer parser, and
    the incremental, pausable one. */
module Multipart {
  import opened Text
  import opened Disposition

  const CRLF := "\r\n"
  const BLANK_LINE := "\r\n\r\n"
  const DASHES := "--"

  datatype Limits = Limits(
    maxTotalBytes: nat,
    maxFileBytes: nat,
    maxFieldBytes: nat,
    maxPartHeaderBytes: nat,
    maxPartHeaders: nat,
    maxParts: nat,
    maxFieldNameBytes: nat,
    maxFilenameBytes: nat)

  datatype Error = LimitExceeded | MalformedHeader | MalformedBody | UnexpectedEnd

  datatype Result<+T> = Ok(value: T) | Err(error: Error)

  type Headers = seq<(string, string)>

  datatype Head = Head(name: string, filename: Option<string>, headers: Headers)

  datatype Part = Part(head: Head, body: string)

  // ---------------------------------------------------------------- part headers

  /** What the header loop remembers. */
  datatype HeaderState = HeaderState(disposition: Option<string>, sawContentType: bool, headers: Headers)

  /** One header line; none when it is malformed, repeated, or asks for an unsupported encoding. */
  function AddHeaderLine(h: HeaderState, line: string): Option<HeaderState> {
    var colon := Until(line, ":");
    if (line != "" && IsOws(line[0])) || colon == |line| || colon == 0 then None
    else
      var name := TrimOws(line[..colon]);
      var value := TrimOws(line[colon + 1..]);
      var headers := h.headers + [(name, value)];
      if name == "" || HasControl(name) then None
      else if EqualsIgnoringCase(name, "content-disposition") then
        if h.disposition.Some? then None else Some(h.(disposition := Some(value), headers := headers))
      else if EqualsIgnoringCase(name, "content-type") then
        if h.sawContentType then None else Some(h.(sawContentType := true, headers := headers))
      else if EqualsIgnoringCase(name, "content-transfer-encoding") && !EqualsIgnoringCase(value, "7bit")
              && !EqualsIgnoringCase(value, "8bit") && !EqualsIgnoringCase(value, "binary") then None
      else Some(h.(headers := headers))
  }

  function AddHeaderLines(h: HeaderState, block: string, offset: nat): Option<HeaderState>
    requires offset <= |block|
    decreases |block| - offset
  {
    if offset == |block| then Some(h)
    else
      match Find(block, CRLF, offset)
      case None => AddHeaderLine(h, block[offset..])
      case Some(end) =>
        match AddHeaderLine(h, block[offset..end])
        case None => None
        case Some(more) => AddHeaderLines(more, block, end + 2)
  }

  /** Line breaks from an offset on. */
  function CountBreaks(block: string, offset: nat): nat
    requires offset <= |block|
    decreases |block| - offset
  {
    match Find(block, CRLF, offset)
    case None => 0
    case Some(at) => 1 + CountBreaks(block, at + 2)
  }

  function CountHeaderLines(block: string): nat {
    if block == "" then 0 else 1 + CountBreaks(block, 0)
  }

  function CheckHead(h: Option<HeaderState>, limits: Limits): Result<Head> {
    if h.None? || h.value.disposition.None? then Err(MalformedHeader)
    else
      match ParseDisposition(h.value.disposition.value)
      case None => Err(MalformedHeader)
      case Some(d) =>
        if limits.maxFieldNameBytes < |d.name| then Err(LimitExceeded)
        else if d.filename.Some? && limits.maxFilenameBytes < |d.filename.value| then Err(LimitExceeded)
        else Ok(Head(d.name, d.filename, h.value.headers))
  }

  function ParseHead(block: string, limits: Limits): Result<Head> {
    if limits.maxPartHeaders < CountHeaderLines(block) then Err(LimitExceeded)
    else CheckHead(AddHeaderLines(HeaderState(None, false, []), block, 0), limits)
  }

  method CountLines(block: string) returns (count: nat)
    ensures count == CountHeaderLines(block)
  {
    if block == "" {
      return 0;
    }
    count := 1;
    var offset := 0;
    var at := Find(block, CRLF, offset);
    while at.Some?
      invariant offset <= |block| && at == Find(block, CRLF, offset)
      invariant CountHeaderLines(block) == count + CountBreaks(block, offset)
      decreases |block| - offset
    {
      count := count + 1;
      offset := at.value + 2;
      at := Find(block, CRLF, offset);
    }
  }

  /** `parse_part_header_block`. */
  method ParsePartHeaderBlock(block: string, limits: Limits) returns (r: Result<Head>)
    ensures r == ParseHead(block, limits)
  {
    hide AddHeaderLine, Find, CheckHead;
    var lines := CountLines(block);
    if limits.maxPartHeaders < lines {
      return Err(LimitExceeded);
    }
    var h := HeaderState(None, false, []);
    var offset := 0;
    while offset < |block|
      invariant offset <= |block|
      invariant ParseHead(block, limits) == CheckHead(AddHeaderLines(h, block, offset), limits)
      decreases |block| - offset
    {
      var end := Find(block, CRLF, offset);
      var more := AddHeaderLine(h, if end.None? then block[offset..] else block[offset..end.value]);
      if more.None? {
        return CheckHead(None, limits);
      }
      h := more.value;
      if end.None? {
        return CheckHead(Some(h), limits);
      }
      offset := end.value + 2;
    }
    r := CheckHead(Some(h), limits);
  }

  // ---------------------------------------------------------------- delimiters

  datatype Search = Found(position: nat, isFinal: bool) | NotFound | NeedMore(position: nat)

  predicate GoodSuffix(suffix: string) { suffix == CRLF || suffix == DASHES }

  /** The next delimiter followed by CRLF or `--`. */
  function SearchDelimiter(buffer: string, delimiter: string, offset: nat): (r: Search)
    ensures r.Found? ==> offset <= r.position && r.position + |delimiter| + 2 <= |buffer|
    ensures r.NeedMore? ==> offset <= r.position && r.position + |delimiter| <= |buffer|
    decreases |buffer| - offset
  {
    if |buffer| <= offset then NotFound
    else
      match Find(buffer, delimiter, offset)
      case None => NotFound
      case Some(position) =>
        var after := position + |delimiter|;
        if |buffer| < after + 2 then NeedMore(position)
        else if GoodSuffix(buffer[after..after + 2]) then Found(position, buffer[after..after + 2] == DASHES)
        else SearchDelimiter(buffer, delimiter, position + 1)
  }

  method FindNextMultipartDelimiter(buffer: string, delimiter: string, offset: nat) returns (r: Search)
    ensures r == SearchDelimiter(buffer, delimiter, offset)
  {
    var search := offset;
    while search < |buffer|
      invariant SearchDelimiter(buffer, delimiter, offset) == SearchDelimiter(buffer, delimiter, search)
      decreases |buffer| - search
    {
      hide Find;
      var position := Find(buffer, delimiter, search);
      if position.None? {
        return NotFound;
      }
      var after := position.value + |delimiter|;
      if |buffer| < after + 2 {
        return NeedMore(position.value);
      }
      var suffix := buffer[after..after + 2];
      if suffix == CRLF || suffix == DASHES {
        return Found(position.value, suffix == DASHES);
      }
      search := position.value + 1;
    }
    return NotFound;
  }

  /** A complete delimiter line starts at `i`. */
  predicate DelimiterAt(t: string, delimiter: string, i: int) {
    && OccursAt(t, delimiter, i) && i + |delimiter| + 2 <= |t|
    && GoodSuffix(t[i + |delimiter|..i + |delimiter| + 2])
  }

  // ---------------------------------------------------------------- the whole-buffer parser

  datatype Config = Config(boundary: string, limits: Limits, maxMemoryBytes: nat)
  {
    function First(): string { DASHES + boundary }
    function Next(): string { CRLF + DASHES + boundary }
  }

  function BodyBytes(parts: seq<Part>): nat {
    if parts == [] then 0 else BodyBytes(parts[..|parts| - 1]) + |parts[|parts| - 1].body|
  }

  /** `text.compare(offset, 2, pair) == 0`. */
  predicate PairAt(t: string, offset: nat, pair: string) {
    offset + 2 <= |t| && t[offset..offset + 2] == pair
  }

  /** The optional CRLF after the final delimiter, and then the end. */
  predicate EndsAt(t: string, offset: nat) {
    (if PairAt(t, offset, CRLF) then offset + 2 else offset) == |t|
  }

  function AcceptPart(head: Head, payload: string, done: seq<Part>, c: Config): Option<Error> {
    if c.limits.maxParts < |done| + 1 then Some(LimitExceeded)
    else if head.filename.Some? && (c.limits.maxFileBytes == 0 || c.limits.maxFileBytes < |payload|) then
      Some(LimitExceeded)
    else if head.filename.None? && c.limits.maxFieldBytes < |payload| then Some(LimitExceeded)
    else if c.maxMemoryBytes != 0 && c.maxMemoryBytes < BodyBytes(done) + |payload| then Some(LimitExceeded)
    else None
  }

  /** From the start of a part's headers. */
  function FormFrom(t: string, offset: nat, done: seq<Part>, c: Config): Result<seq<Part>>
    decreases |t| - offset, 1
  {
    if |t| <= offset then Err(UnexpectedEnd)
    else
      match Find(t, BLANK_LINE, offset)
      case None => Err(UnexpectedEnd)
      case Some(end) =>
        if c.limits.maxPartHeaderBytes < end - offset then Err(LimitExceeded)
        else
          match ParseHead(t[offset..end], c.limits)
          case Err(e) => Err(e)
          case Ok(head) => FormBody(t, end + 4, head, done, c)
  }

  /** From the start of a part's body. */
  function FormBody(t: string, start: nat, head: Head, done: seq<Part>, c: Config): Result<seq<Part>>
    decreases |t| - start, 0
  {
    match SearchDelimiter(t, c.Next(), start)
    case Found(position, isFinal) =>
      var payload := t[start..position];
      var next := position + |c.Next()| + 2;
      var refused := AcceptPart(head, payload, done, c);
      var parts := done + [Part(head, payload)];
      if refused.Some? then Err(refused.value)
      else if isFinal then (if EndsAt(t, next) then Ok(parts) else Err(MalformedBody))
      else FormFrom(t, next, parts, c)
    case _ => Err(UnexpectedEnd)
  }

  function ParseForm(t: string, c: Config): Result<seq<Part>> {
    var start := |c.First()|;
    if c.limits.maxTotalBytes != 0 && c.limits.maxTotalBytes < |t| then Err(LimitExceeded)
    else if !(c.First() <= t) then Err(MalformedBody)
    else if PairAt(t, start, DASHES) then (if EndsAt(t, start + 2) then Ok([]) else Err(MalformedBody))
    else if !PairAt(t, start, CRLF) then Err(MalformedBody)
    else FormFrom(t, start + 2, [], c)
  }

  /** `parse_multipart_form`, once the boundary is known: one loop turn per part. */
  method ParseMultipartForm(t: string, c: Config) returns (r: Result<seq<Part>>)
    ensures r == ParseForm(t, c)
  {
    hide Find, SearchDelimiter, ParseHead;
    if c.limits.maxTotalBytes != 0 && c.limits.maxTotalBytes < |t| {
      return Err(LimitExceeded);
    }
    if !(c.First() <= t) {
      return Err(MalformedBody);
    }
    var offset := |c.First()|;
    if PairAt(t, offset, DASHES) {
      return if EndsAt(t, offset + 2) then Ok([]) else Err(MalformedBody);
    }
    if !PairAt(t, offset, CRLF) {
      return Err(MalformedBody);
    }
    offset := offset + 2;
    var parts: seq<Part> := [];
    var memoryBytes := 0;
    while offset < |t|
      invariant ParseForm(t, c) == FormFrom(t, offset, parts, c)
      invariant memoryBytes == BodyBytes(parts)
      decreases |t| - offset
    {
      var end := Find(t, BLANK_LINE, offset);
      if end.None? {
        return Err(UnexpectedEnd);
      }
      if c.limits.maxPartHeaderBytes < end.value - offset {
        return Err(LimitExceeded);
      }
      var head := ParsePartHeaderBlock(t[offset..end.value], c.limits);
      if head.Err? {
        return Err(head.error);
      }
      var start := end.value + 4;
      var search := FindNextMultipartDelimiter(t, c.Next(), start);
      if !search.Found? {
        return Err(UnexpectedEnd);
      }
      var payload := t[start..search.position];
      if c.limits.maxParts < |parts| + 1 {
        return Err(LimitExceeded);
      }
      if head.value.filename.Some? {
        if c.limits.maxFileBytes == 0 || c.limits.maxFileBytes < |payload| {
          return Err(LimitExceeded);
        }
      } else if c.limits.maxFieldBytes < |payload| {
        return Err(LimitExceeded);
      }
      memoryBytes := memoryBytes + |payload|;
      if c.maxMemoryBytes != 0 && c.maxMemoryBytes < memoryBytes {
        return Err(LimitExceeded);
      }
      offset := search.position + |c.Next()| + 2;
      parts := parts + [Part(head.value, payload)];
      assert parts[..|parts| - 1] + [Part(head.value, payload)] == parts;
      if search.isFinal {
        return if EndsAt(t, offset) then Ok(parts) else Err(MalformedBody);
      }
    }
    return Err(UnexpectedEnd);
  }
}
