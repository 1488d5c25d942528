/** The other half of the refinement: what the incremental parser ends with is what the whole-buffer parser
    accepts, and what it refuses is refused. */
module StreamAccepts {
  import opened Text
  import opened Multipart
  import opened MultipartStream
  import opened MultipartRefine

  /** The stream's limits, as limits of a form of at most `n` bytes: a file limit of zero is no limit, and
      nothing is kept in memory. */
  function AsForm(c: Config, n: nat): Config {
    c.(maxMemoryBytes := 0,
       limits := c.limits.(maxFileBytes := if c.limits.maxFileBytes == 0 then n + 1 else c.limits.maxFileBytes))
  }

  predicate Fits(n: nat, c: Config) { c.limits.maxTotalBytes == 0 || n <= c.limits.maxTotalBytes }

  /** The stream stops at a limit as soon as it is passed, so for the form the end may be missing. */
  predicate Refuses(r: Result<seq<Part>>, e: Error) {
    r == Err(e) || (e == LimitExceeded && r == Err(UnexpectedEnd))
  }

  /** Whatever arrives behind `at`, the form parser gets to the headers at `at` with these parts. */
  ghost predicate AtHeaders(t: string, at: nat, parts: seq<Part>, f: Config) {
    forall m :: at <= m <= |t| ==> ParseForm(t[..m], f) == FormFrom(t[..m], at, parts, f)
  }

  /** Whatever arrives behind `at`, it gets to the body of the next part at `start`. */
  ghost predicate AtBody(t: string, at: nat, start: nat, head: Head, parts: seq<Part>, f: Config) {
    forall m :: at <= m <= |t| ==> ParseForm(t[..m], f) == FormBody(t[..m], start, head, parts, f)
  }

  ghost predicate NoneBetween(t: string, d: string, start: nat, at: nat) {
    forall i :: start <= i < at ==> !DelimiterAt(t, d, i)
  }

  ghost predicate HeadersTrace(s: Stream, t: string, n: nat, c: Config) {
    && Buffers(s, t, n) && s.current.None? && s.partCount == |s.parts|
    && AtHeaders(t, n - |s.buffer|, s.parts, AsForm(c, |t|))
  }

  ghost predicate BodyTrace(s: Stream, t: string, n: nat, c: Config) {
    && Buffers(s, t, n) && s.current.Some? && s.partCount == |s.parts| + 1 <= c.limits.maxParts
    && var part, at := s.current.value, n - |s.buffer|;
       && |part.body| <= at && part.body == t[at - |part.body|..at] && !TooLarge(part, c.limits)
       && NoneBetween(t, c.Next(), at - |part.body|, at)
       && AtBody(t, at, at - |part.body|, part.head, s.parts, AsForm(c, |t|))
  }

  /** After the first `n` bytes of `t`. */
  ghost predicate Trace(s: Stream, t: string, n: nat, c: Config) {
    match s.phase
    case FirstBoundary =>
      n <= |t| && s.buffer == t[..n] && s.current.None? && s.parts == [] && s.partCount == 0
    case InHeaders => HeadersTrace(s, t, n, c)
    case InBody => BodyTrace(s, t, n, c)
    case Done => exists m :: 0 <= m <= |t| && ParseForm(t[..m], AsForm(c, |t|)) == Ok(s.parts)
    case Failed(e) => Room(t, c) ==> Refuses(ParseForm(t, AsForm(c, |t|)), e)
  }

  ghost predicate RoomLeft(s: Stream, t: string, n: nat, c: Config) {
    Room(t, c) ==> RoomAhead(s, t, n, c)
  }

  // ---------------------------------------------------------------- one turn

  lemma BoundaryTrace(s: Stream, t: string, n: nat, c: Config, pauses: Pauses)
    requires s.phase.FirstBoundary? && Trace(s, t, n, c) && Fits(|t|, c)
    ensures var r := BoundaryTurn(s, c, pauses).next; Trace(r, t, n, c) && RoomLeft(r, t, n, c)
  {
    hide FormFrom, RoomFrom;
    var after := |c.First()|;
    if after + 2 <= n {
      PairInPrefix(t, n, after, DASHES);
      PairInPrefix(t, n, after, CRLF);
      assert t[..n][..after] == t[..after];
      assert t[..n][after + 2..] == t[after + 2..n];
      BoundarySeen(t, c);
      assert t[..|t|] == t;
    }
  }

  lemma BoundarySeen(t: string, c: Config)
    requires Fits(|t|, c) && |c.First()| + 2 <= |t|
    ensures var f, after := AsForm(c, |t|), |c.First()|;
            && (!(c.First() <= t) ==> ParseForm(t, f) == Err(MalformedBody))
            && (!PairAt(t, after, DASHES) && !PairAt(t, after, CRLF) ==> ParseForm(t, f) == Err(MalformedBody))
            && (c.First() <= t && PairAt(t, after, DASHES) ==> ParseForm(t[..after + 2], f) == Ok([]))
            && (c.First() <= t && PairAt(t, after, CRLF) ==> AtHeaders(t, after + 2, [], f))
  {
    hide FormFrom;
    var after := |c.First()|;
    forall m | after + 2 <= m <= |t|
      ensures c.First() <= t ==> c.First() <= t[..m]
      ensures PairAt(t[..m], after, DASHES) == PairAt(t, after, DASHES)
      ensures PairAt(t[..m], after, CRLF) == PairAt(t, after, CRLF)
    {
      PairInPrefix(t, m, after, DASHES);
      PairInPrefix(t, m, after, CRLF);
      assert t[..m][..after] == t[..after];
    }
  }

  /** The blank line in the buffer is the one the form parser finds. */
  lemma BlankSeen(t: string, at: nat, n: nat, m: nat)
    requires at <= n <= |t| && at <= m <= |t|
    ensures var end := Find(t[at..n], BLANK_LINE, 0);
            end.Some? && at + end.value + 4 <= m ==> Find(t[..m], BLANK_LINE, at) == Some(at + end.value)
    ensures Find(t[at..n], BLANK_LINE, 0).None? ==>
              Find(t, BLANK_LINE, at).None? || n < Find(t, BLANK_LINE, at).value + 4
  {
    hide Find;
    FindInWindow(t, at, n, BLANK_LINE, 0);
    FindInWindow(t, 0, m, BLANK_LINE, at);
    assert t[0..m] == t[..m];
  }

  lemma HeadLimits(block: string, c: Config, n: nat)
    ensures ParseHead(block, AsForm(c, n).limits) == ParseHead(block, c.limits)
  {
    hide AddHeaderLines, CountHeaderLines;
  }

  /** What the form parser does with the headers at `at`, once their blank line is there. */
  lemma FormFromSays(t: string, at: nat, end: nat, parts: seq<Part>, c: Config, f: Config)
    requires at <= end && end + 4 <= |t| && Find(t, BLANK_LINE, at) == Some(end)
    requires f.limits.maxPartHeaderBytes == c.limits.maxPartHeaderBytes
    requires ParseHead(t[at..end], f.limits) == ParseHead(t[at..end], c.limits)
    ensures FormFrom(t, at, parts, f) ==
            if c.limits.maxPartHeaderBytes < end - at then Err(LimitExceeded)
            else match ParseHead(t[at..end], c.limits)
                 case Err(e) => Err(e)
                 case Ok(head) => FormBody(t, end + 4, head, parts, f)
  {
    hide Find, FormBody, ParseHead;
  }

  lemma HeadersRefused(t: string, at: nat, n: nat, parts: seq<Part>, c: Config)
    requires at <= n <= |t| && Find(t[at..n], BLANK_LINE, 0).None? && c.limits.maxPartHeaderBytes < n - at
    requires RoomFrom(t, at, c)
    ensures FormFrom(t, at, parts, AsForm(c, |t|)) == Err(UnexpectedEnd)
  {
    hide Find, FormBody, RoomBody, ParseHead;
    BlankSeen(t, at, n, |t|);
  }

  /** Past the limit of parts the form parser refuses too, as soon as it sees the end of the part. */
  lemma TooMany(t: string, start: nat, head: Head, parts: seq<Part>, f: Config)
    ensures f.limits.maxParts < |parts| + 1 ==> Refuses(FormBody(t, start, head, parts, f), LimitExceeded)
  {
    hide SearchDelimiter, FormFrom;
  }

  lemma HeadersStep(s: Stream, t: string, n: nat, c: Config, pauses: Pauses)
    requires s.phase.InHeaders? && HeadersTrace(s, t, n, c) && RoomLeft(s, t, n, c)
    ensures var r := HeadersTurn(s, c, pauses).next; Trace(r, t, n, c) && RoomLeft(r, t, n, c)
  {
    hide Find, FormFrom, ParseForm, Room, RoomFrom, OpenPart;
    var at := n - |s.buffer|;
    var blank := Find(s.buffer, BLANK_LINE, 0);
    if blank.None? {
      assert t[..|t|] == t;
      if c.limits.maxPartHeaderBytes < |s.buffer| && Room(t, c) {
        HeadersRefused(t, at, n, s.parts, c);
      }
    } else {
      HeadersSeen(s, t, n, at + blank.value, c, pauses);
    }
  }

  /** The whole header block is buffered. */
  lemma HeadersSeen(s: Stream, t: string, n: nat, end: nat, c: Config, pauses: Pauses)
    requires s.phase.InHeaders? && HeadersTrace(s, t, n, c) && RoomLeft(s, t, n, c)
    requires n - |s.buffer| <= end && end + 4 <= n
    requires Find(s.buffer, BLANK_LINE, 0) == Some(end - (n - |s.buffer|))
    ensures var r := HeadersTurn(s, c, pauses).next; Trace(r, t, n, c) && RoomLeft(r, t, n, c)
  {
    hide Find, FormFrom, FormBody, ParseForm, ParseHead, Room, RoomFrom, RoomBody, AtBody, Refuses, OpenPart, AsForm;
    var at, f := n - |s.buffer|, AsForm(c, |t|);
    BlankSeen(t, at, n, |t|);
    RefusesSame(t, f);
    SliceOfWindow(t, at, n, 0, end - at);
    HeadLimits(t[at..end], c, |t|);
    SameHeaderLimit(c, |t|);
    FormFromSays(t, at, end, s.parts, c, f);
    if end - at <= c.limits.maxPartHeaderBytes {
      OpenStep(s, t, n, end, c, pauses);
    }
  }

  lemma SameHeaderLimit(c: Config, n: nat)
    ensures AsForm(c, n).limits.maxPartHeaderBytes == c.limits.maxPartHeaderBytes
    ensures AsForm(c, n).limits.maxParts == c.limits.maxParts
  {
  }

  lemma OpenStep(s: Stream, t: string, n: nat, end: nat, c: Config, pauses: Pauses)
    requires s.phase.InHeaders? && HeadersTrace(s, t, n, c) && RoomLeft(s, t, n, c)
    requires n - |s.buffer| <= end && end + 4 <= n && end - (n - |s.buffer|) <= c.limits.maxPartHeaderBytes
    requires Find(s.buffer, BLANK_LINE, 0) == Some(end - (n - |s.buffer|))
    requires Find(t, BLANK_LINE, n - |s.buffer|) == Some(end)
    requires ParseForm(t, AsForm(c, |t|)) == match ParseHead(t[n - |s.buffer|..end], c.limits)
                                             case Err(e) => Err(e)
                                             case Ok(head) => FormBody(t, end + 4, head, s.parts, AsForm(c, |t|))
    ensures var r := OpenPart(Consume(s, end - (n - |s.buffer|) + 4), t[n - |s.buffer|..end], c, pauses);
            Trace(r, t, n, c) && RoomLeft(r, t, n, c)
  {
    hide Find, FormFrom, FormBody, ParseForm, ParseHead, Room, RoomFrom, RoomBody, AtBody, Refuses, AsForm;
    var at, f := n - |s.buffer|, AsForm(c, |t|);
    SliceOfWindow(t, at, n, end - at + 4, n - at);
    SameHeaderLimit(c, |t|);
    RefusesSame(t, f);
    var head := ParseHead(t[at..end], c.limits);
    if head.Ok? {
      TooMany(t, end + 4, head.value, s.parts, f);
      HeadersOpen(t, at, n, end, head.value, s.parts, c);
      RoomOpen(t, at, end, c);
    }
  }

  lemma RefusesSame(t: string, f: Config)
    ensures t[..|t|] == t && forall e :: Refuses(Err(e), e)
  {
  }

  lemma RoomOpen(t: string, at: nat, end: nat, c: Config)
    requires Find(t, BLANK_LINE, at) == Some(end)
    ensures RoomFrom(t, at, c) ==> RoomBody(t, end + 4, c)
  {
    hide Find, RoomBody;
  }

  lemma HeadersOpen(t: string, at: nat, n: nat, end: nat, head: Head, parts: seq<Part>, c: Config)
    requires at <= end && end + 4 <= n <= |t| && Find(t[at..n], BLANK_LINE, 0) == Some(end - at)
    requires AtHeaders(t, at, parts, AsForm(c, |t|)) && ParseHead(t[at..end], c.limits) == Ok(head)
    requires end - at <= c.limits.maxPartHeaderBytes
    ensures AtBody(t, end + 4, end + 4, head, parts, AsForm(c, |t|))
  {
    hide Find, FormFrom, FormBody, ParseForm, ParseHead;
    var f := AsForm(c, |t|);
    forall m | end + 4 <= m <= |t| ensures ParseForm(t[..m], f) == FormBody(t[..m], end + 4, head, parts, f) {
      BlankSeen(t, at, n, m);
      assert t[..m][at..end] == t[at..end];
      HeadLimits(t[at..end], c, |t|);
      FormFromSays(t[..m], at, end, parts, c, f);
    }
  }

  // ---------------------------------------------------------------- bodies

  /** What the search in the buffer did not report is not in the text. */
  lemma NoneInWindow(t: string, at: nat, n: nat, d: string, k: nat, r: Search)
    requires at <= n <= |t| && Explains(t[at..n], d, 0, r)
    requires k == 0 || at + k - 1 + |d| <= n
    requires !r.NotFound? ==> k <= r.position
    ensures NoneBetween(t, d, at, at + k)
  {
    hide OccursAt, GoodSuffix;
    var w := t[at..n];
    assert w == t[at..][..n - at];
    forall i | at <= i < at + k ensures !DelimiterAt(t, d, i) {
      OccursInPrefix(t[at..], n - at, d, i - at);
      OccursInSuffix(t, at, d, i - at);
      DelimiterInWindow(t, at, n, d, i - at);
      assert !DelimiterAt(w, d, i - at);
    }
  }

  /** A part over its limit is refused by the form parser, as soon as it sees its end. */
  lemma OverLimit(t: string, start: nat, q: nat, head: Head, parts: seq<Part>, c: Config)
    requires start <= q <= |t| && TooLarge(Part(head, t[start..q]), c.limits)
    requires NoneBetween(t, c.Next(), start, q)
    ensures Refuses(FormBody(t, start, head, parts, AsForm(c, |t|)), LimitExceeded)
  {
    hide SearchDelimiter, FormFrom, DelimiterAt, OccursAt, GoodSuffix;
    var d := c.Next();
    SearchMeaning(t, d, start);
    assert AsForm(c, |t|).Next() == d;
  }

  lemma EmitStep(s: Stream, k: nat, t: string, n: nat, c: Config, pauses: Pauses)
    requires s.phase.InBody? && BodyTrace(s, t, n, c) && RoomLeft(s, t, n, c) && k <= |s.buffer|
    requires NoneBetween(t, c.Next(), n - |s.buffer|, n - |s.buffer| + k)
    ensures var r := EmitFront(s, k, c, pauses);
            && Trace(r, t, n, c) && RoomLeft(r, t, n, c) && (r.phase.InBody? || r.phase.Failed?)
            && (r.phase.InBody? ==> BodyTrace(r, t, n, c) && r.buffer == s.buffer[k..])
  {
    hide FormFrom, FormBody, ParseForm, Room, RoomBody, DelimiterAt, NoneBetween, AtBody, Refuses, AsForm;
    var part, at := s.current.value, n - |s.buffer|;
    var start := at - |part.body|;
    SliceOfWindow(t, at, n, 0, k);
    SliceOfWindow(t, at, n, k, n - at);
    var data := s.buffer[..k];
    assert t[start..at] + t[at..at + k] == t[start..at + k];
    var grown := part.(body := part.body + data);
    assert grown == Part(part.head, t[start..at + k]);
    Further(t, start, at, at + k, part.head, s.parts, c);
    if data != "" && TooLarge(grown, c.limits) {
      OverLimit(t, start, at + k, part.head, s.parts, c);
    }
  }

  lemma Further(t: string, start: nat, at: nat, next: nat, head: Head, parts: seq<Part>, c: Config)
    requires start <= at <= next <= |t| && AtBody(t, at, start, head, parts, AsForm(c, |t|))
    requires NoneBetween(t, c.Next(), start, at) && NoneBetween(t, c.Next(), at, next)
    ensures AtBody(t, next, start, head, parts, AsForm(c, |t|)) && NoneBetween(t, c.Next(), start, next)
    ensures ParseForm(t, AsForm(c, |t|)) == FormBody(t, start, head, parts, AsForm(c, |t|))
  {
    hide FormBody, ParseForm, DelimiterAt, AsForm;
    assert t[..|t|] == t;
  }

  /** The delimiter closes the part for the form parser as well. */
  lemma FormCloses(t: string, m: nat, start: nat, at: nat, head: Head, parts: seq<Part>, c: Config)
    requires start <= at && DelimiterAt(t, c.Next(), at) && NoneBetween(t, c.Next(), start, at)
    requires at + |c.Next()| + 2 <= m <= |t|
    requires !TooLarge(Part(head, t[start..at]), c.limits) && |parts| + 1 <= c.limits.maxParts
    ensures var f, next := AsForm(c, |t|), at + |c.Next()| + 2;
            var more := parts + [Part(head, t[start..at])];
            FormBody(t[..m], start, head, parts, f) ==
            if t[at + |c.Next()|..next] == DASHES then (if EndsAt(t[..m], next) then Ok(more) else Err(MalformedBody))
            else FormFrom(t[..m], next, more, f)
  {
    hide SearchDelimiter, FormFrom, DelimiterAt, EndsAt;
    var d, w := c.Next(), t[..m];
    var next := at + |d| + 2;
    assert w == t[0..m];
    forall i | start <= i < at ensures !DelimiterAt(w, d, i) {
      DelimiterInWindow(t, 0, m, d, i);
    }
    DelimiterInWindow(t, 0, m, d, at);
    SearchMeaning(w, d, start);
    FirstIsFound(w, d, start, at, SearchDelimiter(w, d, start));
    assert w[at + |d|..next] == t[at + |d|..next] && w[start..at] == t[start..at];
    assert AsForm(c, |t|).Next() == d;
  }

  lemma EndsThere(t: string)
    ensures EndsAt(t, |t|)
  {
  }

  lemma CloseStep(s: Stream, t: string, n: nat, c: Config, pauses: Pauses)
    requires s.phase.InBody? && BodyTrace(s, t, n, c) && RoomLeft(s, t, n, c)
    requires DelimiterAt(t, c.Next(), n - |s.buffer|) && |c.Next()| + 2 <= |s.buffer|
    ensures var at := n - |s.buffer| + |c.Next()|;
            var r := CloseBody(s, t[at..at + 2] == DASHES, c, pauses).next;
            Trace(r, t, n, c) && RoomLeft(r, t, n, c)
  {
    hide FormFrom, FormBody, ParseForm, Room, RoomFrom, RoomBody, DelimiterAt, SearchDelimiter, EndsAt;
    var part, at, f := s.current.value, n - |s.buffer|, AsForm(c, |t|);
    var start, next := at - |part.body|, at + |c.Next()| + 2;
    var more := s.parts + [part];
    assert part == Part(part.head, t[start..at]);
    SliceOfWindow(t, at, n, next - at, n - at);
    if t[next - 2..next] == DASHES {
      FormCloses(t, next, start, at, part.head, s.parts, c);
      EndsThere(t[..next]);
    } else {
      forall m | next <= m <= |t| ensures ParseForm(t[..m], f) == FormFrom(t[..m], next, more, f) {
        FormCloses(t, m, start, at, part.head, s.parts, c);
      }
      RoomCloses(t, start, at, c);
    }
  }

  lemma RoomCloses(t: string, start: nat, at: nat, c: Config)
    requires start <= at && DelimiterAt(t, c.Next(), at) && NoneBetween(t, c.Next(), start, at)
    requires t[at + |c.Next()|..at + |c.Next()| + 2] != DASHES
    ensures RoomBody(t, start, c) ==> RoomFrom(t, at + |c.Next()| + 2, c)
  {
    hide SearchDelimiter, RoomFrom, DelimiterAt;
    SearchMeaning(t, c.Next(), start);
    FirstIsFound(t, c.Next(), start, at, SearchDelimiter(t, c.Next(), start));
  }

  lemma BodyStep(s: Stream, t: string, n: nat, c: Config, pauses: Pauses)
    requires s.phase.InBody? && BodyTrace(s, t, n, c) && RoomLeft(s, t, n, c)
    ensures var r := BodyTurn(s, c, pauses).next; Trace(r, t, n, c) && RoomLeft(r, t, n, c)
  {
    hide Trace, RoomLeft, NoneBetween, AtBody, SearchDelimiter, EmitFront, CloseBody, OccursAt, GoodSuffix;
    var d, at := c.Next(), n - |s.buffer|;
    SearchMeaning(s.buffer, d, 0);
    var search := SearchDelimiter(s.buffer, d, 0);
    var k := match search case NeedMore(q) => q case NotFound => Settled(s, c) case Found(q, _) => q;
    NoneInWindow(t, at, n, d, k, search);
    EmitStep(s, k, t, n, c, pauses);
    if search.Found? {
      DelimiterInWindow(t, at, n, d, k);
      SliceOfWindow(t, at, n, k + |d|, k + |d| + 2);
      var emitted := EmitFront(s, k, c, pauses);
      if !emitted.paused && !emitted.phase.Failed? {
        CloseStep(emitted, t, n, c, pauses);
      }
    }
  }

  // ---------------------------------------------------------------- whole runs

  lemma TurnStep(s: Stream, t: string, n: nat, c: Config, pauses: Pauses)
    requires Trace(s, t, n, c) && RoomLeft(s, t, n, c) && Fits(|t|, c) && !s.phase.Failed?
    ensures var r := Turn(s, c, pauses).next; Trace(r, t, n, c) && RoomLeft(r, t, n, c)
  {
    hide BoundaryTurn, HeadersTurn, BodyTurn, HeadersTrace, BodyTrace, RoomLeft, ParseForm;
    match s.phase
    case FirstBoundary => BoundaryTrace(s, t, n, c, pauses);
    case InHeaders => HeadersStep(s, t, n, c, pauses);
    case InBody => BodyStep(s, t, n, c, pauses);
    case Done =>
  }

  lemma {:induction false} ParseTrace(s: Stream, t: string, n: nat, c: Config, pauses: Pauses)
    requires Trace(s, t, n, c) && RoomLeft(s, t, n, c) && Fits(|t|, c)
    ensures var r := Parse(s, c, pauses); Trace(r, t, n, c) && RoomLeft(r, t, n, c)
    decreases |s.buffer|
  {
    hide Turn, Trace, RoomLeft;
    if !s.phase.Failed? && !s.paused {
      TurnStep(s, t, n, c, pauses);
      var step := Turn(s, c, pauses);
      if step.again {
        ParseTrace(step.next, t, n, c, pauses);
      }
    }
  }

  lemma TraceGrows(s: Stream, t: string, n: nat, chunk: string, c: Config)
    requires Trace(s, t, n, c) && RoomLeft(s, t, n, c) && n + |chunk| <= |t| && t[n..n + |chunk|] == chunk
    ensures var grown := s.(buffer := s.buffer + chunk, received := s.received + |chunk|);
            Trace(grown, t, n + |chunk|, c) && RoomLeft(grown, t, n + |chunk|, c)
  {
    hide ParseForm, AtHeaders, AtBody, NoneBetween, Room, RoomFrom, RoomBody, TooLarge, Refuses;
    var at := if |s.buffer| <= n then n - |s.buffer| else 0;
    assert t[at..n] + chunk == t[at..n + |chunk|];
    assert t[..n] + chunk == t[..n + |chunk|];
  }

  lemma PauseTrace(s: Stream, t: string, n: nat, c: Config, paused: bool)
    requires Trace(s, t, n, c) && RoomLeft(s, t, n, c)
    ensures Trace(s.(paused := paused), t, n, c) && RoomLeft(s.(paused := paused), t, n, c)
  {
    hide ParseForm, AtHeaders, AtBody, NoneBetween, Room, RoomFrom, RoomBody, TooLarge, Refuses;
  }

  lemma HandleTrace(s: Stream, event: Event, t: string, n: nat, c: Config, pauses: Pauses)
    requires Trace(s, t, n, c) && RoomLeft(s, t, n, c) && Fits(|t|, c) && s.received == n
    requires event.Data? ==> n + |event.chunk| <= |t| && t[n..n + |event.chunk|] == event.chunk
    ensures var m := n + if event.Data? then |event.chunk| else 0;
            var r := Handle(s, event, c, pauses);
            Trace(r, t, m, c) && RoomLeft(r, t, m, c) && r.received == m
  {
    hide Parse, Trace, RoomLeft;
    match event
    case Data(chunk) =>
      TraceGrows(s, t, n, chunk, c);
      var grown := s.(buffer := s.buffer + chunk, received := s.received + |chunk|);
      ParseTrace(grown, t, n + |chunk|, c, pauses);
      ParseKeepsReceived(grown, c, pauses);
    case Pause => PauseTrace(s, t, n, c, true);
    case Resume =>
      if s.paused {
        PauseTrace(s, t, n, c, false);
        ParseTrace(s.(paused := false), t, n, c, pauses);
        ParseKeepsReceived(s.(paused := false), c, pauses);
      }
  }

  lemma {:induction false} RunTrace(s: Stream, events: seq<Event>, t: string, n: nat, c: Config, pauses: Pauses)
    requires Trace(s, t, n, c) && RoomLeft(s, t, n, c) && Fits(|t|, c) && s.received == n
    requires n <= |t| && DataOf(events) <= t[n..]
    ensures var m := n + |DataOf(events)|;
            var r := Run(s, events, c, pauses);
            m <= |t| && Trace(r, t, m, c)
    decreases |events|
  {
    hide Handle, Trace, RoomLeft;
    if events != [] {
      var chunk := if events[0].Data? then events[0].chunk else "";
      assert DataOf(events) == chunk + DataOf(events[1..]);
      NextPiece(t, n, chunk, DataOf(events[1..]));
      HandleTrace(s, events[0], t, n, c, pauses);
      RunTrace(Handle(s, events[0], c, pauses), events[1..], t, n + |chunk|, c, pauses);
    }
  }

  /** Over every run within the total limit, whatever the bytes, the cuts and the pauses. A stream that is done
      has exactly the parts that the form parser, under the same limits, reads from the bytes up to some point;
      and where it failed, the form parser refuses those bytes with the same error (or, at a limit, for a missing
      end), unless a header block is within three bytes of its limit. */
  lemma StreamIsForm(events: seq<Event>, c: Config, pauses: Pauses)
    requires Fits(|DataOf(events)|, c)
    ensures var s, t := Run(FRESH, events, c, pauses), DataOf(events);
            && (s.phase.Done? ==> exists m :: 0 <= m <= |t| && ParseForm(t[..m], AsForm(c, |t|)) == Ok(s.parts))
            && (s.phase.Failed? && Room(t, c) ==> Refuses(ParseForm(t, AsForm(c, |t|)), s.phase.error))
  {
    hide Run, ParseForm, Room, Refuses, HeadersTrace, BodyTrace;
    var t := DataOf(events);
    assert t[0..] == t && t[..0] == "";
    RunTrace(FRESH, events, t, 0, c, pauses);
  }

  // ---------------------------------------------------------------- the total limit

  lemma {:induction false} TotalKept(s: Stream, events: seq<Event>, c: Config, pauses: Pauses)
    requires Fits(s.received, c) || s.phase.Done? || s.phase.Failed?
    ensures var r := Run(s, events, c, pauses);
            && r.received == s.received + |DataOf(events)|
            && (Fits(r.received, c) || r.phase.Done? || r.phase.Failed?)
            && (s.phase.Failed? ==> r.phase == s.phase) && (s.phase.Done? ==> r.phase.Done? && r.parts == s.parts)
    decreases |events|
  {
    hide Turn;
    if events != [] {
      HandleTotal(s, events[0], c, pauses);
      hide Handle, Fits;
      TotalKept(Handle(s, events[0], c, pauses), events[1..], c, pauses);
    }
  }

  lemma HandleTotal(s: Stream, event: Event, c: Config, pauses: Pauses)
    requires Fits(s.received, c) || s.phase.Done? || s.phase.Failed?
    ensures var r := Handle(s, event, c, pauses);
            && r.received == s.received + (if event.Data? then |event.chunk| else 0)
            && (Fits(r.received, c) || r.phase.Done? || r.phase.Failed?)
            && (s.phase.Failed? ==> r.phase == s.phase) && (s.phase.Done? ==> r.phase.Done? && r.parts == s.parts)
  {
    hide Parse;
    match event
    case Data(chunk) =>
      var grown := s.(buffer := s.buffer + chunk, received := s.received + |chunk|);
      ParseKeepsReceived(grown, c, pauses);
      ParseOver(grown, c, pauses);
    case Pause =>
    case Resume =>
      ParseKeepsReceived(s.(paused := false), c, pauses);
      ParseOver(s.(paused := false), c, pauses);
  }

  lemma ParseOver(s: Stream, c: Config, pauses: Pauses)
    ensures s.phase.Done? || s.phase.Failed? ==> Parse(s, c, pauses) == s
  {
  }

  /** In every run: a stream that received more than the total limit is done or has failed; a failed stream
      stays failed for the same reason, and one that is done stays done with the same parts. */
  lemma TotalEnforced(events: seq<Event>, more: seq<Event>, c: Config, pauses: Pauses)
    ensures var s := Run(FRESH, events, c, pauses);
            var r := Run(s, more, c, pauses);
            && (Fits(|DataOf(events)|, c) || s.phase.Done? || s.phase.Failed?)
            && (s.phase.Failed? ==> r.phase == s.phase) && (s.phase.Done? ==> r.phase.Done? && r.parts == s.parts)
  {
    hide Run;
    TotalKept(FRESH, events, c, pauses);
    TotalKept(Run(FRESH, events, c, pauses), more, c, pauses);
  }

  // ---------------------------------------------------------------- pauses

  /** From call number `from` on, the stream is paused exactly when some callback asked for it, and that one was
      the last, unless the end of the body was reported right behind it. */
  ghost predicate Obeys(r: Stream, from: nat, pauses: Pauses) {
    && from <= r.calls
    && (r.paused <==> exists k: nat :: from <= k < r.calls && pauses(k))
    && forall k: nat :: from <= k < r.calls - 1 && pauses(k) ==> k == r.calls - 2 && r.phase.Done?
  }

  lemma EmitObeys(s: Stream, n: nat, c: Config, pauses: Pauses)
    requires !s.paused && n <= |s.buffer|
    ensures var r := EmitFront(s, n, c, pauses);
            && r.calls <= s.calls + 1 && Obeys(r, s.calls, pauses)
            && r.paused == (r.calls == s.calls + 1 && pauses(s.calls))
  {
  }

  lemma CloseObeys(s: Stream, from: nat, isFinal: bool, c: Config, pauses: Pauses)
    requires !s.paused && |c.Next()| + 2 <= |s.buffer| && Obeys(s, from, pauses) && s.calls <= from + 1
    ensures var step := CloseBody(s, isFinal, c, pauses);
            Obeys(step.next, from, pauses) && (step.again ==> !step.next.phase.Done?)
  {
    var step := CloseBody(s, isFinal, c, pauses);
    assert pauses(s.calls) || !pauses(s.calls);
    assert pauses(s.calls + 1) || !pauses(s.calls + 1);
  }

  lemma TurnObeys(s: Stream, c: Config, pauses: Pauses)
    requires !s.paused
    ensures var step := Turn(s, c, pauses);
            Obeys(step.next, s.calls, pauses) && (step.again ==> !step.next.phase.Done?)
  {
    hide Find, SearchDelimiter, ParseHead, EmitFront, CloseBody;
    if s.phase.InBody? {
      hide Obeys;
      match SearchDelimiter(s.buffer, c.Next(), 0) {
        case NeedMore(position) => EmitObeys(s, position, c, pauses);
        case NotFound => EmitObeys(s, Settled(s, c), c, pauses);
        case Found(position, isFinal) =>
          EmitObeys(s, position, c, pauses);
          EmitFrontKeeps(s, position, c, pauses);
          var emitted := EmitFront(s, position, c, pauses);
          if !emitted.paused && !emitted.phase.Failed? {
            CloseObeys(emitted, s.calls, isFinal, c, pauses);
          }
      }
    }
  }

  lemma ObeysOn(s: Stream, r: Stream, from: nat, pauses: Pauses)
    requires Obeys(s, from, pauses) && !s.paused && Obeys(r, s.calls, pauses)
    ensures Obeys(r, from, pauses)
  {
  }

  /** A pause asked for by a callback takes effect at once: no further callback runs in that call, but for the end
      of the body behind its last part. */
  lemma {:induction false} PauseTakesEffect(s: Stream, c: Config, pauses: Pauses)
    requires !s.paused
    ensures Obeys(Parse(s, c, pauses), s.calls, pauses)
    decreases |s.buffer|
  {
    hide Turn, Obeys;
    if s.phase.Failed? {
      ObeysSelf(s, pauses);
    } else {
      TurnObeys(s, c, pauses);
      var step := Turn(s, c, pauses);
      if step.again && !step.next.paused {
        PauseTakesEffect(step.next, c, pauses);
        ObeysOn(step.next, Parse(step.next, c, pauses), s.calls, pauses);
      } else if step.again {
        PausedParse(step.next, c, pauses);
      }
    }
  }

  lemma ObeysSelf(s: Stream, pauses: Pauses)
    requires !s.paused
    ensures Obeys(s, s.calls, pauses)
  {
  }

  /** Once it is paused, whatever arrives is only kept: no callback runs and no part changes until it is
      resumed, and only the total limit can fail it. */
  lemma PausedIsQuiet(s: Stream, event: Event, c: Config, pauses: Pauses)
    requires (s.paused || event.Pause?) && !event.Resume?
    ensures var r := Handle(s, event, c, pauses);
            && r.paused && r.calls == s.calls && r.parts == s.parts && r.partCount == s.partCount
            && (r.phase == s.phase || (event.Data? && r.phase == Failed(LimitExceeded) && !Fits(r.received, c)))
            && (r.phase == s.phase && event.Data? && Fits(r.received, c) ==>
                  r.current == s.current && r.buffer == s.buffer + event.chunk)
  {
    hide Turn;
  }

  /** Resuming lets it go on with what was kept, until a callback pauses it again. */
  lemma ResumeGoesOn(s: Stream, c: Config, pauses: Pauses)
    requires s.paused
    ensures var r := Handle(s, Resume, c, pauses);
            && Obeys(r, s.calls, pauses)
            && (!r.paused && r.phase.InBody? ==> |r.buffer| <= |c.Next()| + 1)
  {
    hide Parse;
    PauseTakesEffect(s.(paused := false), c, pauses);
    RetentionBound(s.(paused := false), c, pauses);
  }
}
