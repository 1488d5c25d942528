/** The incremental multipart parser refines the whole-buffer parser: for every accepted body, every cut
    into chunks and every placement of pauses, it ends with the same parts. */
module MultipartRefine {
  import opened Text
  import opened Multipart
  import opened MultipartStream

  // ---------------------------------------------------------------- delimiters seen through a window

  /** What a search result says about complete delimiter lines. */
  ghost predicate Explains(t: string, delimiter: string, offset: nat, r: Search) {
    && (forall i :: offset <= i && (!r.NotFound? ==> i < r.position) ==> !DelimiterAt(t, delimiter, i))
    && (!r.Found? ==>
          forall i :: offset <= i && (r.NeedMore? ==> i < r.position) && OccursAt(t, delimiter, i) ==>
                        i + |delimiter| + 2 <= |t|)
    && match r
       case Found(p, isFinal) =>
         DelimiterAt(t, delimiter, p) && isFinal == (t[p + |delimiter|..p + |delimiter| + 2] == DASHES)
       case NeedMore(p) => OccursAt(t, delimiter, p) && |t| < p + |delimiter| + 2
       case NotFound => true
  }

  lemma {:induction false} SearchMeaning(t: string, delimiter: string, offset: nat)
    requires delimiter != ""
    ensures Explains(t, delimiter, offset, SearchDelimiter(t, delimiter, offset))
    decreases |t| - offset
  {
    hide Find, OccursAt, GoodSuffix, Explains;
    FindIsFirst(t, delimiter, offset);
    var position := Find(t, delimiter, offset);
    if |t| <= offset || position.None? {
      NoOccurrence(t, delimiter, offset);
    } else {
      var p := position.value;
      var after := p + |delimiter|;
      if |t| < after + 2 || GoodSuffix(t[after..after + 2]) {
        FirstOccurrence(t, delimiter, offset, p);
      } else {
        SearchMeaning(t, delimiter, p + 1);
        SkipOccurrence(t, delimiter, offset, p, SearchDelimiter(t, delimiter, p + 1));
      }
    }
  }

  lemma NoOccurrence(t: string, delimiter: string, offset: nat)
    requires delimiter != ""
    requires |t| <= offset || forall i :: offset <= i ==> !OccursAt(t, delimiter, i)
    ensures Explains(t, delimiter, offset, NotFound)
  {
  }

  lemma FirstOccurrence(t: string, delimiter: string, offset: nat, p: nat)
    requires OccursAt(t, delimiter, p) && forall i :: offset <= i < p ==> !OccursAt(t, delimiter, i)
    requires p + |delimiter| + 2 <= |t| ==> GoodSuffix(t[p + |delimiter|..p + |delimiter| + 2])
    ensures Explains(t, delimiter, offset,
                     if |t| < p + |delimiter| + 2 then NeedMore(p)
                     else Found(p, t[p + |delimiter|..p + |delimiter| + 2] == DASHES))
  {
    hide OccursAt, GoodSuffix;
  }

  lemma SkipOccurrence(t: string, delimiter: string, offset: nat, p: nat, r: Search)
    requires forall i :: offset <= i < p ==> !OccursAt(t, delimiter, i)
    requires p + |delimiter| + 2 <= |t| && !GoodSuffix(t[p + |delimiter|..p + |delimiter| + 2])
    requires Explains(t, delimiter, p + 1, r)
    ensures Explains(t, delimiter, offset, r)
  {
    hide OccursAt, GoodSuffix;
  }

  /** A delimiter line lies in a window exactly when it lies in the text and fits. */
  lemma DelimiterInWindow(t: string, c: nat, n: nat, delimiter: string, i: nat)
    requires c <= n <= |t|
    ensures DelimiterAt(t[c..n], delimiter, i)
            <==> DelimiterAt(t, delimiter, c + i) && c + i + |delimiter| + 2 <= n
  {
    var w := t[c..n];
    assert w == t[c..][..n - c];
    OccursInPrefix(t[c..], n - c, delimiter, i);
    OccursInSuffix(t, c, delimiter, i);
    if i + |delimiter| + 2 <= n - c {
      SliceOfWindow(t, c, n, i + |delimiter|, i + |delimiter| + 2);
    }
  }

  /** Searching what is buffered of a text whose next delimiter is at `p`: either it is found, or what
      may be emitted ends at or before `p` and `p`'s line is not yet complete. */
  lemma SearchInWindow(t: string, c: nat, n: nat, delimiter: string, start: nat, p: nat)
    requires delimiter != "" && start <= c <= p && c <= n <= |t|
    requires SearchDelimiter(t, delimiter, start).Found? && SearchDelimiter(t, delimiter, start).position == p
    ensures match SearchDelimiter(t[c..n], delimiter, 0)
            case Found(q, isFinal) => c + q == p && isFinal == SearchDelimiter(t, delimiter, start).isFinal
            case NeedMore(q) => c + q <= p && n < p + |delimiter| + 2
            case NotFound => n < p + |delimiter|
  {
    hide Find, SearchDelimiter, DelimiterAt, OccursAt;
    var w := t[c..n];
    SearchMeaning(t, delimiter, start);
    SearchMeaning(w, delimiter, 0);
    var r := SearchDelimiter(w, delimiter, 0);
    OccursThere(t, delimiter, p);
    assert w == t[c..][..n - c];
    OccursInPrefix(t[c..], n - c, delimiter, p - c);
    OccursInSuffix(t, c, delimiter, p - c);
    DelimiterInWindow(t, c, n, delimiter, p - c);
    if r.Found? {
      DelimiterInWindow(t, c, n, delimiter, r.position);
      SliceOfWindow(t, c, n, r.position + |delimiter|, r.position + |delimiter| + 2);
    }
  }

  lemma OccursThere(t: string, delimiter: string, p: int)
    requires DelimiterAt(t, delimiter, p)
    ensures OccursAt(t, delimiter, p) && p + |delimiter| + 2 <= |t|
  {
  }

  /** The first complete delimiter line is what the search finds. */
  lemma FirstIsFound(t: string, d: string, start: nat, q: nat, r: Search)
    requires start <= q && DelimiterAt(t, d, q) && forall i :: start <= i < q ==> !DelimiterAt(t, d, i)
    requires Explains(t, d, start, r) && (r.Found? ==> start <= r.position)
    ensures r == Found(q, t[q + |d|..q + |d| + 2] == DASHES)
  {
    hide OccursAt, GoodSuffix;
  }

  lemma NextSome(c: Config)
    ensures c.Next() != ""
  {
  }

  // ---------------------------------------------------------------- simulation

  /** Every header block from here on leaves room for the three bytes of a partial CRLFCRLF, which the
      incremental parser counts against the limit. */
  predicate RoomFrom(t: string, offset: nat, c: Config)
    decreases |t| - offset, 1
  {
    match Find(t, BLANK_LINE, offset)
    case None => true
    case Some(end) => end - offset + 3 <= c.limits.maxPartHeaderBytes && RoomBody(t, end + 4, c)
  }

  predicate RoomBody(t: string, start: nat, c: Config)
    decreases |t| - start, 0
  {
    match SearchDelimiter(t, c.Next(), start)
    case Found(p, isFinal) => !isFinal ==> RoomFrom(t, p + |c.Next()| + 2, c)
    case _ => true
  }

  /** The header blocks of a whole body. */
  predicate Room(t: string, c: Config) {
    PairAt(t, |c.First()|, CRLF) ==> RoomFrom(t, |c.First()| + 2, c)
  }

  predicate Buffers(s: Stream, t: string, n: nat) {
    n <= |t| && |s.buffer| <= n && s.buffer == t[n - |s.buffer|..n]
  }

  predicate HeadersSim(s: Stream, t: string, n: nat, c: Config, all: seq<Part>) {
    && Buffers(s, t, n) && s.current.None? && s.partCount == |s.parts|
    && FormFrom(t, n - |s.buffer|, s.parts, c) == Ok(all)
  }

  /** The data emitted for the open part and the retained bytes are exactly what was received of it. */
  predicate BodySim(s: Stream, t: string, n: nat, c: Config, all: seq<Part>) {
    && Buffers(s, t, n) && s.current.Some? && s.partCount == |s.parts| + 1
    && var part := s.current.value;
       var at := n - |s.buffer|;
       && |part.body| <= at && part.body == t[at - |part.body|..at]
       && FormBody(t, at - |part.body|, part.head, s.parts, c) == Ok(all)
       && var next := SearchDelimiter(t, c.Next(), at - |part.body|);
          next.Found? && at <= next.position
  }

  /** After the first `n` bytes of `t` the stream is where the whole-buffer parser would be. */
  predicate Sim(s: Stream, t: string, n: nat, c: Config, all: seq<Part>) {
    match s.phase
    case FirstBoundary =>
      n <= |t| && s.buffer == t[..n] && s.current.None? && s.parts == [] && s.partCount == 0
    case InHeaders => HeadersSim(s, t, n, c, all)
    case InBody => BodySim(s, t, n, c, all)
    case Done => s.parts == all
    case Failed(_) => false
  }

  /** The header blocks still ahead leave room. */
  predicate RoomAhead(s: Stream, t: string, n: nat, c: Config) {
    match s.phase
    case FirstBoundary => Room(t, c)
    case InHeaders => |s.buffer| <= n && RoomFrom(t, n - |s.buffer|, c)
    case InBody =>
      s.current.Some? && |s.buffer| + |s.current.value.body| <= n
      && RoomBody(t, n - |s.buffer| - |s.current.value.body|, c)
    case _ => true
  }

  /** An unpaused stream that is not done is waiting for bytes. */
  predicate Waits(s: Stream, t: string, n: nat) {
    !s.paused && !s.phase.Done? ==> n < |t|
  }

  lemma PairInPrefix(t: string, n: nat, offset: nat, pair: string)
    requires offset + 2 <= n <= |t|
    ensures PairAt(t[..n], offset, pair) == PairAt(t, offset, pair)
  {
    assert t[..n][offset..offset + 2] == t[offset..offset + 2];
  }

  lemma BoundarySim(s: Stream, t: string, n: nat, c: Config, all: seq<Part>, pauses: Pauses)
    requires ParseForm(t, c) == Ok(all) && Room(t, c)
    requires s.phase.FirstBoundary? && Sim(s, t, n, c, all)
    ensures var step := BoundaryTurn(s, c, pauses);
            && Sim(step.next, t, n, c, all) && (!step.again ==> Waits(step.next, t, n))
            && RoomAhead(step.next, t, n, c)
  {
    hide FormFrom, RoomFrom;
    var after := |c.First()|;
    if after + 2 <= n {
      PairInPrefix(t, n, after, DASHES);
      PairInPrefix(t, n, after, CRLF);
      assert t[..n][..after] == t[..after];
      assert t[..n][after + 2..] == t[after + 2..n];
    }
  }

  /** The whole header block is buffered: the part is opened. */
  lemma HeadersTake(s: Stream, t: string, n: nat, c: Config, all: seq<Part>, end: nat, pauses: Pauses)
    requires s.phase.InHeaders? && HeadersSim(s, t, n, c, all)
    requires Find(t, BLANK_LINE, n - |s.buffer|) == Some(end) && end + 4 <= n
    ensures var step := HeadersTurn(s, c, pauses);
            && step.again && step.next.phase.InBody? && step.next.parts == s.parts
            && n - |step.next.buffer| == end + 4 && BodySim(step.next, t, n, c, all)
            && step.next.current.Some? && step.next.current.value.body == ""
  {
    hide Find, SearchDelimiter, ParseHead, FormBody, AcceptPart;
    var at := n - |s.buffer|;
    FindInWindow(t, at, n, BLANK_LINE, 0);
    SliceOfWindow(t, at, n, 0, end - at);
    SliceOfWindow(t, at, n, end - at + 4, n - at);
    assert s.buffer[..end - at] == t[at..end] && s.buffer[end - at + 4..] == t[end + 4..n];
    assert t[end + 4..end + 4] == "";
    var head := ParseHead(t[at..end], c.limits).value;
    FormBodyAccepts(t, end + 4, head, s.parts, c, all);
    PartsFit(head, t[end + 4..SearchDelimiter(t, c.Next(), end + 4).position], s.parts, c);
  }

  lemma PartsFit(head: Head, payload: string, done: seq<Part>, c: Config)
    requires AcceptPart(head, payload, done, c).None?
    ensures |done| + 1 <= c.limits.maxParts
  {
  }

  /** The header block is not complete: the stream waits, if there is room. */
  lemma HeadersWait(s: Stream, t: string, n: nat, c: Config, all: seq<Part>, end: nat, pauses: Pauses)
    requires s.phase.InHeaders? && HeadersSim(s, t, n, c, all)
    requires Find(t, BLANK_LINE, n - |s.buffer|) == Some(end) && n < end + 4
    requires end - (n - |s.buffer|) + 3 <= c.limits.maxPartHeaderBytes
    ensures HeadersTurn(s, c, pauses) == Step(s, false)
  {
    hide Find, FormFrom;
    FindInWindow(t, n - |s.buffer|, n, BLANK_LINE, 0);
  }

  lemma FormFromAccepts(t: string, at: nat, done: seq<Part>, c: Config, all: seq<Part>)
    requires FormFrom(t, at, done, c) == Ok(all)
    ensures var end := Find(t, BLANK_LINE, at);
            end.Some? && at <= end.value && end.value + 4 <= |t|
  {
    hide Find, FormBody;
  }

  lemma RoomFromSays(t: string, at: nat, c: Config)
    requires RoomFrom(t, at, c) && Find(t, BLANK_LINE, at).Some?
    ensures var end := Find(t, BLANK_LINE, at).value;
            end - at + 3 <= c.limits.maxPartHeaderBytes && RoomBody(t, end + 4, c)
  {
    hide Find, RoomBody;
  }

  lemma HeadersSimStep(s: Stream, t: string, n: nat, c: Config, all: seq<Part>, pauses: Pauses)
    requires s.phase.InHeaders? && HeadersSim(s, t, n, c, all) && RoomAhead(s, t, n, c)
    ensures var step := HeadersTurn(s, c, pauses);
            && Sim(step.next, t, n, c, all) && (!step.again ==> Waits(step.next, t, n))
            && RoomAhead(step.next, t, n, c)
  {
    hide Find, HeadersTurn, FormFrom, RoomFrom, RoomBody, BodySim;
    FormFromAccepts(t, n - |s.buffer|, s.parts, c, all);
    RoomFromSays(t, n - |s.buffer|, c);
    var end := Find(t, BLANK_LINE, n - |s.buffer|).value;
    if end + 4 <= n {
      HeadersTake(s, t, n, c, all, end, pauses);
    } else {
      HeadersWait(s, t, n, c, all, end, pauses);
    }
  }

  /** What acceptance of a part says. */
  lemma FormBodyAccepts(t: string, start: nat, head: Head, done: seq<Part>, c: Config, all: seq<Part>)
    requires FormBody(t, start, head, done, c) == Ok(all)
    ensures var next := SearchDelimiter(t, c.Next(), start);
            && next.Found? && AcceptPart(head, t[start..next.position], done, c).None?
            && var parts := done + [Part(head, t[start..next.position])];
               if next.isFinal then all == parts
               else FormFrom(t, next.position + |c.Next()| + 2, parts, c) == Ok(all)
  {
    hide FormFrom;
  }

  /** Data within the limits of an accepted part is emitted. */
  lemma EmitAccepted(s: Stream, data: string, payload: string, c: Config, pauses: Pauses)
    requires s.phase.InBody? && s.current.Some?
    requires AcceptPart(s.current.value.head, payload, s.parts, c).None?
    requires |s.current.value.body| + |data| <= |payload|
    ensures var r := Emit(s, data, c, pauses);
            && r.current == Some(s.current.value.(body := s.current.value.body + data))
            && r == s.(current := r.current, paused := r.paused, calls := r.calls)
  {
    assert s.current.value.body + "" == s.current.value.body;
  }

  lemma EmitSim(s: Stream, k: nat, t: string, n: nat, c: Config, all: seq<Part>, pauses: Pauses)
    requires s.phase.InBody? && BodySim(s, t, n, c, all) && k <= |s.buffer|
    requires var start := n - |s.buffer| - |s.current.value.body|;
             n - |s.buffer| + k <= SearchDelimiter(t, c.Next(), start).position
    ensures var r := EmitFront(s, k, c, pauses);
            && BodySim(r, t, n, c, all) && r.phase.InBody? && |r.buffer| == |s.buffer| - k
            && r.paused == Emit(s, s.buffer[..k], c, pauses).paused
            && r.current.Some? && r.current.value.head == s.current.value.head && r.parts == s.parts
            && n - |r.buffer| - |r.current.value.body| == n - |s.buffer| - |s.current.value.body|
  {
    hide FormBody, SearchDelimiter, RoomBody, Emit, AcceptPart;
    var part := s.current.value;
    var at := n - |s.buffer|;
    var start := at - |part.body|;
    FormBodyAccepts(t, start, part.head, s.parts, c, all);
    EmitAccepted(s, s.buffer[..k], t[start..SearchDelimiter(t, c.Next(), start).position], c, pauses);
    MovedFront(s, k, t, n, c, all, EmitFront(s, k, c, pauses));
  }

  /** Moving the front of the buffer to the end of the open part keeps the simulation. */
  lemma MovedFront(s: Stream, k: nat, t: string, n: nat, c: Config, all: seq<Part>, r: Stream)
    requires s.phase.InBody? && BodySim(s, t, n, c, all) && k <= |s.buffer|
    requires var start := n - |s.buffer| - |s.current.value.body|;
             n - |s.buffer| + k <= SearchDelimiter(t, c.Next(), start).position
    requires r == s.(current := Some(s.current.value.(body := s.current.value.body + s.buffer[..k])),
                     buffer := s.buffer[k..], paused := r.paused, calls := r.calls)
    ensures BodySim(r, t, n, c, all)
  {
    hide FormBody, SearchDelimiter, RoomBody;
    var at := n - |s.buffer|;
    var start := at - |s.current.value.body|;
    SliceOfWindow(t, at, n, 0, k);
    SliceOfWindow(t, at, n, k, n - at);
    assert t[start..at] + t[at..at + k] == t[start..at + k];
  }

  lemma CloseSim(s: Stream, t: string, n: nat, c: Config, all: seq<Part>, pauses: Pauses)
    requires s.phase.InBody? && BodySim(s, t, n, c, all)
    requires var start := n - |s.buffer| - |s.current.value.body|;
             var next := SearchDelimiter(t, c.Next(), start);
             n - |s.buffer| == next.position && next.position + |c.Next()| + 2 <= n
    ensures var start := n - |s.buffer| - |s.current.value.body|;
            var next := SearchDelimiter(t, c.Next(), start);
            var step := CloseBody(s, next.isFinal, c, pauses);
            && Sim(step.next, t, n, c, all) && (!step.again ==> Waits(step.next, t, n))
            && (RoomAhead(s, t, n, c) ==> RoomAhead(step.next, t, n, c))
            && (!next.isFinal ==>
                  step.again && step.next.phase.InHeaders?
                  && n - |step.next.buffer| == next.position + |c.Next()| + 2)
  {
    hide FormBody, FormFrom, SearchDelimiter, RoomFrom;
    var part := s.current.value;
    var at := n - |s.buffer|;
    FormBodyAccepts(t, at - |part.body|, part.head, s.parts, c, all);
    SliceOfWindow(t, at, n, |c.Next()| + 2, n - at);
    assert Part(part.head, part.body) == part;
  }

  lemma BodySimSays(s: Stream, t: string, n: nat, c: Config, all: seq<Part>)
    requires BodySim(s, t, n, c, all)
    ensures Buffers(s, t, n) && s.current.Some? && |s.current.value.body| <= n - |s.buffer|
    ensures var next := SearchDelimiter(t, c.Next(), n - |s.buffer| - |s.current.value.body|);
            next.Found? && n - |s.buffer| <= next.position && next.position + |c.Next()| + 2 <= |t|
  {
    hide FormBody, SearchDelimiter;
  }

  lemma BodySimStep(s: Stream, t: string, n: nat, c: Config, all: seq<Part>, pauses: Pauses)
    requires s.phase.InBody? && BodySim(s, t, n, c, all)
    ensures var step := BodyTurn(s, c, pauses);
            && Sim(step.next, t, n, c, all) && (!step.again ==> Waits(step.next, t, n))
            && (RoomAhead(s, t, n, c) ==> RoomAhead(step.next, t, n, c))
  {
    hide FormBody, SearchDelimiter, BodyTurn, EmitFront, CloseBody, BodySim, Sim, Waits, RoomAhead, Config.Next;
    BodySimSays(s, t, n, c, all);
    NextSome(c);
    var at := n - |s.buffer|;
    var start := at - |s.current.value.body|;
    var next, found := SearchDelimiter(t, c.Next(), start), SearchDelimiter(s.buffer, c.Next(), 0);
    SearchInWindow(t, at, n, c.Next(), start, next.position);
    BodyTurnSays(s, c, pauses);
    if found.Found? {
      FoundSim(s, found.position, found.isFinal, t, n, c, all, pauses);
    } else {
      EmitWaits(s, if found.NeedMore? then found.position else Settled(s, c), t, n, c, all, pauses);
    }
  }

  /** What a turn inside a body does with what the search found. */
  lemma BodyTurnSays(s: Stream, c: Config, pauses: Pauses)
    ensures var found := SearchDelimiter(s.buffer, c.Next(), 0);
            if !found.Found? then
              var k := if found.NeedMore? then found.position else Settled(s, c);
              BodyTurn(s, c, pauses) == Step(EmitFront(s, k, c, pauses), false)
            else
              var emitted := EmitFront(s, found.position, c, pauses);
              if emitted.paused || emitted.phase.Failed? then BodyTurn(s, c, pauses) == Step(emitted, false)
              else
                && |emitted.buffer| == |s.buffer| - found.position
                && BodyTurn(s, c, pauses) == CloseBody(emitted, found.isFinal, c, pauses)
  {
    hide SearchDelimiter, CloseBody, Config.Next;
  }

  /** The delimiter is not whole yet. */
  lemma EmitWaits(s: Stream, k: nat, t: string, n: nat, c: Config, all: seq<Part>, pauses: Pauses)
    requires s.phase.InBody? && BodySim(s, t, n, c, all) && k <= |s.buffer| && n < |t|
    requires var start := n - |s.buffer| - |s.current.value.body|;
             n - |s.buffer| + k <= SearchDelimiter(t, c.Next(), start).position
    ensures var r := EmitFront(s, k, c, pauses);
            Sim(r, t, n, c, all) && Waits(r, t, n) && (RoomAhead(s, t, n, c) ==> RoomAhead(r, t, n, c))
  {
    hide FormBody, SearchDelimiter, RoomBody, EmitFront, BodySim;
    EmitSim(s, k, t, n, c, all, pauses);
  }

  lemma SameRoom(s: Stream, r: Stream, t: string, n: nat, c: Config, all: seq<Part>)
    requires s.phase.InBody? && r.phase.InBody? && BodySim(s, t, n, c, all) && BodySim(r, t, n, c, all)
    requires n - |r.buffer| - |r.current.value.body| == n - |s.buffer| - |s.current.value.body|
    ensures Sim(r, t, n, c, all) && (RoomAhead(s, t, n, c) ==> RoomAhead(r, t, n, c))
  {
    hide FormBody, SearchDelimiter, RoomBody;
  }

  lemma FoundSim(s: Stream, k: nat, isFinal: bool, t: string, n: nat, c: Config, all: seq<Part>, pauses: Pauses)
    requires s.phase.InBody? && BodySim(s, t, n, c, all) && k + |c.Next()| + 2 <= |s.buffer|
    requires var start := n - |s.buffer| - |s.current.value.body|;
             SearchDelimiter(t, c.Next(), start) == Found(n - |s.buffer| + k, isFinal)
    ensures var emitted := EmitFront(s, k, c, pauses);
            && !emitted.phase.Failed? && |emitted.buffer| == |s.buffer| - k
            && Sim(emitted, t, n, c, all) && (RoomAhead(s, t, n, c) ==> RoomAhead(emitted, t, n, c))
            && (emitted.paused ==> Waits(emitted, t, n))
            && var step := CloseBody(emitted, isFinal, c, pauses);
               && Sim(step.next, t, n, c, all) && (!step.again ==> Waits(step.next, t, n))
               && (RoomAhead(s, t, n, c) ==> RoomAhead(step.next, t, n, c))
  {
    hide FormBody, SearchDelimiter, RoomBody, EmitFront, BodySim, CloseBody, Sim, RoomAhead, Config.Next;
    EmitSim(s, k, t, n, c, all, pauses);
    var emitted := EmitFront(s, k, c, pauses);
    CloseSim(emitted, t, n, c, all, pauses);
    SameRoom(s, emitted, t, n, c, all);
  }

  lemma TurnSim(s: Stream, t: string, n: nat, c: Config, all: seq<Part>, pauses: Pauses)
    requires ParseForm(t, c) == Ok(all) && Sim(s, t, n, c, all) && RoomAhead(s, t, n, c)
    ensures var step := Turn(s, c, pauses);
            && Sim(step.next, t, n, c, all) && RoomAhead(step.next, t, n, c)
            && (!step.again ==> Waits(step.next, t, n))
  {
    hide BoundaryTurn, HeadersTurn, BodyTurn, HeadersSim, BodySim, ParseForm, Room, RoomFrom, RoomBody;
    match s.phase
    case FirstBoundary => BoundarySim(s, t, n, c, all, pauses);
    case InHeaders => HeadersSimStep(s, t, n, c, all, pauses);
    case InBody => BodySimStep(s, t, n, c, all, pauses);
    case Done =>
  }

  lemma {:induction false} ParseSim(s: Stream, t: string, n: nat, c: Config, all: seq<Part>, pauses: Pauses)
    requires ParseForm(t, c) == Ok(all) && Sim(s, t, n, c, all) && RoomAhead(s, t, n, c)
    ensures Sim(Parse(s, c, pauses), t, n, c, all) && RoomAhead(Parse(s, c, pauses), t, n, c)
    ensures Waits(Parse(s, c, pauses), t, n)
    decreases |s.buffer|
  {
    hide Turn, Sim, RoomAhead, ParseForm;
    if !s.phase.Failed? && !s.paused {
      TurnSim(s, t, n, c, all, pauses);
      var step := Turn(s, c, pauses);
      if step.again {
        ParseSim(step.next, t, n, c, all, pauses);
      }
    } else {
      SimNotFailed(s, t, n, c, all);
    }
  }

  lemma SimNotFailed(s: Stream, t: string, n: nat, c: Config, all: seq<Part>)
    requires Sim(s, t, n, c, all)
    ensures !s.phase.Failed?
  {
  }

  lemma SimGrows(s: Stream, t: string, n: nat, chunk: string, c: Config, all: seq<Part>)
    requires Sim(s, t, n, c, all) && n + |chunk| <= |t| && t[n..n + |chunk|] == chunk
    requires RoomAhead(s, t, n, c)
    ensures var grown := s.(buffer := s.buffer + chunk, received := s.received + |chunk|);
            Sim(grown, t, n + |chunk|, c, all) && RoomAhead(grown, t, n + |chunk|, c)
  {
    hide FormFrom, FormBody, RoomFrom, RoomBody, SearchDelimiter;
    var at := if |s.buffer| <= n then n - |s.buffer| else 0;
    if !s.phase.Done? {
      assert t[at..n] + chunk == t[at..n + |chunk|];
      assert t[..n] + chunk == t[..n + |chunk|];
    }
  }

  /** The parser itself never touches the received count. */
  lemma {:induction false} ParseKeepsReceived(s: Stream, c: Config, pauses: Pauses)
    ensures Parse(s, c, pauses).received == s.received
    decreases |s.buffer|
  {
    hide Turn;
    if !s.phase.Failed? && !s.paused {
      TurnKeepsReceived(s, c, pauses);
      var step := Turn(s, c, pauses);
      if step.again {
        ParseKeepsReceived(step.next, c, pauses);
      }
    }
  }

  lemma TurnKeepsReceived(s: Stream, c: Config, pauses: Pauses)
    ensures Turn(s, c, pauses).next.received == s.received
  {
    hide Find, SearchDelimiter, ParseHead, Emit, EndPart;
    if s.phase.InBody? {
      match SearchDelimiter(s.buffer, c.Next(), 0)
      case NeedMore(position) => StepsKeepReceived(s, s.buffer[..position], c, pauses);
      case NotFound => StepsKeepReceived(s, s.buffer[..Settled(s, c)], c, pauses);
      case Found(position, _) =>
        StepsKeepReceived(s, s.buffer[..position], c, pauses);
        StepsKeepReceived(EmitFront(s, position, c, pauses), "", c, pauses);
    }
  }

  lemma StepsKeepReceived(s: Stream, data: string, c: Config, pauses: Pauses)
    ensures Emit(s, data, c, pauses).received == s.received && EndPart(s, pauses).received == s.received
    ensures EndPart(s, pauses).buffer == s.buffer
  {
  }

  lemma TotalFits(t: string, c: Config, all: seq<Part>)
    requires ParseForm(t, c) == Ok(all)
    ensures c.limits.maxTotalBytes == 0 || |t| <= c.limits.maxTotalBytes
    ensures 0 < |t|
  {
    hide FormFrom;
  }

  lemma HandleSim(s: Stream, event: Event, t: string, n: nat, c: Config, all: seq<Part>, pauses: Pauses)
    requires ParseForm(t, c) == Ok(all)
    requires Sim(s, t, n, c, all) && RoomAhead(s, t, n, c) && Waits(s, t, n) && s.received == n
    requires event.Data? ==> n + |event.chunk| <= |t| && t[n..n + |event.chunk|] == event.chunk
    ensures var m := n + if event.Data? then |event.chunk| else 0;
            var r := Handle(s, event, c, pauses);
            Sim(r, t, m, c, all) && RoomAhead(r, t, m, c) && Waits(r, t, m) && r.received == m
  {
    hide Parse, ParseForm, Sim, RoomAhead;
    match event
    case Data(chunk) =>
      TotalFits(t, c, all);
      SimGrows(s, t, n, chunk, c, all);
      var grown := s.(buffer := s.buffer + chunk, received := s.received + |chunk|);
      ParseSim(grown, t, n + |chunk|, c, all, pauses);
      ParseKeepsReceived(grown, c, pauses);
    case Pause =>
      PauseIsSim(s, t, n, c, all, true);
    case Resume =>
      if s.paused {
        PauseIsSim(s, t, n, c, all, false);
        ParseSim(s.(paused := false), t, n, c, all, pauses);
        ParseKeepsReceived(s.(paused := false), c, pauses);
      }
  }

  lemma PauseIsSim(s: Stream, t: string, n: nat, c: Config, all: seq<Part>, paused: bool)
    requires Sim(s, t, n, c, all) && RoomAhead(s, t, n, c)
    ensures Sim(s.(paused := paused), t, n, c, all) && RoomAhead(s.(paused := paused), t, n, c)
  {
    hide FormFrom, FormBody, RoomFrom, RoomBody, SearchDelimiter;
  }

  lemma {:induction false} RunSim(
      s: Stream, events: seq<Event>, t: string, n: nat, c: Config, all: seq<Part>, pauses: Pauses)
    requires ParseForm(t, c) == Ok(all)
    requires Sim(s, t, n, c, all) && RoomAhead(s, t, n, c) && Waits(s, t, n) && s.received == n
    requires n <= |t| && DataOf(events) <= t[n..]
    ensures var m := n + |DataOf(events)|;
            var r := Run(s, events, c, pauses);
            m <= |t| && Sim(r, t, m, c, all) && Waits(r, t, m) && r.received == m
    decreases |events|
  {
    hide Handle, Sim, RoomAhead, Waits, ParseForm;
    if events != [] {
      var chunk := if events[0].Data? then events[0].chunk else "";
      var m := n + |chunk|;
      assert DataOf(events) == chunk + DataOf(events[1..]);
      NextPiece(t, n, chunk, DataOf(events[1..]));
      HandleSim(s, events[0], t, n, c, all, pauses);
      RunSim(Handle(s, events[0], c, pauses), events[1..], t, m, c, all, pauses);
    }
  }

  lemma NextPiece(t: string, n: nat, chunk: string, rest: string)
    requires n <= |t| && chunk + rest <= t[n..]
    ensures n + |chunk| <= |t| && t[n..n + |chunk|] == chunk && rest <= t[n + |chunk|..]
  {
    var tail, all := t[n..], chunk + rest;
    assert tail[..|all|] == all;
    assert t[n..n + |chunk|] == tail[..|chunk|] == all[..|chunk|];
    assert t[n + |chunk|..] == tail[|chunk|..];
    assert tail[|chunk|..][..|rest|] == all[|chunk|..];
  }

  /** At every moment of every run over a prefix of an accepted body, whatever the cut and whatever
      pauses, the stream has not failed; parts already ended are a prefix of the form's, and for the open
      part the data emitted plus the bytes retained is exactly what was received of it. */
  lemma StreamFollowsForm(t: string, c: Config, all: seq<Part>, events: seq<Event>, pauses: Pauses)
    requires ParseForm(t, c) == Ok(all) && Room(t, c)
    requires DataOf(events) <= t
    ensures var s := Run(FRESH, events, c, pauses);
            && Sim(s, t, |DataOf(events)|, c, all)
            && !s.phase.Failed?
            && (s.phase.InBody? ==>
                  var n := |DataOf(events)|;
                  var at := n - |s.buffer|;
                  s.current.Some? && 0 <= at - |s.current.value.body| <= n
                  && s.current.value.body + s.buffer == t[at - |s.current.value.body|..n])
  {
    hide Run, ParseForm, Room, FormBody, FormFrom, RoomBody, RoomFrom, SearchDelimiter;
    TotalFits(t, c, all);
    assert t[0..] == t && t[..0] == "";
    RunSim(FRESH, events, t, 0, c, all, pauses);
    var s := Run(FRESH, events, c, pauses);
    if s.phase.InBody? {
      var n := |DataOf(events)|;
      var at := n - |s.buffer|;
      var start := at - |s.current.value.body|;
      assert t[start..at] + t[at..n] == t[start..n];
    }
  }

  /** The refinement: once the whole of an accepted body has arrived, a stream that is not left paused is
      done, with exactly the form's parts; and ending the body then is a success. */
  lemma StreamRefinesForm(t: string, c: Config, all: seq<Part>, events: seq<Event>, pauses: Pauses)
    requires ParseForm(t, c) == Ok(all) && Room(t, c)
    requires DataOf(events) == t
    ensures var s := Run(FRESH, events, c, pauses);
            && !s.phase.Failed?
            && (s.phase.Done? ==> s.parts == all)
            && (!s.paused ==> s.phase.Done?)
            && (s.phase.Done? ==> Finish(s, c, pauses).phase.Done? && Finish(s, c, pauses).parts == all)
            && (!s.phase.Done? ==> Finish(s, c, pauses).phase == Failed(UnexpectedEnd))
  {
    hide Run, ParseForm, Room, HeadersSim, BodySim;
    TotalFits(t, c, all);
    assert t[0..] == t && t[..0] == "";
    RunSim(FRESH, events, t, 0, c, all, pauses);
  }

  // ---------------------------------------------------------------- retention

  /** Whenever parsing stops unpaused inside a body, at most the delimiter and one byte are kept. */
  lemma {:induction false} RetentionBound(s: Stream, c: Config, pauses: Pauses)
    requires !s.paused
    ensures var r := Parse(s, c, pauses);
            r.phase.InBody? && !r.paused ==> |r.buffer| <= |c.Next()| + 1
    decreases |s.buffer|
  {
    hide Turn;
    if !s.phase.Failed? {
      TurnRetains(s, c, pauses);
      var step := Turn(s, c, pauses);
      if step.again && !step.next.paused {
        RetentionBound(step.next, c, pauses);
      }
    }
  }

  /** Little is retained: unpaused inside a body, at most the delimiter and one byte. */
  predicate Lean(s: Stream, c: Config) {
    s.phase.InBody? && !s.paused ==> |s.buffer| <= |c.Next()| + 1
  }

  lemma HandleRetains(s: Stream, event: Event, c: Config, pauses: Pauses)
    requires Lean(s, c)
    ensures Lean(Handle(s, event, c, pauses), c)
  {
    hide Parse;
    match event
    case Data(chunk) =>
      var grown := s.(received := s.received + |chunk|, buffer := s.buffer + chunk);
      if grown.paused {
        PausedParse(grown, c, pauses);
      } else {
        RetentionBound(grown, c, pauses);
      }
    case Pause =>
    case Resume =>
      if s.paused {
        RetentionBound(s.(paused := false), c, pauses);
      }
  }

  lemma PausedParse(s: Stream, c: Config, pauses: Pauses)
    requires s.paused
    ensures Parse(s, c, pauses) == s
  {
  }

  lemma {:induction false} LeanRun(s: Stream, events: seq<Event>, c: Config, pauses: Pauses)
    requires Lean(s, c)
    ensures Lean(Run(s, events, c, pauses), c)
    decreases |events|
  {
    hide Handle, Lean;
    if events != [] {
      HandleRetains(s, events[0], c, pauses);
      LeanRun(Handle(s, events[0], c, pauses), events[1..], c, pauses);
    }
  }

  /** In every run over any bytes, cut and paused in any way: an unpaused stream inside a body keeps at most the
      delimiter and one byte. */
  lemma RunRetains(events: seq<Event>, c: Config, pauses: Pauses)
    ensures var s := Run(FRESH, events, c, pauses);
            s.phase.InBody? && !s.paused ==> |s.buffer| <= |c.Next()| + 1
  {
    hide Run;
    LeanRun(FRESH, events, c, pauses);
  }

  lemma TurnRetains(s: Stream, c: Config, pauses: Pauses)
    requires !s.paused
    ensures var step := Turn(s, c, pauses);
            !step.again && step.next.phase.InBody? && !step.next.paused ==> |step.next.buffer| <= |c.Next()| + 1
  {
    hide Find, SearchDelimiter, ParseHead, Emit;
    if s.phase.InBody? {
      SearchMeaning(s.buffer, c.Next(), 0);
      EmitPhase(s, s.buffer[..Settled(s, c)], c, pauses);
    }
  }

  lemma EmitPhase(s: Stream, data: string, c: Config, pauses: Pauses)
    ensures Emit(s, data, c, pauses).phase.Failed? || Emit(s, data, c, pauses).phase == s.phase
  {
  }

  // ---------------------------------------------------------------- where the header limits differ

  /** Three bytes short of the end of the first header block that leaves no room. */
  function CrowdPoint(t: string, offset: nat, c: Config): (k: nat)
    requires !RoomFrom(t, offset, c)
    ensures offset + 3 <= k <= |t|
    decreases |t| - offset
  {
    var end := Find(t, BLANK_LINE, offset).value;
    if c.limits.maxPartHeaderBytes < end - offset + 3 then end + 3
    else
      assert !RoomBody(t, end + 4, c);
      CrowdPoint(t, SearchDelimiter(t, c.Next(), end + 4).position + |c.Next()| + 2, c)
  }

  const NEVER: Pauses := (n: nat) => false

  lemma NeverPauses(s: Stream, data: string, block: string, isFinal: bool, c: Config)
    requires !s.paused
    ensures !Emit(s, data, c, NEVER).paused && !OpenPart(s, block, c, NEVER).paused
    ensures |c.Next()| + 2 <= |s.buffer| ==> !CloseBody(s, isFinal, c, NEVER).next.paused
  {
    hide ParseHead;
  }

  /** All of the next part's headers are buffered: the stream gets to its body. */
  lemma IntoBody(s: Stream, t: string, n: nat, c: Config, all: seq<Part>, end: nat) returns (r: Stream)
    requires s.phase.InHeaders? && !s.paused && HeadersSim(s, t, n, c, all)
    requires Find(t, BLANK_LINE, n - |s.buffer|) == Some(end) && end + 4 <= n
    ensures r.phase.InBody? && !r.paused && BodySim(r, t, n, c, all) && n - |r.buffer| == end + 4
    ensures r.current.Some? && r.current.value.body == "" && Parse(s, c, NEVER) == Parse(r, c, NEVER)
  {
    hide Find, SearchDelimiter, ParseHead, FormFrom, FormBody, OpenPart, HeadersSim, BodySim;
    HeadersBuffer(s, t, n, c, all);
    var at := n - |s.buffer|;
    HeadersTake(s, t, n, c, all, end, NEVER);
    FindInWindow(t, at, n, BLANK_LINE, 0);
    NeverPauses(Consume(s, end + 4 - at), "", s.buffer[..end - at], false, c);
    r := HeadersTurn(s, c, NEVER).next;
    ParseTurn(s, c, NEVER);
  }

  lemma HeadersBuffer(s: Stream, t: string, n: nat, c: Config, all: seq<Part>)
    requires HeadersSim(s, t, n, c, all)
    ensures n <= |t| && |s.buffer| <= n && s.buffer == t[n - |s.buffer|..n]
  {
    hide FormFrom;
  }

  lemma BodyBuffer(s: Stream, t: string, n: nat, c: Config, all: seq<Part>)
    requires BodySim(s, t, n, c, all)
    ensures n <= |t| && |s.buffer| <= n && s.buffer == t[n - |s.buffer|..n] && s.current.Some?
  {
    hide FormBody, SearchDelimiter;
  }

  /** All of the next part's body is buffered: the stream gets to the following part's headers. */
  lemma OutOfBody(s: Stream, t: string, n: nat, c: Config, all: seq<Part>, p: nat) returns (r: Stream)
    requires s.phase.InBody? && !s.paused && BodySim(s, t, n, c, all)
    requires s.current.Some? && s.current.value.body == ""
    requires n - |s.buffer| <= |t| && SearchDelimiter(t, c.Next(), n - |s.buffer|) == Found(p, false)
    requires p + |c.Next()| + 2 <= n
    ensures r.phase.InHeaders? && !r.paused && HeadersSim(r, t, n, c, all)
    ensures Parse(s, c, NEVER) == Parse(r, c, NEVER) && n - |r.buffer| == p + |c.Next()| + 2
  {
    hide Find, SearchDelimiter, FormFrom, FormBody, Emit, CloseBody, HeadersSim, BodySim;
    BodyBuffer(s, t, n, c, all);
    var at := n - |s.buffer|;
    SearchInWindow(t, at, n, c.Next(), at, p);
    var q := p - at;
    EmitSim(s, q, t, n, c, all, NEVER);
    NeverPauses(s, s.buffer[..q], "", false, c);
    var emitted := EmitFront(s, q, c, NEVER);
    CloseSim(emitted, t, n, c, all, NEVER);
    NeverPauses(emitted, "", "", false, c);
    r := CloseBody(emitted, false, c, NEVER).next;
    assert Turn(s, c, NEVER) == Step(r, true);
    ParseTurn(s, c, NEVER);
  }

  /** All of the next part is buffered: the stream gets to the following part's headers. */
  lemma WholePart(s: Stream, t: string, n: nat, c: Config, all: seq<Part>, end: nat, p: nat) returns (r: Stream)
    requires s.phase.InHeaders? && !s.paused && HeadersSim(s, t, n, c, all)
    requires Find(t, BLANK_LINE, n - |s.buffer|) == Some(end) && end + 4 <= |t|
    requires SearchDelimiter(t, c.Next(), end + 4) == Found(p, false) && p + |c.Next()| + 2 <= n
    ensures r.phase.InHeaders? && !r.paused && HeadersSim(r, t, n, c, all)
    ensures Parse(s, c, NEVER) == Parse(r, c, NEVER) && n - |r.buffer| == p + |c.Next()| + 2
  {
    hide Find, SearchDelimiter, HeadersSim, BodySim, Parse, Config.Next;
    var entered := IntoBody(s, t, n, c, all, end);
    r := OutOfBody(entered, t, n, c, all, p);
  }

  lemma {:induction false} CrowdedFails(s: Stream, t: string, n: nat, c: Config, all: seq<Part>)
    requires |s.buffer| <= n <= |t| && !RoomFrom(t, n - |s.buffer|, c) && n == CrowdPoint(t, n - |s.buffer|, c)
    requires s.phase.InHeaders? && !s.paused && HeadersSim(s, t, n, c, all)
    ensures Parse(s, c, NEVER).phase == Failed(LimitExceeded) && !Parse(s, c, NEVER).paused
    decreases |s.buffer|
  {
    hide Find, SearchDelimiter, ParseHead, FormFrom, FormBody, BodyTurn;
    var at := n - |s.buffer|;
    var end := Find(t, BLANK_LINE, at).value;
    if c.limits.maxPartHeaderBytes < end - at + 3 {
      FindInWindow(t, at, n, BLANK_LINE, 0);
    } else {
      var p := SearchDelimiter(t, c.Next(), end + 4).position;
      var r := WholePart(s, t, n, c, all, end, p);
      CrowdedFails(r, t, n, c, all);
    }
  }

  /** The stream gets past the first boundary of an accepted body. */
  lemma EntersHeaders(t: string, n: nat, c: Config, all: seq<Part>)
    requires ParseForm(t, c) == Ok(all) && PairAt(t, |c.First()|, CRLF) && |c.First()| + 2 <= n <= |t|
    ensures var grown := FRESH.(buffer := t[..n], received := n);
            var entered := grown.(buffer := t[|c.First()| + 2..n], phase := InHeaders);
            Parse(grown, c, NEVER) == Parse(entered, c, NEVER) && HeadersSim(entered, t, n, c, all)
  {
    hide FormFrom, Parse;
    var after := |c.First()|;
    PairInPrefix(t, n, after, DASHES);
    PairInPrefix(t, n, after, CRLF);
    assert t[..n][..after] == t[..after] && t[..n][after + 2..] == t[after + 2..n];
    var grown := FRESH.(buffer := t[..n], received := n);
    var entered := grown.(buffer := t[after + 2..n], phase := InHeaders);
    assert PairAt(t, after, CRLF) && !PairAt(t, after, DASHES);
    assert BoundaryTurn(grown, c, NEVER) == Step(entered, true);
    hide PairAt, BoundaryTurn;
    ParseTurn(grown, c, NEVER);
  }

  lemma ParseTurn(s: Stream, c: Config, pauses: Pauses)
    requires !s.phase.Failed? && !s.paused && Turn(s, c, pauses).again
    ensures Parse(s, c, pauses) == Parse(Turn(s, c, pauses).next, c, pauses)
  {
    hide Turn;
  }

  /** An accepted body with a header block within three bytes of the limit: cutting it just before the
      end of that block's blank line makes the stream fail. */
  lemma CrowdedBreaks(t: string, c: Config, all: seq<Part>) returns (events: seq<Event>)
    requires ParseForm(t, c) == Ok(all) && !Room(t, c)
    ensures DataOf(events) == t
    ensures Run(FRESH, events, c, NEVER).phase == Failed(LimitExceeded) && !Run(FRESH, events, c, NEVER).paused
  {
    hide RoomFrom, CrowdPoint, Parse, ParseForm, HeadersSim, PairAt;
    var start := |c.First()| + 2;
    var n := CrowdPoint(t, start, c);
    events := [Data(t[..n]), Data(t[n..])];
    TotalFits(t, c, all);
    EntersHeaders(t, n, c, all);
    CrowdedFails(FRESH.(received := n, buffer := t[start..n], phase := InHeaders), t, n, c, all);
    TwoReads(t, n, c);
    StaysFailed(Parse(FRESH.(buffer := t[..n], received := n), c, NEVER), Data(t[n..]), c, NEVER);
  }

  /** A body in two reads, the first of which is within the total limit. */
  lemma TwoReads(t: string, n: nat, c: Config)
    requires n <= |t| && (c.limits.maxTotalBytes == 0 || n <= c.limits.maxTotalBytes)
    ensures var events := [Data(t[..n]), Data(t[n..])];
            var first := Parse(FRESH.(buffer := t[..n], received := n), c, NEVER);
            && DataOf(events) == t
            && Run(FRESH, events, c, NEVER) == Handle(first, Data(t[n..]), c, NEVER)
  {
    hide Parse, Handle;
    var events := [Data(t[..n]), Data(t[n..])];
    assert events[1..] == [Data(t[n..])] && events[1..][1..] == [];
    assert DataOf(events[1..]) == t[n..] + "";
    assert t[..n] + (t[n..] + "") == t;
    FirstRead(t, n, c);
    hide DataOf;
    var first := Handle(FRESH, Data(t[..n]), c, NEVER);
    assert Run(FRESH, events, c, NEVER) == Run(first, events[1..], c, NEVER);
    assert Run(first, events[1..], c, NEVER) == Run(Handle(first, Data(t[n..]), c, NEVER), [], c, NEVER);
  }

  lemma FirstRead(t: string, n: nat, c: Config)
    requires n <= |t| && (c.limits.maxTotalBytes == 0 || n <= c.limits.maxTotalBytes)
    ensures Handle(FRESH, Data(t[..n]), c, NEVER) == Parse(FRESH.(buffer := t[..n], received := n), c, NEVER)
  {
    hide Parse;
    assert FRESH.buffer + t[..n] == t[..n];
  }

  lemma StaysFailed(s: Stream, event: Event, c: Config, pauses: Pauses)
    requires s.phase.Failed? && event.Data?
    ensures Handle(s, event, c, pauses).phase == s.phase && Handle(s, event, c, pauses).paused == s.paused
  {
  }

  /** For an accepted body: every run that delivers it, unpaused at the end, gives the form's parts
      exactly when every header block is at least three bytes under the limit. */
  lemma StreamingExact(t: string, c: Config, all: seq<Part>)
    requires ParseForm(t, c) == Ok(all)
    ensures Room(t, c) <==>
            forall events, pauses: Pauses :: DataOf(events) == t && !Run(FRESH, events, c, pauses).paused ==>
              Run(FRESH, events, c, pauses).phase.Done? && Run(FRESH, events, c, pauses).parts == all
  {
    hide ParseForm, Room, Run, DataOf;
    if Room(t, c) {
      forall events, pauses: Pauses | DataOf(events) == t && !Run(FRESH, events, c, pauses).paused
        ensures Run(FRESH, events, c, pauses).phase.Done? && Run(FRESH, events, c, pauses).parts == all
      {
        StreamRefinesForm(t, c, all, events, pauses);
      }
    } else {
      var events := CrowdedBreaks(t, c, all);
      assert DataOf(events) == t && !Run(FRESH, events, c, NEVER).paused;
    }
  }
}
