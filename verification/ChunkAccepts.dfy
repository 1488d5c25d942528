/** The other half of chunk decoding in pieces: what the two incremental decoders end with is what the one-shot
    decoder makes of the bytes they saw. */
module ChunkAccepts {
  import opened Text
  import opened Chunked
  import opened ChunkCoding
  import opened ChunkStreaming

  /** From every later point on, decoding from the start is decoding from `at` behind what was delivered. */
  ghost predicate DecodedTo(t: string, at: nat, delivered: string) {
    forall m :: at <= m <= |t| ==> Decode(t[..m], 0) == Prepend(delivered, Decode(t[..m], at))
  }

  /** The streaming state after the first `n` bytes of `t`. */
  ghost predicate Trace(s: BodyState, t: string, n: nat, limit: nat) {
    && |s.delivered| <= limit
    && match s.status
       case Running =>
         && |s.buffer| <= n <= |t| && s.buffer == t[n - |s.buffer|..n]
         && DecodedTo(t, n - |s.buffer|, s.delivered)
       case Complete => exists m :: 0 <= m <= |t| && Decode(t[..m], 0) == Decoded(s.delivered)
       case Malformed => exists m :: 0 <= m <= |t| && Decode(t[..m], 0) in {SizeInvalid, NotTerminated}
       case LimitExceeded => Overruns(t, limit)
       case Thrown => exists m :: 0 <= m <= |t| && Decode(t[..m], 0) == OutOfRange
  }

  /** Whatever follows the first `n` bytes, the body is over the limit. */
  ghost predicate OverFrom(t: string, n: nat, limit: nat) {
    forall m :: n <= m <= |t| && Decode(t[..m], 0).Decoded? ==> |Decode(t[..m], 0).body| > limit
  }

  ghost predicate Overruns(t: string, limit: nat) {
    exists n: nat :: n <= |t| && OverFrom(t, n, limit)
  }

  /** Reading at an offset of a text is reading the rest of it. */
  lemma ReadInText(t: string, at: nat, m: nat)
    requires at <= m <= |t|
    ensures ReadChunk(t[..m], at) ==
            match ReadChunk(t[at..m], 0)
            case Chunk(data, size) => Chunk(data + at, size)
            case stop => stop
  {
    hide ReadChunk;
    assert t[..m][at..] == t[at..m];
    ReadChunkShift(t[..m], at, 0);
  }

  lemma DecodeStop(t: string, at: nat)
    requires at <= |t| && ReadChunk(t, at).Stop?
    ensures Decode(t, at) == ReadChunk(t, at).outcome
  {
    hide ReadChunk;
  }

  lemma PrependStop(delivered: string, d: Decoding)
    ensures !d.Decoded? ==> Prepend(delivered, d) == d
    ensures d == Decoded("") ==> Prepend(delivered, d) == Decoded(delivered)
  {
    assert delivered + "" == delivered;
  }

  /** The chunk in the buffer, or why the one-shot decoder stops at the end of the buffer. */
  lemma StopsHere(s: BodyState, t: string, n: nat, limit: nat)
    requires s.status.Running? && Trace(s, t, n, limit)
    requires ReadChunk(s.buffer, 0).Stop?
    ensures Decode(t[..n], 0) == Prepend(s.delivered, ReadChunk(s.buffer, 0).outcome)
  {
    hide ReadChunk, Decode;
    var at := n - |s.buffer|;
    ReadInText(t, at, n);
    DecodeStop(t[..n], at);
  }

  /** The size line in the buffer decides the chunk: its bytes are not needed for the size to count. */
  lemma SizeAhead(t: string, at: nat, n: nat, m: nat, size: nat, data: nat)
    requires at <= n <= m <= |t| && ReadSizeLine(t[at..n], 0) == Size(size, data) && size > 0
    ensures var chunk := ReadChunk(t[..m], at);
            if chunk.Chunk? then chunk.size == size else !chunk.outcome.Decoded?
  {
    hide ReadSizeLine, Slice;
    assert t[..m][at..] == t[at..m] && t[at..m][0..n - at] == t[at..n];
    ReadSizeLineShift(t[..m], at, 0);
    LongerSizeLine(t[at..m], n - at);
  }

  lemma LongerSizeLine(s: string, n: nat)
    requires n <= |s| && ReadSizeLine(s[0..n], 0).Size?
    ensures ReadSizeLine(s, 0) == ReadSizeLine(s[0..n], 0)
  {
    hide Find, BeforeExtension;
    FindInWindow(s, 0, n, CRLF, 0);
    var end := Find(s[0..n], CRLF, 0).value;
    assert s[0..n][0..end] == s[0..end];
  }

  /** A chunk past the limit: whatever follows, the body is longer than the limit. */
  lemma PastLimit(s: BodyState, t: string, n: nat, limit: nat, size: nat, data: nat)
    requires s.status.Running? && Trace(s, t, n, limit)
    requires ReadSizeLine(s.buffer, 0) == Size(size, data) && size > 0 && |s.delivered| + size > limit
    ensures Overruns(t, limit)
  {
    hide ReadSizeLine, ReadChunk, Decode;
    var at := n - |s.buffer|;
    forall m | n <= m <= |t| && Decode(t[..m], 0).Decoded? ensures |Decode(t[..m], 0).body| > limit {
      SizeAhead(t, at, n, m, size, data);
      DecodeUnfold(t[..m], at);
    }
    assert OverFrom(t, n, limit);
  }

  /** The last chunk: complete where the stream drops it, else trailers are missing. */
  lemma LastTrace(s: BodyState, t: string, n: nat, limit: nat, data: nat)
    requires s.status.Running? && Trace(s, t, n, limit)
    requires ReadSizeLine(s.buffer, 0) == Size(0, data)
    ensures Trace(Turn(s, limit), t, n, limit)
    ensures Turn(s, limit) == s ==> Decode(t[..n], 0) == TrailersIncomplete
  {
    hide ReadSizeLine, ReadChunk, Decode, Find, Slice;
    var blank := Find(s.buffer, BLANK_LINE, data);
    SliceFits(s.buffer, data);
    if Slice(s.buffer, data, 2) == CRLF {
      LastSeen(s, t, n, limit, data, data + 2);
    } else if blank.Some? {
      LastSeen(s, t, n, limit, data, blank.value + 4);
    } else {
      NoTrailers(s.buffer, data);
      StopsHere(s, t, n, limit);
      PrependStop(s.delivered, TrailersIncomplete);
    }
  }

  lemma LastSeen(s: BodyState, t: string, n: nat, limit: nat, data: nat, end: nat)
    requires s.status.Running? && Trace(s, t, n, limit)
    requires ReadSizeLine(s.buffer, 0) == Size(0, data) && data <= end <= |s.buffer|
    requires if Slice(s.buffer, data, 2) == CRLF then end == data + 2
             else Find(s.buffer, BLANK_LINE, data).Some? && end == Find(s.buffer, BLANK_LINE, data).value + 4
    ensures exists m :: 0 <= m <= |t| && Decode(t[..m], 0) == Decoded(s.delivered)
  {
    hide ReadSizeLine, ReadChunk, Decode, Find, Slice;
    var at := n - |s.buffer|;
    var m := at + end;
    DropLast(s.buffer, data, end);
    assert t[at..m] == s.buffer[..end];
    LastInText(t, at, m, data);
    PrependStop(s.delivered, Decoded(""));
    assert Decode(t[..m], 0) == Decoded(s.delivered);
  }

  lemma SliceFits(s: string, data: nat)
    requires data <= |s|
    ensures Slice(s, data, 2) == CRLF ==> data + 2 <= |s|
  {
  }

  /** Cut behind its end, the last chunk decodes to nothing. */
  lemma DropLast(s: string, data: nat, end: nat)
    requires ReadSizeLine(s, 0) == Size(0, data) && data <= end <= |s|
    requires if Slice(s, data, 2) == CRLF then end == data + 2
             else Find(s, BLANK_LINE, data).Some? && end == Find(s, BLANK_LINE, data).value + 4
    ensures ReadChunk(s[..end], 0) == Stop(Decoded(""))
  {
    hide Find, ReadSizeLine;
    assert s[0..end] == s[..end];
    SizeLineInPrefix(s, end, 0);
    FindInWindow(s, 0, end, BLANK_LINE, data);
    if Slice(s, data, 2) == CRLF {
      assert s[..end][data..data + 2] == s[data..data + 2];
    } else {
      assert Slice(s[..end], data, 2) == Slice(s, data, 2);
    }
  }

  lemma LastInText(t: string, at: nat, m: nat, data: nat)
    requires at <= m <= |t| && ReadChunk(t[at..m], 0) == Stop(Decoded(""))
    ensures Decode(t[..m], at) == Decoded("")
  {
    hide ReadChunk, Decode;
    ReadInText(t, at, m);
    DecodeStop(t[..m], at);
  }

  lemma NoTrailers(s: string, data: nat)
    requires ReadSizeLine(s, 0) == Size(0, data) && Slice(s, data, 2) != CRLF && Find(s, BLANK_LINE, data).None?
    ensures ReadChunk(s, 0) == Stop(TrailersIncomplete)
  {
    hide Find, ReadSizeLine, Slice;
  }

  lemma TakenTrace(s: BodyState, t: string, n: nat, limit: nat, size: nat, data: nat)
    requires s.status.Running? && Trace(s, t, n, limit)
    requires ReadChunk(s.buffer, 0) == Chunk(data, size) && |s.delivered| + size <= limit
    ensures var next := BodyState(s.buffer[data + size + 2..], s.delivered + s.buffer[data..data + size], Running);
            Trace(next, t, n, limit)
  {
    hide ReadChunk, Decode;
    var at := n - |s.buffer|;
    var chunk, to := s.buffer[data..data + size], at + data + size + 2;
    SliceOfWindow(t, at, n, data, data + size);
    SliceOfWindow(t, at, n, data + size + 2, n - at);
    assert chunk == t[at + data..at + data + size] && s.buffer[data + size + 2..] == t[to..n];
    forall m | to <= m <= |t| ensures Decode(t[..m], 0) == Prepend(s.delivered + chunk, Decode(t[..m], to)) {
      ChunkInText(t, at, n, m, data, size);
      DecodeUnfold(t[..m], at);
      assert t[..m] == t[0..m];
      SliceOfWindow(t, 0, m, at + data, at + data + size);
      PrependTwice(s.delivered, chunk, Decode(t[..m], to));
    }
  }

  /** A whole chunk is the same chunk in every text that goes on behind it. */
  lemma ChunkInText(t: string, at: nat, n: nat, m: nat, data: nat, size: nat)
    requires at <= n <= |t| && at <= m <= |t| && ReadChunk(t[at..n], 0) == Chunk(data, size)
    requires at + data + size + 2 <= m
    ensures ReadChunk(t[..m], at) == Chunk(at + data, size)
  {
    hide ReadSizeLine, Slice;
    var end := at + data + size + 2;
    assert t[..m][at..] == t[at..m];
    ReadSizeLineShift(t[..m], at, 0);
    SameSizeLine(t, at, n, m);
    SliceAt(t[at..n], data + size);
    SliceAt(t[..m], end - 2);
    SliceOfWindow(t, at, n, data + size, data + size + 2);
    assert t[..m] == t[0..m];
    SliceOfWindow(t, 0, m, end - 2, end);
  }

  lemma SliceAt(s: string, offset: nat)
    requires offset + 2 <= |s|
    ensures Slice(s, offset, 2) == s[offset..offset + 2]
  {
  }

  /** A size line that both windows hold is the same in both. */
  lemma SameSizeLine(t: string, at: nat, n: nat, m: nat)
    requires at <= n <= |t| && at <= m <= |t| && ReadSizeLine(t[at..n], 0).Size?
    requires at + ReadSizeLine(t[at..n], 0).data <= m
    ensures ReadSizeLine(t[at..m], 0) == ReadSizeLine(t[at..n], 0)
  {
    hide ReadSizeLine;
    var whole := t[at..if n <= m then m else n];
    assert whole[0..n - at] == t[at..n] && whole[..m - at] == t[at..m];
    LongerSizeLine(whole, n - at);
    SizeLineInPrefix(whole, m - at, 0);
  }

  lemma TurnTrace(s: BodyState, t: string, n: nat, limit: nat)
    requires s.status.Running? && Trace(s, t, n, limit)
    ensures Trace(Turn(s, limit), t, n, limit)
    ensures Turn(s, limit) == s ==> Incomplete(Decode(t[..n], 0))
  {
    hide ReadSizeLine, Decode, Slice, Find, Trace;
    var line := ReadSizeLine(s.buffer, 0);
    if line.Size? && line.size == 0 {
      LastTrace(s, t, n, limit, line.data);
    } else if ReadChunk(s.buffer, 0).Stop? {
      StopsHere(s, t, n, limit);
      PrependStop(s.delivered, ReadChunk(s.buffer, 0).outcome);
      if line.Size? && |s.delivered| + line.size > limit {
        PastLimit(s, t, n, limit, line.size, line.data);
      }
      TurnStops(s, t, n, limit);
    } else if |s.delivered| + line.size > limit {
      PastLimit(s, t, n, limit, line.size, line.data);
      TurnOver(s, t, n, limit);
    } else {
      TakenTrace(s, t, n, limit, line.size, line.data);
    }
  }

  lemma TurnOver(s: BodyState, t: string, n: nat, limit: nat)
    requires s.status.Running? && Trace(s, t, n, limit) && Overruns(t, limit)
    requires ReadChunk(s.buffer, 0).Chunk? && |s.delivered| + ReadChunk(s.buffer, 0).size > limit
    ensures Trace(Turn(s, limit), t, n, limit) && Turn(s, limit) != s
  {
    hide ReadSizeLine, Decode, Slice, Find, Overruns;
  }

  lemma TurnStops(s: BodyState, t: string, n: nat, limit: nat)
    requires s.status.Running? && Trace(s, t, n, limit)
    requires ReadChunk(s.buffer, 0).Stop? && Decode(t[..n], 0) == Prepend(s.delivered, ReadChunk(s.buffer, 0).outcome)
    requires var line := ReadSizeLine(s.buffer, 0);
             line.Size? ==> line.size > 0 && (|s.delivered| + line.size > limit ==> Overruns(t, limit))
    ensures Trace(Turn(s, limit), t, n, limit)
    ensures Turn(s, limit) == s ==> Incomplete(Decode(t[..n], 0))
  {
    hide ReadSizeLine, Decode, Slice, Find, Overruns;
  }

  lemma {:induction false} PumpTrace(s: BodyState, t: string, n: nat, limit: nat)
    requires Trace(s, t, n, limit)
    ensures var r := Pump(s, limit);
            Trace(r, t, n, limit) && (r.status.Running? ==> Incomplete(Decode(t[..n], 0)))
    decreases |s.buffer|
  {
    hide Turn, Trace, Decode, Incomplete;
    if s.status.Running? {
      TurnTrace(s, t, n, limit);
      if Turn(s, limit) != s && Turn(s, limit).status.Running? {
        PumpTrace(Turn(s, limit), t, n, limit);
      }
    }
  }

  lemma TraceGrows(s: BodyState, t: string, n: nat, bytes: string, limit: nat)
    requires s.status.Running? && Trace(s, t, n, limit) && n + |bytes| <= |t| && t[n..n + |bytes|] == bytes
    ensures Trace(s.(buffer := s.buffer + bytes), t, n + |bytes|, limit)
  {
    hide DecodedTo;
    assert t[n - |s.buffer|..n] + bytes == t[n - |s.buffer|..n + |bytes|];
  }

  lemma {:induction false} FeedTrace(s: BodyState, cuts: seq<string>, t: string, n: nat, limit: nat)
    requires Trace(s, t, n, limit) && n <= |t| && t[n..] == Concat(cuts)
    requires s.status.Running? ==> Incomplete(Decode(t[..n], 0))
    ensures var r := Feed(s, cuts, limit);
            Trace(r, t, |t|, limit) && (r.status.Running? ==> Incomplete(Decode(t, 0)))
    decreases |cuts|
  {
    hide Pump, Decode, Incomplete, Overruns, DecodedTo;
    if cuts == [] {
      assert t[..n] == t && n == |t|;
    } else {
      var m := n + |cuts[0]|;
      assert t[n..][..|cuts[0]|] == cuts[0] && t[n..][|cuts[0]|..] == Concat(cuts[1..]);
      assert t[n..m] == cuts[0] && t[m..] == Concat(cuts[1..]);
      if s.status.Running? {
        TraceGrows(s, t, n, cuts[0], limit);
        PumpTrace(s.(buffer := s.buffer + cuts[0]), t, m, limit);
      }
      FeedTrace(OnRead(s, cuts[0], limit), cuts[1..], t, m, limit);
    }
  }

  /** Over any bytes and cuts: the streaming decoder never delivers more than the limit; a complete body is what
      the one-shot decoder reads up to some point; it reports a malformed body, or throws, only where the one-shot
      decoder does so on some prefix, and the limit only when every body that may still follow is over it; and it
      waits only while bytes are missing. */
  lemma StreamingIsDecoding(cuts: seq<string>, limit: nat)
    ensures var s, t := Feed(FRESH_BODY, cuts, limit), Concat(cuts);
            && |s.delivered| <= limit
            && match s.status
               case Running => Incomplete(Decode(t, 0))
               case Complete => exists m :: 0 <= m <= |t| && Decode(t[..m], 0) == Decoded(s.delivered)
               case Malformed => exists m :: 0 <= m <= |t| && Decode(t[..m], 0) in {SizeInvalid, NotTerminated}
               case LimitExceeded => Overruns(t, limit)
               case Thrown => exists m :: 0 <= m <= |t| && Decode(t[..m], 0) == OutOfRange
  {
    hide Feed, Decode, Concat, Overruns;
    var t := Concat(cuts);
    assert t[0..] == t && t[..0] == "" && t[0..0] == "";
    forall m | 0 <= m <= |t| ensures Decode(t[..m], 0) == Prepend("", Decode(t[..m], 0)) {
      PrependNothing(Decode(t[..m], 0));
    }
    DecodeNothing();
    FeedTrace(FRESH_BODY, cuts, t, 0, limit);
  }

  lemma DecodeNothing()
    ensures Decode("", 0) == SizeLineIncomplete
  {
    assert Find("", CRLF, 0).None?;
  }

  // ---------------------------------------------------------------- retrying

  /** What the buffered client may have made of `t`. */
  ghost predicate RetryTrace(r: Retry, t: string, limit: nat) {
    match r
    case Waiting(received) => received == t && Incomplete(Decode(t, 0))
    case Response(body) => |body| <= limit && exists m :: 0 <= m <= |t| && Decode(t[..m], 0) == Decoded(body)
    case OverLimit => exists m :: 0 <= m <= |t| && Decode(t[..m], 0).Decoded? && |Decode(t[..m], 0).body| > limit
    case Rejected =>
      exists m :: 0 <= m <= |t| && Decode(t[..m], 0) in {SizeInvalid, NotTerminated, UnexpectedBytes, OutOfRange}
  }

  lemma RetryEnds(before: string, bytes: string, t: string, limit: nat)
    requires before + bytes <= t && !Incomplete(Decode(before + bytes, 0))
    ensures var r := RetryOnRead(Waiting(before), bytes, limit); !r.Waiting? && RetryTrace(r, t, limit)
  {
    hide Decode;
    var now := before + bytes;
    assert t[..|now|] == now;
    assert Decode(t[..|now|], 0) == Decode(now, 0);
  }

  /** The buffered client waits exactly with everything received while bytes are missing, and every other outcome
      is that of the one-shot decoder on the bytes of some read. */
  lemma {:induction false} RetryIsDecoding(before: string, cuts: seq<string>, limit: nat)
    requires Incomplete(Decode(before, 0))
    ensures RetryTrace(RetryFeed(Waiting(before), cuts, limit), before + Concat(cuts), limit)
    decreases |cuts|
  {
    var t := before + Concat(cuts);
    if cuts == [] {
      assert t == before;
    } else {
      var now := before + cuts[0];
      var next := RetryOnRead(Waiting(before), cuts[0], limit);
      assert t == now + Concat(cuts[1..]);
      if Incomplete(Decode(now, 0)) {
        RetryIsDecoding(now, cuts[1..], limit);
      } else {
        hide Decode, RetryTrace, RetryOnRead;
        RetryEnds(before, cuts[0], t, limit);
        RetryStays(next, cuts[1..], limit);
      }
    }
  }
}
