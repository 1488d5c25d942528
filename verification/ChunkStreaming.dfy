/** The two incremental forms of the chunked decoder, streaming and retrying from scratch, against the
    one-shot decoder on every cut of a body. */
module ChunkStreaming {
  import opened Text
  import opened Chunked
  import opened ChunkCoding

  /** No chunk size in `encoded[offset..]` makes `size + 2` wrap around. */
  predicate NoWrap(encoded: string, offset: nat)
    requires offset <= |encoded|
    decreases |encoded| - offset
  {
    match ReadChunk(encoded, offset)
    case Stop(_) => true
    case Chunk(data, size) => size < WORD - 2 && NoWrap(encoded, data + size + 2)
  }

  /** The streaming state after the bytes `encoded[..n]`, stopped at a chunk boundary. */
  ghost predicate InStep(s: BodyState, encoded: string, n: nat, body: string) {
    n <= |encoded| &&
    match s.status
    case Complete => s.delivered == body
    case Running =>
      && |s.buffer| <= n
      && s.buffer == encoded[n - |s.buffer|..n]
      && Decode(encoded, n - |s.buffer|).Decoded?
      && s.delivered + Decode(encoded, n - |s.buffer|).body == body
    case _ => false
  }

  lemma SizeLineInWindow(t: string, c: nat, n: nat)
    requires c <= n <= |t|
    ensures match ReadSizeLine(t, c)
            case Size(size, data) =>
              ReadSizeLine(t[c..n], 0) == if data <= n then Size(size, data - c) else NoLine
            case _ => true
  {
    FindInWindow(t, c, n, CRLF, 0);
    var whole := Find(t, CRLF, c);
    if whole.Some? && whole.value + 2 <= n {
      assert t[c..n][0..whole.value - c] == t[c..whole.value];
    }
  }

  /** What a window shows of a slice that begins in it. */
  lemma SliceInside(s: string, c: nat, n: nat, offset: nat)
    requires c <= offset <= n <= |s|
    ensures Slice(s[c..n], offset - c, 2) == s[offset..if offset + 2 <= n then offset + 2 else n]
  {
    SliceOfWindow(s, c, n, offset - c, if offset + 2 <= n then offset - c + 2 else n - c);
  }

  lemma WholeSlice(s: string, offset: nat)
    requires offset + 2 <= |s|
    ensures Slice(s, offset, 2) == s[offset..offset + 2]
  {
  }

  lemma TurnOnLast(s: BodyState, encoded: string, n: nat, body: string, limit: nat)
    requires s.status.Running? && InStep(s, encoded, n, body)
    requires ReadChunk(encoded, n - |s.buffer|).Stop?
    ensures InStep(Turn(s, limit), encoded, n, body)
    ensures Turn(s, limit) == s || Turn(s, limit).status.Complete?
    ensures Turn(s, limit) == s ==> n < |encoded|
  {
    hide ReadSizeLine, Find, Slice;
    var c := n - |s.buffer|;
    SizeLineInWindow(encoded, c, n);
    var Size(size, data) := ReadSizeLine(encoded, c);
    if data <= n {
      FindInWindow(encoded, c, n, BLANK_LINE, data - c);
      if n == |encoded| {
        assert s.buffer == encoded[c..];
        SliceInSuffix(encoded, c, data);
      }
      SliceInside(encoded, c, n, data);
      if data + 2 <= n {
        WholeSlice(encoded, data);
      }
    }
  }

  lemma ChunkFacts(encoded: string, offset: nat)
    requires offset <= |encoded| && ReadChunk(encoded, offset).Chunk?
    ensures var chunk := ReadChunk(encoded, offset);
            && ReadSizeLine(encoded, offset) == Size(chunk.size, chunk.data)
            && encoded[chunk.data + chunk.size..chunk.data + chunk.size + 2] == CRLF
  {
    hide ReadSizeLine;
  }

  lemma TurnTakes(s: BodyState, limit: nat, size: nat, data: nat)
    requires s.status.Running? && ReadSizeLine(s.buffer, 0) == Size(size, data)
    requires 0 < size < WORD - 2 && data + size + 2 <= |s.buffer|
    requires s.buffer[data + size..data + size + 2] == CRLF
    requires |s.delivered| + size <= limit
    ensures Turn(s, limit) ==
            BodyState(s.buffer[data + size + 2..], s.delivered + s.buffer[data..data + size], Running)
  {
    hide ReadSizeLine;
  }

  lemma TurnWaits(s: BodyState, limit: nat, size: nat, data: nat)
    requires s.status.Running? && 0 < size < WORD - 2
    requires ReadSizeLine(s.buffer, 0) in {NoLine, Size(size, data)}
    requires |s.buffer| < data + size + 2
    ensures Turn(s, limit) == s
  {
    hide ReadSizeLine;
  }

  lemma TurnOnChunk(s: BodyState, encoded: string, n: nat, body: string, limit: nat)
    requires s.status.Running? && InStep(s, encoded, n, body)
    requires ReadChunk(encoded, n - |s.buffer|).Chunk?
    requires ReadChunk(encoded, n - |s.buffer|).size < WORD - 2
    requires |body| <= limit
    ensures InStep(Turn(s, limit), encoded, n, body) && Turn(s, limit).status.Running?
    ensures Turn(s, limit) == s ==> n < |encoded|
    ensures Turn(s, limit) != s ==>
              var chunk := ReadChunk(encoded, n - |s.buffer|);
              n - |Turn(s, limit).buffer| == chunk.data + chunk.size + 2
  {
    hide ReadSizeLine, ReadChunk, Turn;
    var c := n - |s.buffer|;
    SizeLineInWindow(encoded, c, n);
    ChunkFacts(encoded, c);
    var Chunk(data, size) := ReadChunk(encoded, c);
    var next := data + size + 2;
    PrependTwice(s.delivered, encoded[data..data + size], Decode(encoded, next));
    if next <= n {
      SliceOfWindow(encoded, c, n, data - c + size, data - c + size + 2);
      SliceOfWindow(encoded, c, n, data - c, data - c + size);
      SliceOfWindow(encoded, c, n, next - c, n - c);
      TurnTakes(s, limit, size, data - c);
    } else {
      TurnWaits(s, limit, size, data - c);
    }
  }

  /** A turn on a window of an accepted body stays in step with the buffered decoder, and waits only
      while bytes are still missing. */
  lemma TurnInStep(s: BodyState, encoded: string, n: nat, body: string, limit: nat)
    requires s.status.Running? && InStep(s, encoded, n, body)
    requires NoWrap(encoded, n - |s.buffer|)
    requires |body| <= limit
    ensures InStep(Turn(s, limit), encoded, n, body)
    ensures Turn(s, limit).status.Running? ==> NoWrap(encoded, n - |Turn(s, limit).buffer|)
    ensures Turn(s, limit) == s ==> n < |encoded|
  {
    hide ReadChunk, Turn;
    if ReadChunk(encoded, n - |s.buffer|).Stop? {
      TurnOnLast(s, encoded, n, body, limit);
    } else {
      TurnOnChunk(s, encoded, n, body, limit);
    }
  }

  lemma {:induction false} PumpInStep(s: BodyState, encoded: string, n: nat, body: string, limit: nat)
    requires s.status.Running? ==> InStep(s, encoded, n, body) && NoWrap(encoded, n - |s.buffer|)
    requires !s.status.Running? ==> s.status.Complete? && InStep(s, encoded, n, body)
    requires |body| <= limit
    ensures InStep(Pump(s, limit), encoded, n, body)
    ensures Pump(s, limit).status.Running? ==>
              n < |encoded| && NoWrap(encoded, n - |Pump(s, limit).buffer|)
    decreases |s.buffer|
  {
    hide Turn, InStep, NoWrap;
    if s.status.Running? {
      TurnInStep(s, encoded, n, body, limit);
      if Turn(s, limit) != s && Turn(s, limit).status.Running? {
        PumpInStep(Turn(s, limit), encoded, n, body, limit);
      }
    }
  }

  lemma {:induction false} FeedInStep(
      s: BodyState, cuts: seq<string>, encoded: string, n: nat, body: string, limit: nat)
    requires n <= |encoded| && encoded[n..] == Concat(cuts)
    requires InStep(s, encoded, n, body)
    requires s.status.Running? ==> NoWrap(encoded, n - |s.buffer|) && n < |encoded|
    requires |body| <= limit
    ensures Feed(s, cuts, limit).status.Complete? && Feed(s, cuts, limit).delivered == body
    decreases cuts
  {
    if cuts != [] {
      var m := n + |cuts[0]|;
      assert encoded[n..][..|cuts[0]|] == cuts[0];
      assert encoded[n..m] == cuts[0];
      assert encoded[m..] == encoded[n..][|cuts[0]|..];
      if s.status.Running? {
        var t := s.(buffer := s.buffer + cuts[0]);
        assert t.buffer == encoded[n - |s.buffer|..m];
        PumpInStep(t, encoded, m, body, limit);
      }
      FeedInStep(OnRead(s, cuts[0], limit), cuts[1..], encoded, m, body, limit);
    }
  }

  /** Whatever the cut into reads, the streaming decoder delivers what the buffered one decodes. */
  lemma StreamingRefinesBuffered(encoded: string, cuts: seq<string>, body: string, limit: nat)
    requires Decode(encoded, 0) == Decoded(body) && |body| <= limit
    requires NoWrap(encoded, 0)
    requires Concat(cuts) == encoded
    ensures Feed(FRESH_BODY, cuts, limit).status.Complete?
    ensures Feed(FRESH_BODY, cuts, limit).delivered == body
  {
    assert encoded[0..] == encoded;
    FeedInStep(FRESH_BODY, cuts, encoded, 0, body, limit);
  }

  // ---------------------------------------------------------------- where the size field wraps

  /** Where the data of the first wrapping chunk starts. */
  function WrapPoint(encoded: string, offset: nat): (r: nat)
    requires offset <= |encoded| && !NoWrap(encoded, offset)
    ensures offset + 2 <= r < |encoded|
    decreases |encoded| - offset
  {
    var Chunk(data, size) := ReadChunk(encoded, offset);
    if size >= WORD - 2 then data else WrapPoint(encoded, data + size + 2)
  }

  lemma TurnThrows(s: BodyState, limit: nat, size: nat, data: nat)
    requires s.status.Running? && ReadSizeLine(s.buffer, 0) == Size(size, data)
    requires WORD - 2 <= size && |s.buffer| == data + 1
    requires |s.delivered| + size <= limit
    ensures Turn(s, limit) == s.(status := Thrown)
  {
    hide ReadSizeLine;
  }

  /** A read that stops one byte into a wrapping chunk makes the streaming decoder throw. */
  lemma {:induction false} PumpThrows(s: BodyState, encoded: string, offset: nat, body: string, limit: nat)
    requires offset <= |encoded| && !NoWrap(encoded, offset)
    requires s.status.Running? && s.buffer == encoded[offset..WrapPoint(encoded, offset) + 1]
    requires Decode(encoded, offset).Decoded? && s.delivered + Decode(encoded, offset).body == body
    requires |body| <= limit
    ensures Pump(s, limit).status.Thrown?
    decreases |encoded| - offset
  {
    hide ReadSizeLine, ReadChunk, Turn, Decode, Pump;
    var n := WrapPoint(encoded, offset) + 1;
    SizeLineInWindow(encoded, offset, n);
    ChunkFacts(encoded, offset);
    DecodeUnfold(encoded, offset);
    PumpTurn(s, limit);
    var Chunk(data, size) := ReadChunk(encoded, offset);
    var next := data + size + 2;
    PrependTwice(s.delivered, encoded[data..data + size], Decode(encoded, next));
    if size >= WORD - 2 {
      TurnThrows(s, limit, size, data - offset);
    } else {
      SliceOfWindow(encoded, offset, n, data - offset + size, next - offset);
      SliceOfWindow(encoded, offset, n, data - offset, data - offset + size);
      SliceOfWindow(encoded, offset, n, next - offset, n - offset);
      TurnTakes(s, limit, size, data - offset);
      PumpThrows(Turn(s, limit), encoded, next, body, limit);
    }
  }

  lemma PumpTurn(s: BodyState, limit: nat)
    requires s.status.Running?
    ensures Turn(s, limit).status.Thrown? ==> Pump(s, limit) == Turn(s, limit)
    ensures Turn(s, limit) != s && Turn(s, limit).status.Running? ==> Pump(s, limit) == Pump(Turn(s, limit), limit)
  {
    hide Turn;
  }

  lemma FeedTwo(s: BodyState, first: string, second: string, limit: nat)
    ensures Feed(s, [first, second], limit) == OnRead(OnRead(s, first, limit), second, limit)
  {
    hide OnRead;
    var cuts := [first, second];
    assert cuts[1..] == [second] && [second][1..] == [];
    var mid := OnRead(s, first, limit);
    assert Feed(mid, [second], limit) == Feed(OnRead(mid, second, limit), [], limit);
  }

  /** The cut that breaks a body with a wrapping chunk. */
  lemma WrapBreaksStreaming(encoded: string, body: string, limit: nat) returns (cuts: seq<string>)
    requires Decode(encoded, 0) == Decoded(body) && |body| <= limit
    requires !NoWrap(encoded, 0)
    ensures Concat(cuts) == encoded
    ensures Feed(FRESH_BODY, cuts, limit).status.Thrown?
  {
    hide Decode, Pump, NoWrap, WrapPoint;
    var n := WrapPoint(encoded, 0) + 1;
    cuts := [encoded[..n], encoded[n..]];
    assert cuts[1..] == [encoded[n..]] && cuts[1..][1..] == [];
    assert Concat(cuts[1..]) == encoded[n..] + "";
    assert "" + encoded[..n] == encoded[0..n];
    PumpThrows(BodyState(encoded[0..n], "", Running), encoded, 0, body, limit);
    FeedTwo(FRESH_BODY, encoded[..n], encoded[n..], limit);
  }

  /** Every cut of an accepted body streams to the buffered result exactly when no chunk size makes
      the 32-bit sum wrap. */
  lemma StreamingExact(encoded: string, body: string, limit: nat)
    requires Decode(encoded, 0) == Decoded(body) && |body| <= limit
    ensures (forall cuts :: Concat(cuts) == encoded ==>
              Feed(FRESH_BODY, cuts, limit).status.Complete? && Feed(FRESH_BODY, cuts, limit).delivered == body)
            <==> NoWrap(encoded, 0)
  {
    hide Decode, NoWrap, Feed, Concat;
    if NoWrap(encoded, 0) {
      forall cuts | Concat(cuts) == encoded
        ensures Feed(FRESH_BODY, cuts, limit).status.Complete? && Feed(FRESH_BODY, cuts, limit).delivered == body
      {
        StreamingRefinesBuffered(encoded, cuts, body, limit);
      }
    } else {
      var cuts := WrapBreaksStreaming(encoded, body, limit);
      assert Concat(cuts) == encoded;
    }
  }

  // ---------------------------------------------------------------- retrying from scratch

  predicate Incomplete(d: Decoding) {
    d.SizeLineIncomplete? || d.TrailersIncomplete? || d.BodyIncomplete?
  }

  lemma PrefixOfLast(encoded: string, n: nat, offset: nat)
    requires offset <= n <= |encoded|
    requires ReadChunk(encoded, offset).Stop? && ReadChunk(encoded, offset).outcome.Decoded?
    ensures ReadChunk(encoded[..n], offset).Stop?
    ensures var outcome := ReadChunk(encoded[..n], offset).outcome;
            Incomplete(outcome) || outcome == ReadChunk(encoded, offset).outcome
    ensures n == |encoded| ==> ReadChunk(encoded[..n], offset) == ReadChunk(encoded, offset)
  {
    hide ReadSizeLine, Find;
    SizeLineInPrefix(encoded, n, offset);
    var Size(size, data) := ReadSizeLine(encoded, offset);
    assert encoded[0..n] == encoded[..n];
    if data <= n {
      FindInWindow(encoded, 0, n, BLANK_LINE, data);
    }
    assert n == |encoded| ==> encoded[..n] == encoded;
  }

  lemma SizeLineInPrefix(t: string, n: nat, offset: nat)
    requires offset <= n <= |t|
    ensures match ReadSizeLine(t, offset)
            case Size(size, data) =>
              ReadSizeLine(t[..n], offset) == if data <= n then Size(size, data) else NoLine
            case _ => true
  {
    hide Find;
    assert t[0..n] == t[..n];
    FindInWindow(t, 0, n, CRLF, offset);
    var whole := Find(t, CRLF, offset);
    if whole.Some? && whole.value + 2 <= n {
      assert t[..n][offset..whole.value] == t[offset..whole.value];
    }
  }

  /** On a prefix of an accepted body the decoder reports nothing but missing bytes or the result. */
  lemma {:induction false} PrefixOutcome(encoded: string, n: nat, offset: nat)
    requires offset <= n <= |encoded|
    requires Decode(encoded, offset).Decoded? && NoWrap(encoded, offset)
    ensures var outcome := Decode(encoded[..n], offset);
            Incomplete(outcome) || outcome == Decode(encoded, offset)
    ensures n == |encoded| ==> Decode(encoded[..n], offset) == Decode(encoded, offset)
    decreases |encoded| - offset
  {
    hide ReadChunk;
    if ReadChunk(encoded, offset).Stop? {
      PrefixOfLast(encoded, n, offset);
    } else {
      var Chunk(data, size) := ReadChunk(encoded, offset);
      var next := data + size + 2;
      PrefixOfChunk(encoded, n, offset);
      if next <= n {
        assert encoded[..n][data..data + size] == encoded[data..data + size];
        PrefixOutcome(encoded, n, next);
      }
    }
  }

  lemma PrefixOfChunk(encoded: string, n: nat, offset: nat)
    requires offset <= n <= |encoded|
    requires ReadChunk(encoded, offset).Chunk? && ReadChunk(encoded, offset).size < WORD - 2
    ensures var chunk := ReadChunk(encoded, offset);
            ReadChunk(encoded[..n], offset) ==
            if n < chunk.data then Stop(SizeLineIncomplete)
            else if n < chunk.data + chunk.size + 2 then Stop(BodyIncomplete)
            else chunk
  {
    hide ReadSizeLine;
    SizeLineInPrefix(encoded, n, offset);
    ChunkFacts(encoded, offset);
    var Chunk(data, size) := ReadChunk(encoded, offset);
    if data + size + 2 <= n {
      assert encoded[..n][data + size..data + size + 2] == encoded[data + size..data + size + 2];
    }
  }

  lemma {:induction false} RetryInStep(cuts: seq<string>, encoded: string, n: nat, limit: nat)
    requires n < |encoded| && encoded[n..] == Concat(cuts)
    requires Decode(encoded, 0).Decoded? && NoWrap(encoded, 0)
    ensures RetryFeed(Waiting(encoded[..n]), cuts, limit) == Finished(Decode(encoded, 0).body, limit)
    decreases |cuts|
  {
    hide Decode, NoWrap;
    assert cuts != [];
    var m := n + |cuts[0]|;
    assert encoded[n..][..|cuts[0]|] == cuts[0];
    assert encoded[..n] + cuts[0] == encoded[..m];
    assert encoded[m..] == encoded[n..][|cuts[0]|..];
    PrefixOutcome(encoded, m, 0);
    if Incomplete(Decode(encoded[..m], 0)) {
      assert m < |encoded|;
      RetryInStep(cuts[1..], encoded, m, limit);
    } else {
      RetryStays(Finished(Decode(encoded, 0).body, limit), cuts[1..], limit);
    }
  }

  lemma {:induction false} RetryStays(s: Retry, cuts: seq<string>, limit: nat)
    requires !s.Waiting?
    ensures RetryFeed(s, cuts, limit) == s
    decreases |cuts|
  {
    if cuts != [] {
      RetryStays(s, cuts[1..], limit);
    }
  }

  /** Decoding everything received after each read ends with the same body, or with the same refusal of one
      over the limit, whatever the cut. */
  lemma RetryRefinesBuffered(encoded: string, cuts: seq<string>, body: string, limit: nat)
    requires Decode(encoded, 0) == Decoded(body) && NoWrap(encoded, 0)
    requires Concat(cuts) == encoded
    ensures RetryFeed(Waiting(""), cuts, limit) == if |body| <= limit then Response(body) else OverLimit
  {
    assert encoded[0..] == encoded && encoded[..0] == "";
    RetryInStep(cuts, encoded, 0, limit);
  }

  /** A prefix that stops one byte into a wrapping chunk makes the buffered decoder throw. */
  lemma {:induction false} PrefixThrows(encoded: string, offset: nat)
    requires offset <= |encoded| && Decode(encoded, offset).Decoded? && !NoWrap(encoded, offset)
    ensures Decode(encoded[..WrapPoint(encoded, offset) + 1], offset) == OutOfRange
    decreases |encoded| - offset
  {
    hide ReadChunk;
    var n := WrapPoint(encoded, offset) + 1;
    var Chunk(data, size) := ReadChunk(encoded, offset);
    if size >= WORD - 2 {
      PrefixOfWrap(encoded, offset);
    } else {
      PrefixOfChunk(encoded, n, offset);
      PrefixThrows(encoded, data + size + 2);
    }
  }

  lemma PrefixOfWrap(encoded: string, offset: nat)
    requires offset <= |encoded| && ReadChunk(encoded, offset).Chunk?
    requires ReadChunk(encoded, offset).size >= WORD - 2
    ensures var n := ReadChunk(encoded, offset).data + 1;
            n <= |encoded| && ReadChunk(encoded[..n], offset) == Stop(OutOfRange)
  {
    hide ReadSizeLine;
    ChunkFacts(encoded, offset);
    SizeLineInPrefix(encoded, ReadChunk(encoded, offset).data + 1, offset);
  }

  /** The cut that makes a retry throw. */
  lemma WrapBreaksRetry(encoded: string, body: string, limit: nat) returns (cuts: seq<string>)
    requires Decode(encoded, 0) == Decoded(body) && !NoWrap(encoded, 0)
    ensures Concat(cuts) == encoded && RetryFeed(Waiting(""), cuts, limit) == Rejected
  {
    hide Decode, NoWrap, WrapPoint;
    var n := WrapPoint(encoded, 0) + 1;
    cuts := [encoded[..n], encoded[n..]];
    assert cuts[1..] == [encoded[n..]] && cuts[1..][1..] == [];
    assert Concat(cuts[1..]) == encoded[n..] + "";
    assert "" + encoded[..n] == encoded[..n];
    PrefixThrows(encoded, 0);
    assert RetryOnRead(Waiting(""), cuts[0], limit) == Rejected;
    assert RetryFeed(Rejected, cuts[1..], limit) == RetryFeed(Rejected, [], limit);
  }

  /** Every cut of an accepted body is retried to the same outcome, its body or the refusal of one over the
      limit, exactly when no chunk size makes the 32-bit sum wrap. */
  lemma RetryExact(encoded: string, body: string, limit: nat)
    requires Decode(encoded, 0) == Decoded(body)
    ensures (forall cuts :: Concat(cuts) == encoded ==>
               RetryFeed(Waiting(""), cuts, limit) == if |body| <= limit then Response(body) else OverLimit)
            <==> NoWrap(encoded, 0)
  {
    hide Decode, NoWrap, RetryFeed, Concat;
    if NoWrap(encoded, 0) {
      forall cuts | Concat(cuts) == encoded
        ensures RetryFeed(Waiting(""), cuts, limit) == if |body| <= limit then Response(body) else OverLimit
      {
        RetryRefinesBuffered(encoded, cuts, body, limit);
      }
    } else {
      var cuts := WrapBreaksRetry(encoded, body, limit);
      assert Concat(cuts) == encoded;
    }
  }
}
