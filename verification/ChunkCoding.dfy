/** Encoding then decoding: when a chunk list comes back as it was. */
module ChunkCoding {
  import opened Text
  import opened Chunked

  /** A search that starts at or before the only place the first needle character can be. */
  lemma FindAfterClean(clean: string, pat: string, tail: string)
    requires |pat| > 0 && pat[0] !in clean
    ensures Find(clean + pat + tail, pat, 0) == Some(|clean|)
  {
    var s := clean + pat + tail;
    assert s[|clean|..|clean| + |pat|] == pat;
    forall i | 0 <= i < |clean|
      ensures !OccursAt(s, pat, i)
    {
      assert i + |pat| <= |s| ==> s[i..i + |pat|][0] == clean[i];
    }
    FindUnique(s, pat, 0, |clean|);
  }

  lemma NotFound(s: string, c: char)
    requires c !in s
    ensures Find(s, [c], 0).None?
  {
    FindIsFirst(s, [c], 0);
    forall i | 0 <= i < |s|
      ensures !OccursAt(s, [c], i)
    {
      assert s[i..i + 1][0] == s[i];
    }
  }

  lemma SizeLineOfChunk(n: nat, tail: string)
    ensures ReadSizeLine(Hex(n) + CRLF + tail, 0)
            == if n < WORD then Size(n, |Hex(n)| + 2) else BadSize
  {
    var s := Hex(n) + CRLF + tail;
    FindAfterClean(Hex(n), CRLF, tail);
    assert s[0..|Hex(n)|] == Hex(n);
    NotFound(Hex(n), ';');
  }

  lemma ReadSizeLineShift(s: string, d: nat, offset: nat)
    requires d + offset <= |s|
    ensures ReadSizeLine(s[d..], offset) ==
            match ReadSizeLine(s, d + offset)
            case Size(size, data) => Size(size, data - d)
            case other => other
  {
    assert s[d..|s|] == s[d..];
    FindInWindow(s, d, |s|, CRLF, offset);
    var whole := Find(s, CRLF, d + offset);
    if whole.Some? {
      assert s[d..][offset..whole.value - d] == s[d + offset..whole.value];
    }
  }

  lemma SliceInSuffix(s: string, c: nat, offset: nat)
    requires c <= offset <= |s|
    ensures Slice(s[c..], offset - c, 2) == Slice(s, offset, 2)
  {
  }

  lemma ReadChunkShift(s: string, d: nat, offset: nat)
    requires d + offset <= |s|
    ensures ReadChunk(s[d..], offset) ==
            match ReadChunk(s, d + offset)
            case Chunk(data, size) => Chunk(data - d, size)
            case stop => stop
  {
    hide ReadSizeLine, Find, Slice;
    ReadSizeLineShift(s, d, offset);
    match ReadSizeLine(s, d + offset)
    case NoLine =>
    case BadSize =>
    case Size(size, data) =>
      SliceInSuffix(s, d, data);
      assert s[d..|s|] == s[d..];
      FindInWindow(s, d, |s|, BLANK_LINE, data - d);
      if data + size <= |s| {
        SliceInSuffix(s, d, data + size);
      }
  }

  /** Decoding depends only on what lies ahead of the offset. */
  lemma {:induction false} DecodeShift(s: string, d: nat, offset: nat)
    requires d + offset <= |s|
    ensures Decode(s[d..], offset) == Decode(s, d + offset)
    decreases |s| - offset
  {
    hide ReadChunk;
    ReadChunkShift(s, d, offset);
    match ReadChunk(s, d + offset)
    case Stop(_) =>
    case Chunk(data, size) =>
      assert s[d..][data - d..data - d + size] == s[data..data + size];
      DecodeShift(s, d, data - d + size + 2);
  }

  lemma ReadSerializedChunk(payload: string, tail: string)
    requires payload != ""
    ensures ReadChunk(SerializeChunk(payload) + tail, 0) ==
            if |payload| < WORD then Chunk(|Hex(|payload|)| + 2, |payload|) else Stop(SizeInvalid)
  {
    hide Hex, ReadSizeLine, Slice;
    var s := SerializeChunk(payload) + tail;
    var digits := Hex(|payload|);
    assert s == digits + CRLF + (payload + CRLF + tail);
    SizeLineOfChunk(|payload|, payload + CRLF + tail);
    var end := |digits| + 2 + |payload|;
    SliceBehind(digits + CRLF + payload, CRLF, tail);
    assert s == (digits + CRLF + payload) + CRLF + tail;
  }

  lemma SliceBehind(a: string, b: string, tail: string)
    requires |b| == 2
    ensures Slice(a + b + tail, |a|, 2) == b
  {
  }

  /** One serialized chunk in front of any text decodes to its payload followed by the rest. */
  lemma DecodeChunkThenRest(payload: string, tail: string)
    requires payload != ""
    ensures Decode(SerializeChunk(payload) + tail, 0) ==
            if |payload| < WORD then Prepend(payload, Decode(tail, 0)) else SizeInvalid
  {
    hide ReadChunk, Hex;
    var s := SerializeChunk(payload) + tail;
    ReadSerializedChunk(payload, tail);
    if |payload| < WORD {
      var data := |Hex(|payload|)| + 2;
      var next := data + |payload| + 2;
      assert s[data..data + |payload|] == payload;
      assert s[next..] == tail;
      DecodeShift(s, next, 0);
    }
  }

  /** Encoding then decoding gives the concatenated chunks back exactly when every chunk size fits
      the 32-bit size field. */
  lemma {:induction false} ChunkRoundTrip(chunks: seq<string>)
    requires forall c :: c in chunks ==> c != ""
    ensures Decode(Encode(chunks), 0) == Decoded(Concat(chunks))
            <==> forall c :: c in chunks ==> |c| < WORD
    ensures Decode(Encode(chunks), 0) in {Decoded(Concat(chunks)), SizeInvalid}
  {
    if chunks == [] {
      assert Hex(0) == "0";
      assert LAST_CHUNK == Hex(0) + CRLF + CRLF;
      SizeLineOfChunk(0, CRLF);
    } else {
      assert chunks == [chunks[0]] + chunks[1..];
      assert chunks[0] in chunks && forall c :: c in chunks[1..] ==> c in chunks;
      DecodeChunkThenRest(chunks[0], Encode(chunks[1..]));
      ChunkRoundTrip(chunks[1..]);
    }
  }
}
