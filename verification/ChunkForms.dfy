/** Chunked bodies as any sender may write them: sizes with leading zeros and digits of either case, chunk
    extensions, trailer lines. */
module ChunkForms {
  import opened Text
  import opened Chunked
  import opened ChunkCoding
  import opened ChunkStreaming

  /** A chunk as it is written: `digits` is its size in base 16, `extension` what follows on the size line. */
  datatype Written = Written(digits: string, extension: string, payload: string)

  /** The size line of the last chunk, and all that stands behind it. */
  datatype Ending = Ending(digits: string, extension: string, rest: string)

  predicate GoodExtension(extension: string) {
    (extension == "" || extension[0] == ';') && NoBreak(extension)
  }

  predicate GoodChunk(c: Written) {
    c.payload != "" && HexNumber(c.digits) == Some(|c.payload|) && GoodExtension(c.extension)
  }

  predicate GoodEnding(e: Ending) {
    HexNumber(e.digits) == Some(0) && GoodExtension(e.extension) && EndsBody(e.rest)
  }

  /** A line break, or any text up to its first blank line. */
  predicate EndsBody(rest: string) {
    || rest == CRLF
    || (OccursAt(rest, BLANK_LINE, |rest| - 4) && forall i :: 0 <= i < |rest| - 4 ==> !OccursAt(rest, BLANK_LINE, i))
  }

  predicate GoodTrailers(trailers: seq<string>) {
    forall i :: 0 <= i < |trailers| ==> trailers[i] != "" && '\r' !in trailers[i]
  }

  function TrailerLines(trailers: seq<string>): string {
    if trailers == [] then "" else trailers[0] + CRLF + TrailerLines(trailers[1..])
  }

  function PrintEnding(e: Ending): string {
    e.digits + e.extension + CRLF + e.rest
  }

  function PrintChunk(c: Written): string {
    c.digits + c.extension + CRLF + (c.payload + CRLF)
  }

  function PrintBody(chunks: seq<Written>, e: Ending): string {
    if chunks == [] then PrintEnding(e) else PrintChunk(chunks[0]) + PrintBody(chunks[1..], e)
  }

  function Payloads(chunks: seq<Written>): string {
    if chunks == [] then "" else chunks[0].payload + Payloads(chunks[1..])
  }

  // ---------------------------------------------------------------- size lines

  lemma {:induction false} DigitsAreClean(digits: string)
    requires HexNumber(digits).Some?
    ensures digits != "" && ';' !in digits && '\r' !in digits
  {
    var last := digits[|digits| - 1];
    assert digits == digits[..|digits| - 1] + [last];
    if |digits| > 1 {
      DigitsAreClean(digits[..|digits| - 1]);
    }
  }

  /** The extension is no part of the size. */
  lemma ExtensionIgnored(digits: string, extension: string)
    requires ';' !in digits && GoodExtension(extension)
    ensures BeforeExtension(digits + extension) == digits
  {
    if extension == "" {
      assert digits + extension == digits;
      NotFound(digits, ';');
    } else {
      assert extension == ";" + extension[1..];
      assert digits + extension == digits + ";" + extension[1..];
      FindAfterClean(digits, ";", extension[1..]);
    }
  }

  lemma SizeLineBreaks(digits: string, extension: string)
    requires '\r' !in digits && NoBreak(extension)
    ensures NoBreak(digits + extension)
  {
    var line := digits + extension;
    forall i | 0 <= i < |line| ensures !OccursAt(line, CRLF, i) {
      BreakAtCr(line, i);
      BreakAtCr(extension, i - |digits|);
    }
  }

  /** A size line of any form gives its size, or is refused where the size does not fit the 32-bit field. */
  lemma SizeLineOfForm(digits: string, extension: string, tail: string)
    requires HexNumber(digits).Some? && GoodExtension(extension)
    ensures var n := HexNumber(digits).value;
            ReadSizeLine(digits + extension + CRLF + tail, 0)
            == if n < WORD then Size(n, |digits + extension| + 2) else BadSize
  {
    hide HexNumber, BeforeExtension, NoBreak, Find;
    DigitsAreClean(digits);
    var line := digits + extension;
    SizeLineBreaks(digits, extension);
    BreakEnds(line, tail);
    assert line + (CRLF + tail) == line + CRLF + tail;
    ExtensionIgnored(digits, extension);
    assert (line + CRLF + tail)[0..|line|] == line;
  }

  /** Every size line that is read has that form. */
  lemma SizeLineParts(s: string) returns (digits: string, extension: string)
    requires ReadSizeLine(s, 0).Size?
    ensures var line := ReadSizeLine(s, 0);
            && s[..line.data] == digits + extension + CRLF
            && HexNumber(digits) == Some(line.size) && GoodExtension(extension)
  {
    hide HexNumber, OccursAt, Find;
    var end := Find(s, CRLF, 0).value;
    var line := s[0..end];
    FindIsFirst(s, CRLF, 0);
    FindIsFirst(line, ";", 0);
    digits := BeforeExtension(line);
    extension := line[|digits|..];
    assert s[..end + 2] == line + CRLF by {
      BreakAtCr(s, end);
    }
    assert extension != "" ==> extension[0] == ';' by {
      if extension != "" {
        SemicolonAt(line, |digits|);
      }
    }
    assert s[..end] == line;
    forall i | 0 <= i < |extension| ensures !OccursAt(extension, CRLF, i) {
      OccursInSuffix(line, |digits|, CRLF, i);
      OccursInPrefix(s, end, CRLF, |digits| + i);
    }
  }

  lemma SemicolonAt(line: string, at: nat)
    ensures OccursAt(line, ";", at) ==> line[at] == ';'
  {
  }

  // ---------------------------------------------------------------- the end of the body

  /** Behind the size line of the last chunk: what is taken for the end, and what is refused. */
  lemma LastExactly(encoded: string, data: nat)
    requires data <= |encoded|
    ensures var rest := encoded[data..];
            DecodeLast(encoded, data) ==
            if EndsBody(rest) then Decoded("")
            else if exists i :: 0 <= i && OccursAt(rest, BLANK_LINE, i) then UnexpectedBytes
            else TrailersIncomplete
  {
    hide OccursAt, Find;
    var rest := encoded[data..];
    FindIsFirst(encoded, BLANK_LINE, data);
    forall i: nat ensures OccursAt(rest, BLANK_LINE, i) <==> OccursAt(encoded, BLANK_LINE, data + i) {
      OccursInSuffix(encoded, data, BLANK_LINE, i);
    }
    SliceIsFront(encoded, data);
    var end := Find(encoded, BLANK_LINE, data);
    if end.Some? {
      assert OccursAt(rest, BLANK_LINE, end.value - data);
      TooShort(rest, end.value - data);
    } else {
      forall i | 0 <= i ensures !OccursAt(rest, BLANK_LINE, i) {
        assert OccursAt(rest, BLANK_LINE, i) <==> OccursAt(encoded, BLANK_LINE, data + i);
      }
      NoneNegative(rest);
    }
  }

  lemma NoneNegative(rest: string)
    ensures OccursAt(rest, BLANK_LINE, |rest| - 4) ==> 0 <= |rest| - 4
  {
  }

  lemma SliceIsFront(encoded: string, data: nat)
    requires data <= |encoded|
    ensures Slice(encoded, data, 2) == CRLF && data + 2 == |encoded| <==> encoded[data..] == CRLF
  {
  }

  lemma TooShort(rest: string, i: nat)
    requires OccursAt(rest, BLANK_LINE, i)
    ensures i + 4 <= |rest| && rest != CRLF
  {
  }

  /** The blank line behind the trailers is the first one. */
  lemma {:induction false} BlankBehindTrailers(trailers: seq<string>)
    requires trailers != [] && GoodTrailers(trailers)
    ensures var lines := TrailerLines(trailers);
            |lines| >= 2 && lines[0] != '\r' && Find(lines + CRLF, BLANK_LINE, 0) == Some(|lines| - 2)
  {
    var line, rest := trailers[0], TrailerLines(trailers[1..]);
    var s := line + CRLF + rest + CRLF;
    if |trailers| == 1 {
      assert s == line + BLANK_LINE + "";
      FindAfterClean(line, BLANK_LINE, "");
    } else {
      BlankBehindTrailers(trailers[1..]);
      BlankFurther(line, rest);
    }
  }

  /** A line in front moves the blank line back by its length. */
  lemma BlankFurther(line: string, rest: string)
    requires '\r' !in line && |rest| >= 2 && rest[0] != '\r'
    requires Find(rest + CRLF, BLANK_LINE, 0) == Some(|rest| - 2)
    ensures Find(line + CRLF + rest + CRLF, BLANK_LINE, 0) == Some(|line + CRLF + rest| - 2)
  {
    hide Find, OccursAt;
    var s, k := line + CRLF + rest + CRLF, |line| + 2;
    var at := k + |rest| - 2;
    assert s[k..] == rest + CRLF;
    FindIsFirst(rest + CRLF, BLANK_LINE, 0);
    OccursInSuffix(s, k, BLANK_LINE, |rest| - 2);
    forall i | 0 <= i < at ensures !OccursAt(s, BLANK_LINE, i) {
      if i >= k {
        OccursInSuffix(s, k, BLANK_LINE, i - k);
      } else {
        NoBlankInLine(line, rest, i);
      }
    }
    FindUnique(s, BLANK_LINE, 0, at);
  }

  lemma NoBlankInLine(line: string, rest: string, i: nat)
    requires '\r' !in line && i < |line| + 2 && rest != "" && rest[0] != '\r'
    ensures !OccursAt(line + CRLF + rest + CRLF, BLANK_LINE, i)
  {
    var s := line + CRLF + rest + CRLF;
    var k := if i == |line| then i + 2 else i;
    assert s[|line| + 1] == '\n' && s[|line| + 2] == rest[0];
    assert s[k] != '\r';
    if i + 4 <= |s| {
      assert s[i..i + 4][k - i] == s[k];
    }
  }

  lemma FoundIsEnd(rest: string)
    requires |rest| >= 4 && Find(rest, BLANK_LINE, 0) == Some(|rest| - 4)
    ensures EndsBody(rest)
  {
    hide Find, OccursAt;
    FindIsFirst(rest, BLANK_LINE, 0);
  }

  /** Trailer lines and a line break end a body; so do such lines behind a body that had already ended. */
  lemma TrailersEnd(trailers: seq<string>)
    requires GoodTrailers(trailers)
    ensures EndsBody(TrailerLines(trailers) + CRLF)
    ensures EndsBody(CRLF + (TrailerLines(trailers) + CRLF))
  {
    hide Find, OccursAt, EndsBody;
    var lines := TrailerLines(trailers);
    if trailers == [] {
      assert lines + CRLF == CRLF && CRLF + CRLF == BLANK_LINE;
      BreakEndsBody();
    } else {
      BlankBehindTrailers(trailers);
      FoundIsEnd(lines + CRLF);
      BlankFurther("", lines);
      assert "" + CRLF + lines + CRLF == CRLF + (lines + CRLF);
      FoundIsEnd(CRLF + (lines + CRLF));
    }
  }

  lemma BreakEndsBody()
    ensures EndsBody(CRLF) && EndsBody(BLANK_LINE)
  {
  }

  /** The last chunk ends the body whatever its extension and its trailers. */
  lemma EndingEnds(e: Ending)
    requires GoodEnding(e)
    ensures ReadChunk(PrintEnding(e), 0) == Stop(Decoded(""))
  {
    hide ReadSizeLine, HexNumber, EndsBody, GoodExtension, DecodeLast;
    var s, data := PrintEnding(e), |e.digits + e.extension| + 2;
    SizeLineOfForm(e.digits, e.extension, e.rest);
    assert s[data..] == e.rest;
    LastExactly(s, data);
  }

  // ---------------------------------------------------------------- whole bodies

  lemma ChunkText(c: Written, tail: string)
    ensures var s, data := PrintChunk(c) + tail, |c.digits + c.extension| + 2;
            var next := data + |c.payload| + 2;
            && s == c.digits + c.extension + CRLF + (c.payload + CRLF + tail)
            && next <= |s| && s[data..data + |c.payload|] == c.payload
            && Slice(s, data + |c.payload|, 2) == CRLF && s[next..] == tail
  {
    var front := c.digits + c.extension + CRLF + c.payload;
    assert PrintChunk(c) + tail == front + CRLF + tail;
    SliceBehind(front, CRLF, tail);
  }

  lemma ReadForm(c: Written, tail: string)
    requires GoodChunk(c)
    ensures ReadChunk(PrintChunk(c) + tail, 0)
            == if |c.payload| < WORD then Chunk(|c.digits + c.extension| + 2, |c.payload|) else Stop(SizeInvalid)
  {
    hide ReadSizeLine, HexNumber, Slice, PrintChunk;
    ChunkText(c, tail);
    SizeLineOfForm(c.digits, c.extension, c.payload + CRLF + tail);
  }

  /** What any sender wrote decodes to the payloads exactly when their sizes fit the size field; nothing of
      the extensions and the trailers gets into the body. */
  lemma {:induction false} FormsRoundTrip(chunks: seq<Written>, e: Ending)
    requires GoodEnding(e) && forall i :: 0 <= i < |chunks| ==> GoodChunk(chunks[i])
    ensures Decode(PrintBody(chunks, e), 0)
            == if forall i :: 0 <= i < |chunks| ==> |chunks[i].payload| < WORD then Decoded(Payloads(chunks))
               else SizeInvalid
  {
    hide ReadChunk, GoodChunk, GoodEnding, PrintChunk, PrintEnding;
    if chunks == [] {
      EndingEnds(e);
    } else {
      var c, tail := chunks[0], PrintBody(chunks[1..], e);
      ReadForm(c, tail);
      ChunkText(c, tail);
      FormsRoundTrip(chunks[1..], e);
      assert |chunks[1..]| == |chunks| - 1 && forall i :: 1 <= i < |chunks| ==> chunks[i] == chunks[1..][i - 1];
      if |c.payload| < WORD {
        DecodeShift(PrintChunk(c) + tail, |c.digits + c.extension| + 2 + |c.payload| + 2, 0);
      }
    }
  }

  lemma ChunkParts(encoded: string) returns (c: Written)
    requires ReadChunk(encoded, 0).Chunk?
    ensures var chunk := ReadChunk(encoded, 0);
            && GoodChunk(c) && |c.payload| == chunk.size < WORD
            && c.payload == encoded[chunk.data..chunk.data + chunk.size]
            && encoded == PrintChunk(c) + encoded[chunk.data + chunk.size + 2..]
  {
    hide ReadSizeLine, HexNumber, GoodExtension;
    var line := ReadSizeLine(encoded, 0);
    var digits, extension := SizeLineParts(encoded);
    var end := line.data + line.size;
    c := Written(digits, extension, encoded[line.data..end]);
    ChunkFacts(encoded, 0);
    assert encoded[..line.data] + encoded[line.data..end] + encoded[end..end + 2] + encoded[end + 2..] == encoded;
    assert digits + extension + CRLF + (c.payload + CRLF) == digits + extension + CRLF + c.payload + CRLF;
  }

  lemma EndingParts(encoded: string) returns (e: Ending)
    requires ReadChunk(encoded, 0).Stop? && ReadChunk(encoded, 0).outcome.Decoded?
    ensures GoodEnding(e) && encoded == PrintEnding(e) && ReadChunk(encoded, 0).outcome == Decoded("")
  {
    hide ReadSizeLine, HexNumber, GoodExtension, EndsBody, DecodeLast;
    var line := ReadSizeLine(encoded, 0);
    var digits, extension := SizeLineParts(encoded);
    LastExactly(encoded, line.data);
    e := Ending(digits, extension, encoded[line.data..]);
    assert encoded == encoded[..line.data] + encoded[line.data..];
  }

  /** And nothing else is decoded: every accepted body was written in that form. */
  lemma {:induction false} DecodedIsWritten(encoded: string) returns (chunks: seq<Written>, e: Ending)
    requires Decode(encoded, 0).Decoded?
    ensures GoodEnding(e) && forall i :: 0 <= i < |chunks| ==> GoodChunk(chunks[i]) && |chunks[i].payload| < WORD
    ensures encoded == PrintBody(chunks, e) && Decode(encoded, 0) == Decoded(Payloads(chunks))
    decreases |encoded|
  {
    hide ReadChunk, GoodChunk, GoodEnding, PrintChunk, PrintEnding;
    var chunk := ReadChunk(encoded, 0);
    if chunk.Stop? {
      e := EndingParts(encoded);
      chunks := [];
    } else {
      var next := chunk.data + chunk.size + 2;
      var c := ChunkParts(encoded);
      DecodeShift(encoded, next, 0);
      var rest;
      rest, e := DecodedIsWritten(encoded[next..]);
      chunks := [c] + rest;
      assert chunks[1..] == rest;
    }
  }

  lemma {:induction false} NoWrapShift(s: string, d: nat, offset: nat)
    requires d + offset <= |s|
    ensures NoWrap(s[d..], offset) == NoWrap(s, d + offset)
    decreases |s| - offset
  {
    hide ReadChunk;
    ReadChunkShift(s, d, offset);
    var chunk := ReadChunk(s, d + offset);
    if chunk.Chunk? {
      NoWrapShift(s, d, chunk.data - d + chunk.size + 2);
    }
  }

  lemma {:induction false} FormsWrap(chunks: seq<Written>, e: Ending)
    requires GoodEnding(e)
    requires forall i :: 0 <= i < |chunks| ==> GoodChunk(chunks[i]) && |chunks[i].payload| < WORD
    ensures NoWrap(PrintBody(chunks, e), 0) <==> forall i :: 0 <= i < |chunks| ==> |chunks[i].payload| < WORD - 2
  {
    hide ReadChunk, GoodChunk, GoodEnding, PrintChunk, PrintEnding;
    if chunks == [] {
      EndingEnds(e);
    } else {
      var c, tail := chunks[0], PrintBody(chunks[1..], e);
      ReadForm(c, tail);
      ChunkText(c, tail);
      FormsWrap(chunks[1..], e);
      assert |chunks[1..]| == |chunks| - 1 && forall i :: 1 <= i < |chunks| ==> chunks[i] == chunks[1..][i - 1];
      NoWrapShift(PrintChunk(c) + tail, |c.digits + c.extension| + 2 + |c.payload| + 2, 0);
    }
  }

  /** Both incremental decoders give the payloads on every cut of such a body exactly when no chunk is within
      two bytes of the size field's range. */
  lemma FormsOnEveryCut(chunks: seq<Written>, e: Ending, limit: nat)
    requires GoodEnding(e)
    requires forall i :: 0 <= i < |chunks| ==> GoodChunk(chunks[i]) && |chunks[i].payload| < WORD
    requires |Payloads(chunks)| <= limit
    ensures var body, fits := PrintBody(chunks, e), forall i :: 0 <= i < |chunks| ==> |chunks[i].payload| < WORD - 2;
            && ((forall cuts :: Concat(cuts) == body ==>
                   && Feed(FRESH_BODY, cuts, limit).status.Complete?
                   && Feed(FRESH_BODY, cuts, limit).delivered == Payloads(chunks)) <==> fits)
            && ((forall cuts :: Concat(cuts) == body ==>
                   RetryFeed(Waiting(""), cuts, limit) == Response(Payloads(chunks))) <==> fits)
  {
    hide Decode, NoWrap, Feed, RetryFeed, Concat, PrintBody, GoodChunk, GoodEnding, Payloads;
    FormsRoundTrip(chunks, e);
    FormsWrap(chunks, e);
    StreamingExact(PrintBody(chunks, e), Payloads(chunks), limit);
    RetryExact(PrintBody(chunks, e), Payloads(chunks), limit);
  }
}
