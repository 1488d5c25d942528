/** The form parser undoes a form printer: any list of fields and files, printed with quoted names, further
    headers and a boundary, is read back, unless a limit refuses it. */
module FormPrint {
  import opened Text
  import opened Disposition
  import opened Multipart
  import opened MultipartStream
  import opened MultipartRefine

  // ---------------------------------------------------------------- the printer

  /** A field or file as a client has it, with header lines before and after its disposition. */
  datatype Piece = Piece(name: string, filename: Option<string>, before: Headers, after: Headers, body: string)

  const DISPOSITION := "Content-Disposition"

  function AllHeaders(p: Piece): Headers {
    p.before + [(DISPOSITION, Printed(p.name, p.filename))] + p.after
  }

  function Line(header: (string, string)): string {
    header.0 + ":" + (" " + header.1)
  }

  function Lines(headers: Headers): string {
    if headers == [] then ""
    else if |headers| == 1 then Line(headers[0])
    else Line(headers[0]) + (CRLF + Lines(headers[1..]))
  }

  function PrintPieces(pieces: seq<Piece>, c: Config, tail: string): string
    requires pieces != []
    decreases |pieces|, 0
  {
    Lines(AllHeaders(pieces[0])) + (BLANK_LINE + (pieces[0].body + (c.Next() + Suffix(pieces[1..], c, tail))))
  }

  /** What follows a delimiter: the next piece, or the final dashes and the tail. */
  function Suffix(pieces: seq<Piece>, c: Config, tail: string): string
    decreases |pieces|, 1
  {
    if pieces == [] then DASHES + tail else CRLF + PrintPieces(pieces, c, tail)
  }

  function Print(pieces: seq<Piece>, c: Config, tail: string): string {
    c.First() + Suffix(pieces, c, tail)
  }

  function AsPart(p: Piece): Part {
    Part(Head(p.name, p.filename, AllHeaders(p)), p.body)
  }

  function AsParts(pieces: seq<Piece>): seq<Part> {
    if pieces == [] then [] else [AsPart(pieces[0])] + AsParts(pieces[1..])
  }

  // ---------------------------------------------------------------- what may be printed

  predicate GoodLine(header: (string, string)) {
    && header.0 != "" && !HasControl(header.0) && Clean(header.0, ":") && TrimOws(header.0) == header.0
    && TrimOws(header.1) == header.1 && NoBreak(header.1)
  }

  predicate IsType(header: (string, string)) { EqualsIgnoringCase(header.0, "content-type") }

  /** A further header line: not a second disposition, and no transfer encoding that is not supported. */
  predicate GoodHeader(header: (string, string)) {
    && GoodLine(header) && !EqualsIgnoringCase(header.0, "content-disposition")
    && (EqualsIgnoringCase(header.0, "content-transfer-encoding") ==>
          EqualsIgnoringCase(header.1, "7bit") || EqualsIgnoringCase(header.1, "8bit")
          || EqualsIgnoringCase(header.1, "binary"))
  }

  predicate GoodHeaders(headers: Headers) {
    && (forall i :: 0 <= i < |headers| ==> GoodHeader(headers[i]))
    && forall i, j :: 0 <= i < j < |headers| ==> !(IsType(headers[i]) && IsType(headers[j]))
  }

  /** No delimiter line starts inside the body, whatever follows it. */
  predicate NoDelimiter(body: string, c: Config) {
    forall i :: 0 <= i < |body| ==>
      && !DelimiterAt(body + c.Next() + CRLF, c.Next(), i)
      && !DelimiterAt(body + c.Next() + DASHES, c.Next(), i)
  }

  predicate Printable(p: Piece, c: Config) {
    && p.name != "" && !HasControl(p.name) && (p.filename.Some? ==> !HasControl(p.filename.value))
    && GoodHeaders(p.before + p.after) && NoDelimiter(p.body, c)
  }

  predicate AllPrintable(pieces: seq<Piece>, c: Config) {
    forall i :: 0 <= i < |pieces| ==> Printable(pieces[i], c)
  }

  /** A piece behind `count` others with `bytes` of body is within the limits. */
  predicate Fits(p: Piece, count: nat, bytes: nat, c: Config) {
    && |Lines(AllHeaders(p))| <= c.limits.maxPartHeaderBytes && |AllHeaders(p)| <= c.limits.maxPartHeaders
    && |p.name| <= c.limits.maxFieldNameBytes
    && (p.filename.Some? ==> |p.filename.value| <= c.limits.maxFilenameBytes)
    && count + 1 <= c.limits.maxParts
    && (if p.filename.Some? then c.limits.maxFileBytes != 0 && |p.body| <= c.limits.maxFileBytes
        else |p.body| <= c.limits.maxFieldBytes)
    && (c.maxMemoryBytes == 0 || bytes + |p.body| <= c.maxMemoryBytes)
  }

  predicate AllFit(pieces: seq<Piece>, count: nat, bytes: nat, c: Config) {
    pieces == [] || (Fits(pieces[0], count, bytes, c) && AllFit(pieces[1..], count + 1, bytes + |pieces[0].body|, c))
  }

  // ---------------------------------------------------------------- lines

  lemma LineNoBreak(header: (string, string))
    requires GoodLine(header)
    ensures NoBreak(Line(header))
  {
    hide TrimOws;
    var line, front := Line(header), header.0 + ":" + " ";
    assert line == front + header.1;
    NameNoCr(header.0);
    forall i | 0 <= i < |line| ensures !OccursAt(line, CRLF, i) {
      BreakAtCr(line, i);
      BreakAtCr(header.1, i - |front|);
    }
  }

  lemma NameNoCr(name: string)
    requires !HasControl(name)
    ensures forall i :: 0 <= i < |name| ==> name[i] != '\r'
  {
    assert IsControl('\r');
  }

  /** A printed line is read as its header. */
  lemma LineAdded(h: HeaderState, header: (string, string))
    requires GoodLine(header)
    ensures AddHeaderLine(h, Line(header)) ==
            var headers := h.headers + [header];
            if EqualsIgnoringCase(header.0, "content-disposition") then
              (if h.disposition.Some? then None else Some(h.(disposition := Some(header.1), headers := headers)))
            else if IsType(header) then
              (if h.sawContentType then None else Some(h.(sawContentType := true, headers := headers)))
            else if GoodHeader(header) then Some(h.(headers := headers)) else None
  {
    hide EqualsIgnoringCase, HasControl, NoBreak;
    var line := Line(header);
    UntilClean(header.0, ":" + (" " + header.1), ":");
    assert line == header.0 + (":" + (" " + header.1));
    assert line[..|header.0|] == header.0 && line[|header.0| + 1..] == " " + header.1;
    assert (" " + header.1)[1..] == header.1;
    FrontKept(header.0);
    assert line[0] == header.0[0];
  }

  lemma FrontKept(s: string)
    requires s != "" && TrimOws(s) == s
    ensures !IsOws(s[0])
  {
    if IsOws(s[0]) {
      TrimShorter(s[1..]);
    }
  }

  lemma {:induction false} TrimShorter(s: string)
    ensures |TrimFront(s)| <= |s| && |TrimOws(s)| <= |s|
  {
    if s != "" && IsOws(s[0]) {
      TrimShorter(s[1..]);
    }
  }

  function AddAll(h: HeaderState, headers: Headers): Option<HeaderState>
    decreases |headers|
  {
    if headers == [] then Some(h)
    else
      match AddHeaderLine(h, Line(headers[0]))
      case None => None
      case Some(more) => AddAll(more, headers[1..])
  }

  lemma LinesUnfold(headers: Headers)
    requires headers != []
    ensures |headers| == 1 ==> Lines(headers) == Line(headers[0])
    ensures |headers| > 1 ==> Lines(headers) == Line(headers[0]) + (CRLF + Lines(headers[1..]))
    ensures Lines(headers) != ""
  {
  }

  /** Where a text's first line break is, seen from an offset. */
  lemma BreakAt(block: string, offset: nat, headers: Headers)
    requires offset <= |block| && headers != [] && block[offset..] == Lines(headers)
    requires forall i :: 0 <= i < |headers| ==> GoodLine(headers[i])
    ensures |headers| == 1 ==> Find(block, CRLF, offset) == None
    ensures |headers| > 1 ==>
              var end := offset + |Line(headers[0])|;
              && Find(block, CRLF, offset) == Some(end) && end + 2 <= |block|
              && block[offset..end] == Line(headers[0]) && block[end + 2..] == Lines(headers[1..])
  {
    hide Line, Lines, GoodLine, Find, NoBreak;
    LinesUnfold(headers);
    LineNoBreak(headers[0]);
    var line := Line(headers[0]);
    if |headers| == 1 {
      BreakEnds(line, "");
      FindBehind(block, offset, CRLF);
    } else {
      var rest := Lines(headers[1..]);
      BreakEnds(line, rest);
      FindBehind(block, offset, CRLF);
      var suffix := block[offset..];
      assert suffix[..|line|] == line && suffix[|line| + 2..] == rest;
    }
  }

  lemma {:induction false} LinesAdded(h: HeaderState, block: string, offset: nat, headers: Headers)
    requires offset <= |block| && headers != [] && block[offset..] == Lines(headers)
    requires forall i :: 0 <= i < |headers| ==> GoodLine(headers[i])
    ensures AddHeaderLines(h, block, offset) == AddAll(h, headers)
    decreases |headers|
  {
    hide Line, Lines, GoodLine, Find, AddHeaderLine;
    BreakAt(block, offset, headers);
    LinesUnfold(headers);
    assert offset < |block|;
    if |headers| == 1 {
      LinesAddedLast(h, block, offset, headers);
    } else {
      var more := AddHeaderLine(h, Line(headers[0]));
      if more.Some? {
        LinesAdded(more.value, block, offset + |Line(headers[0])| + 2, headers[1..]);
      }
    }
  }

  lemma LinesAddedLast(h: HeaderState, block: string, offset: nat, headers: Headers)
    requires offset < |block| && |headers| == 1 && Find(block, CRLF, offset) == None
    requires block[offset..] == Line(headers[0])
    ensures AddHeaderLines(h, block, offset) == AddAll(h, headers)
  {
    hide Line, Find, AddHeaderLine;
    var more := AddHeaderLine(h, Line(headers[0]));
    assert headers[1..] == [];
    assert more.Some? ==> AddAll(more.value, []) == more;
  }

  lemma {:induction false} BreaksCounted(block: string, offset: nat, headers: Headers)
    requires offset <= |block| && headers != [] && block[offset..] == Lines(headers)
    requires forall i :: 0 <= i < |headers| ==> GoodLine(headers[i])
    ensures CountBreaks(block, offset) == |headers| - 1
    decreases |headers|
  {
    hide Line, Lines, GoodLine, Find;
    BreakAt(block, offset, headers);
    if |headers| > 1 {
      BreaksCounted(block, offset + |Line(headers[0])| + 2, headers[1..]);
    }
  }

  // ---------------------------------------------------------------- heads

  predicate HasType(headers: Headers) {
    exists i :: 0 <= i < |headers| && IsType(headers[i])
  }

  lemma GoodTail(headers: Headers)
    requires headers != [] && GoodHeaders(headers)
    ensures GoodHeader(headers[0]) && GoodLine(headers[0]) && GoodHeaders(headers[1..])
    ensures !EqualsIgnoringCase(headers[0].0, "content-disposition")
    ensures IsType(headers[0]) ==> !HasType(headers[1..])
    ensures HasType(headers) <==> IsType(headers[0]) || HasType(headers[1..])
  {
    hide GoodLine, EqualsIgnoringCase;
    var rest := headers[1..];
    assert GoodHeader(headers[0]);
    assert forall i :: 0 <= i < |rest| ==> rest[i] == headers[i + 1];
    if HasType(rest) {
      var i :| 0 <= i < |rest| && IsType(rest[i]);
      assert headers[i + 1] == rest[i];
    }
    if HasType(headers) && !IsType(headers[0]) {
      var i :| 0 <= i < |headers| && IsType(headers[i]);
      assert rest[i - 1] == headers[i];
    }
  }

  lemma {:induction false} AddedPlain(h: HeaderState, headers: Headers)
    requires GoodHeaders(headers) && (h.sawContentType ==> !HasType(headers))
    ensures var r := AddAll(h, headers);
            && r.Some? && r.value.disposition == h.disposition && r.value.headers == h.headers + headers
            && (r.value.sawContentType <==> h.sawContentType || HasType(headers))
    decreases |headers|
  {
    hide Line, AddHeaderLine, GoodLine, EqualsIgnoringCase, GoodHeaders, GoodHeader, HasType, IsType;
    if headers != [] {
      GoodTail(headers);
      LineAdded(h, headers[0]);
      AddedPlain(AddHeaderLine(h, Line(headers[0])).value, headers[1..]);
      assert headers == [headers[0]] + headers[1..];
      assert h.headers + [headers[0]] + headers[1..] == h.headers + headers;
    } else {
      assert h.headers + [] == h.headers;
      NoType();
    }
  }

  lemma NoType()
    ensures !HasType([])
  {
  }

  lemma {:induction false} AddAllSplit(h: HeaderState, a: Headers, b: Headers)
    ensures AddAll(h, a + b) == if AddAll(h, a).None? then None else AddAll(AddAll(h, a).value, b)
    decreases |a|
  {
    hide Line, AddHeaderLine;
    if a == [] {
      assert a + b == b;
    } else {
      assert (a + b)[1..] == a[1..] + b;
      var more := AddHeaderLine(h, Line(a[0]));
      if more.Some? {
        AddAllSplit(more.value, a[1..], b);
      }
    }
  }

  lemma HeadersSplit(a: Headers, b: Headers)
    requires GoodHeaders(a + b)
    ensures GoodHeaders(a) && GoodHeaders(b)
    ensures HasType(a) ==> !HasType(b)
  {
    hide GoodHeader, IsType;
    forall i | 0 <= i < |a| ensures a[i] == (a + b)[i] {}
    forall i | 0 <= i < |b| ensures b[i] == (a + b)[|a| + i] {}
    forall i, j | 0 <= i < j < |b| ensures !(IsType(b[i]) && IsType(b[j])) {
      assert (a + b)[|a| + i] == b[i] && (a + b)[|a| + j] == b[j];
    }
    forall i, j | 0 <= i < |a| && 0 <= j < |b| ensures !(IsType(a[i]) && IsType(b[j])) {
      assert (a + b)[i] == a[i] && (a + b)[|a| + j] == b[j];
    }
  }

  /** The printed disposition is a good line, and is taken for the disposition. */
  lemma DispositionLine(p: Piece)
    requires p.name != "" && !HasControl(p.name) && (p.filename.Some? ==> !HasControl(p.filename.value))
    ensures var header := (DISPOSITION, Printed(p.name, p.filename));
            GoodLine(header) && EqualsIgnoringCase(header.0, "content-disposition") && !IsType(header)
  {
    hide Printed, HasControl, NoBreak;
    PrintedClean(p.name, p.filename);
    NameOfDisposition();
  }

  lemma NameOfDisposition()
    ensures !HasControl(DISPOSITION) && Clean(DISPOSITION, ":") && TrimOws(DISPOSITION) == DISPOSITION
    ensures EqualsIgnoringCase(DISPOSITION, "content-disposition") && !EqualsIgnoringCase(DISPOSITION, "content-type")
  {
    assert !IsOws(DISPOSITION[0]) && !IsOws(DISPOSITION[|DISPOSITION| - 1]);
    assert TrimFront(DISPOSITION) == DISPOSITION && TrimBack(DISPOSITION) == DISPOSITION;
    assert DISPOSITION == ['C', 'o', 'n', 't', 'e', 'n', 't', '-', 'D', 'i', 's', 'p', 'o', 's', 'i', 't', 'i', 'o', 'n'];
  }

  lemma {:induction false} EscapeClean(s: string)
    requires !HasControl(s)
    ensures !HasControl(Escape(s))
  {
    if s != "" {
      ControlTail(s);
      EscapeClean(s[1..]);
    }
  }

  lemma NoControls(a: string, b: string)
    requires !HasControl(a) && !HasControl(b)
    ensures !HasControl(a + b)
  {
  }

  lemma QuoteClean(s: string)
    requires !HasControl(s)
    ensures !HasControl(Quote(s))
  {
    EscapeClean(s);
    NoControls("\"", Escape(s));
    NoControls("\"" + Escape(s), "\"");
  }

  lemma PrintedClean(name: string, filename: Option<string>)
    requires !HasControl(name) && (filename.Some? ==> !HasControl(filename.value))
    ensures TrimOws(Printed(name, filename)) == Printed(name, filename) && NoBreak(Printed(name, filename))
  {
    hide HasControl, Quote, TrimOws;
    QuoteClean(name);
    assert !HasControl(" name=") && !HasControl("form-data") && !HasControl(";") && !HasControl("; filename=")
      by { Literals(); }
    var file := FileParameter(filename);
    if filename.Some? {
      QuoteClean(filename.value);
      NoControls("; filename=", Quote(filename.value));
    } else {
      assert !HasControl("") by { Literals(); }
    }
    NoControls(" name=", Quote(name));
    NoControls(" name=" + Quote(name), file);
    NoControls(";", " name=" + Quote(name) + file);
    NoControls("form-data", ";" + (" name=" + Quote(name) + file));
    ControlFree(Printed(name, filename));
    PrintedEnds(name, filename);
    NotTrimmed(Printed(name, filename));
  }

  lemma Literals()
    ensures !HasControl(" name=") && !HasControl("form-data") && !HasControl(";") && !HasControl("; filename=")
    ensures !HasControl("")
  {
  }

  lemma PrintedEnds(name: string, filename: Option<string>)
    ensures var s := Printed(name, filename); s != "" && !IsOws(s[0]) && !IsOws(s[|s| - 1])
  {
    hide Escape;
    var s := Printed(name, filename);
    assert s[0] == 'f';
    assert s[|s| - 1] == '"';
  }

  lemma NotTrimmed(s: string)
    requires s != "" && !IsOws(s[0]) && !IsOws(s[|s| - 1])
    ensures TrimOws(s) == s
  {
  }

  lemma ControlFree(s: string)
    requires !HasControl(s)
    ensures NoBreak(s)
  {
    forall i | 0 <= i < |s| ensures !OccursAt(s, CRLF, i) {
      if OccursAt(s, CRLF, i) {
        assert s[i..i + 2][0] == s[i];
        assert IsControl(s[i]);
        assert false;
      }
    }
  }

  lemma GoodLines(p: Piece, c: Config)
    requires Printable(p, c)
    ensures forall i :: 0 <= i < |AllHeaders(p)| ==> GoodLine(AllHeaders(p)[i])
  {
    hide GoodLine, NoDelimiter, Printed;
    HeadersSplit(p.before, p.after);
    DispositionLine(p);
    forall i | 0 <= i < |p.before| ensures GoodLine(p.before[i]) {
      assert GoodHeader(p.before[i]);
    }
    forall i | 0 <= i < |p.after| ensures GoodLine(p.after[i]) {
      assert GoodHeader(p.after[i]);
    }
  }

  /** The printed headers are read back as name, file name and headers in order. */
  lemma HeadRoundTrip(p: Piece, c: Config)
    requires Printable(p, c)
    ensures ParseHead(Lines(AllHeaders(p)), c.limits) ==
            if |AllHeaders(p)| <= c.limits.maxPartHeaders && |p.name| <= c.limits.maxFieldNameBytes
               && (p.filename.Some? ==> |p.filename.value| <= c.limits.maxFilenameBytes)
            then Ok(Head(p.name, p.filename, AllHeaders(p))) else Err(LimitExceeded)
  {
    hide Lines, GoodLine, AddHeaderLines, AddAll, NoDelimiter, Printed, ParseDisposition, GoodHeaders, HasControl, CountBreaks;
    var block, none := Lines(AllHeaders(p)), HeaderState(None, false, []);
    GoodLines(p, c);
    LinesUnfold(AllHeaders(p));
    assert block[0..] == block;
    LinesAdded(none, block, 0, AllHeaders(p));
    BreaksCounted(block, 0, AllHeaders(p));
    HeadersAdded(p, c);
    QuotingRoundTrip(p.name, p.filename);
  }

  lemma HeadersAdded(p: Piece, c: Config)
    requires Printable(p, c)
    ensures var r := AddAll(HeaderState(None, false, []), AllHeaders(p));
            && r.Some? && r.value.disposition == Some(Printed(p.name, p.filename)) && r.value.headers == AllHeaders(p)
  {
    hide GoodLine, AddAll, NoDelimiter, Printed, GoodHeaders, HasControl, EqualsIgnoringCase, Line, AddHeaderLine;
    var none, header := HeaderState(None, false, []), (DISPOSITION, Printed(p.name, p.filename));
    HeadersSplit(p.before, p.after);
    AddAllSplit(none, p.before, [header] + p.after);
    assert p.before + ([header] + p.after) == AllHeaders(p);
    AddedPlain(none, p.before);
    var first := AddAll(none, p.before).value;
    DispositionLine(p);
    LineAdded(first, header);
    AddAllOne(first, header);
    AddAllSplit(first, [header], p.after);
    AddedPlain(AddAll(first, [header]).value, p.after);
    assert [] + p.before == p.before;
  }

  lemma AddAllOne(h: HeaderState, header: (string, string))
    ensures AddAll(h, [header]) == AddHeaderLine(h, Line(header))
  {
    hide AddHeaderLine, Line;
    assert [header][1..] == [];
    var more := AddHeaderLine(h, Line(header));
    assert more.Some? ==> AddAll(more.value, []) == more;
  }

  // ---------------------------------------------------------------- one part

  lemma BlankAt(s: string, i: int)
    ensures OccursAt(s, BLANK_LINE, i) <==> OccursAt(s, CRLF, i) && OccursAt(s, CRLF, i + 2)
  {
    BreakAtCr(s, i);
    BreakAtCr(s, i + 2);
    if 0 <= i && i + 4 <= |s| {
      assert s[i..i + 4] == [s[i], s[i + 1], s[i + 2], s[i + 3]];
    }
  }

  /** A line's first character is no line break. */
  lemma LineStarts(header: (string, string))
    requires GoodLine(header)
    ensures Line(header) != "" && Line(header)[0] != '\r'
  {
    hide TrimOws, NoBreak;
    NameNoCr(header.0);
    assert Line(header)[0] == header.0[0];
  }

  lemma LinesStart(headers: Headers)
    requires headers != [] && GoodLine(headers[0])
    ensures Lines(headers) != "" && Lines(headers)[0] != '\r'
  {
    hide Line, GoodLine;
    LineStarts(headers[0]);
    LinesUnfold(headers);
  }

  lemma {:induction false} NoBlankInside(headers: Headers, rest: string, i: nat)
    requires headers != [] && forall k :: 0 <= k < |headers| ==> GoodLine(headers[k])
    requires i < |Lines(headers)|
    ensures !OccursAt(Lines(headers) + (BLANK_LINE + rest), BLANK_LINE, i)
    decreases |headers|
  {
    hide Line, Lines, GoodLine, NoBreak, OccursAt;
    var line, tail := Line(headers[0]), BLANK_LINE + rest;
    LinesUnfold(headers);
    LineNoBreak(headers[0]);
    var t := Lines(headers) + tail;
    if |headers| == 1 {
      NoBlankInLine(line, "\n" + BLANK_LINE[2..] + rest, i);
      assert t == line + ("\r" + ("\n" + BLANK_LINE[2..] + rest));
    } else {
      var below := Lines(headers[1..]) + tail;
      assert t == line + ("\r" + ("\n" + below));
      LinesStart(headers[1..]);
      if i < |line| {
        NoBlankInLine(line, "\n" + below, i);
      } else if i < |line| + 2 {
        NoBlankBetween(line, below, i);
      } else {
        NoBlankInside(headers[1..], rest, i - |line| - 2);
        assert t[|line| + 2..] == below;
        OccursInSuffix(t, |line| + 2, BLANK_LINE, i - |line| - 2);
      }
    }
  }

  lemma NoBlankBetween(line: string, below: string, i: nat)
    requires |line| <= i < |line| + 2 && below != "" && below[0] != '\r'
    ensures !OccursAt(line + ("\r" + ("\n" + below)), BLANK_LINE, i)
  {
    hide OccursAt;
    var t := line + ("\r" + ("\n" + below));
    assert t[|line|] == '\r' && t[|line| + 1] == '\n' && t[|line| + 2] == below[0];
    BlankAt(t, i);
    BreakAtCr(t, i);
    BreakAtCr(t, i + 2);
  }

  lemma NoBlankInLine(line: string, rest: string, i: nat)
    requires NoBreak(line) && i < |line|
    ensures !OccursAt(line + ("\r" + rest), BLANK_LINE, i)
  {
    var t := line + ("\r" + rest);
    BlankAt(t, i);
    BreakAtCr(t, i);
    BreakAtCr(line, i);
  }

  /** The headers end at their blank line. */
  lemma BlankFound(t: string, offset: nat, headers: Headers, rest: string)
    requires offset <= |t| && headers != [] && forall k :: 0 <= k < |headers| ==> GoodLine(headers[k])
    requires t[offset..] == Lines(headers) + (BLANK_LINE + rest)
    ensures var end := offset + |Lines(headers)|;
            && Find(t, BLANK_LINE, offset) == Some(end) && end + 4 <= |t|
            && t[offset..end] == Lines(headers) && t[end + 4..] == rest
  {
    hide Line, Lines, GoodLine, Find;
    var block, s := Lines(headers), t[offset..];
    forall i | 0 <= i < |block| ensures !OccursAt(s, BLANK_LINE, i) {
      NoBlankInside(headers, rest, i);
    }
    assert s[|block|..|block| + 4] == BLANK_LINE;
    FindUnique(s, BLANK_LINE, 0, |block|);
    FindBehind(t, offset, BLANK_LINE);
    assert s[..|block|] == block && s[|block| + 4..] == rest;
  }

  /** The body ends at the delimiter printed behind it. */
  lemma DelimiterFound(t: string, start: nat, body: string, c: Config, suffix: string, rest: string)
    requires start <= |t| && t[start..] == body + (c.Next() + (suffix + rest)) && GoodSuffix(suffix)
    requires NoDelimiter(body, c)
    ensures var p := start + |body|;
            && SearchDelimiter(t, c.Next(), start) == Found(p, suffix == DASHES)
            && p + |c.Next()| + 2 <= |t| && t[start..p] == body && t[p + |c.Next()| + 2..] == rest
  {
    hide SearchDelimiter, NoDelimiter, Config.Next, DelimiterAt;
    var d, q := c.Next(), start + |body|;
    var n := q + |d| + 2;
    var window := body + d + suffix;
    WindowOf(t, start, body, d, suffix, rest);
    DelimiterInWindow(t, start, n, d, |body|);
    forall i | start <= i < q ensures !DelimiterAt(t, d, i) {
      NoneInside(body, c, suffix, i - start);
      DelimiterInWindow(t, start, n, d, i - start);
    }
    NextSome(c);
    SearchMeaning(t, d, start);
    FirstIsFound(t, d, start, q, SearchDelimiter(t, d, start));
  }

  lemma WindowOf(t: string, start: nat, body: string, d: string, suffix: string, rest: string)
    requires start <= |t| && t[start..] == body + (d + (suffix + rest)) && GoodSuffix(suffix)
    ensures var q := start + |body|;
            var n := q + |d| + 2;
            && n <= |t| && t[start..n] == body + d + suffix && t[n..] == rest && t[start..q] == body
            && t[q + |d|..n] == suffix && DelimiterAt(body + d + suffix, d, |body|)
  {
    var window := body + d + suffix;
    var q := start + |body|;
    var n := q + |d| + 2;
    assert t[start..] == window + rest;
    assert t[start..n] == window by { assert t[start..][..n - start] == window; }
    assert window[|body|..|body| + |d|] == d && window[|body| + |d|..|body| + |d| + 2] == suffix;
    assert t[start..][|body| + |d|..|body| + |d| + 2] == suffix;
    assert t[start..][|body| + |d| + 2..] == rest;
    assert t[start..][..|body|] == body;
  }

  lemma NoneInside(body: string, c: Config, suffix: string, i: nat)
    requires NoDelimiter(body, c) && GoodSuffix(suffix) && i < |body|
    ensures !DelimiterAt(body + c.Next() + suffix, c.Next(), i)
  {
  }

  // ---------------------------------------------------------------- the form

  lemma {:induction false} BodyBytesSnoc(parts: seq<Part>, part: Part)
    ensures BodyBytes(parts + [part]) == BodyBytes(parts) + |part.body|
  {
    assert (parts + [part])[..|parts|] == parts;
  }

  lemma PrintUnfold(pieces: seq<Piece>, c: Config, tail: string)
    requires pieces != []
    ensures PrintPieces(pieces, c, tail) ==
            Lines(AllHeaders(pieces[0])) + (BLANK_LINE + (pieces[0].body + (c.Next() + Suffix(pieces[1..], c, tail))))
    ensures |pieces| == 1 ==> Suffix(pieces[1..], c, tail) == DASHES + tail
    ensures |pieces| > 1 ==> Suffix(pieces[1..], c, tail) == CRLF + PrintPieces(pieces[1..], c, tail)
  {
  }

  predicate GoodTailText(tail: string) { tail == "" || tail == CRLF }

  lemma EndReached(t: string, offset: nat, tail: string)
    requires offset <= |t| && t[offset..] == tail && GoodTailText(tail)
    ensures EndsAt(t, offset)
  {
    if tail == CRLF {
      assert t[offset..][..2] == t[offset..offset + 2];
    }
  }

  /** From the start of a printed piece. */
  lemma {:induction false} PiecesRoundTrip(
      t: string, offset: nat, pieces: seq<Piece>, done: seq<Part>, c: Config, tail: string)
    requires offset <= |t| && pieces != [] && AllPrintable(pieces, c) && GoodTailText(tail)
    requires t[offset..] == PrintPieces(pieces, c, tail)
    ensures FormFrom(t, offset, done, c) ==
            if AllFit(pieces, |done|, BodyBytes(done), c) then Ok(done + AsParts(pieces)) else Err(LimitExceeded)
    decreases |pieces|
  {
    hide Find, SearchDelimiter, ParseHead, Lines, Printable, PrintPieces, Suffix, AllHeaders, FormBody, Fits, Config.Next;
    var p, rest := pieces[0], pieces[1..];
    assert Printable(p, c);
    PrintUnfold(pieces, c, tail);
    PieceStart(t, offset, p, c, Suffix(rest, c, tail));
    var start := offset + |Lines(AllHeaders(p))| + 4;
    if |Lines(AllHeaders(p))| <= c.limits.maxPartHeaderBytes && HeadFits(p, c) {
      BodyRoundTrip(t, start, pieces, done, c, tail);
    } else {
      NotFit(p, |done|, BodyBytes(done), c);
    }
  }

  predicate HeadFits(p: Piece, c: Config) {
    && |AllHeaders(p)| <= c.limits.maxPartHeaders && |p.name| <= c.limits.maxFieldNameBytes
    && (p.filename.Some? ==> |p.filename.value| <= c.limits.maxFilenameBytes)
  }

  lemma NotFit(p: Piece, count: nat, bytes: nat, c: Config)
    requires c.limits.maxPartHeaderBytes < |Lines(AllHeaders(p))| || !HeadFits(p, c)
    ensures !Fits(p, count, bytes, c)
  {
    hide Lines, AllHeaders;
  }

  /** The parser reads the piece's head and goes on with its body. */
  lemma PieceStart(t: string, offset: nat, p: Piece, c: Config, rest: string)
    requires offset <= |t| && Printable(p, c)
    requires t[offset..] == Lines(AllHeaders(p)) + (BLANK_LINE + (p.body + (c.Next() + rest)))
    ensures var size := |Lines(AllHeaders(p))|;
            && offset < |t| && Find(t, BLANK_LINE, offset) == Some(offset + size) && offset + size + 4 <= |t|
            && t[offset + size + 4..] == p.body + (c.Next() + rest)
            && ParseHead(t[offset..offset + size], c.limits) ==
               if HeadFits(p, c) then Ok(Head(p.name, p.filename, AllHeaders(p))) else Err(LimitExceeded)
  {
    hide Find, ParseHead, Lines, Config.Next, Printable, GoodLine;
    GoodLines(p, c);
    HeadRoundTrip(p, c);
    BlankFound(t, offset, AllHeaders(p), p.body + (c.Next() + rest));
  }

  /** The part limits, as the parser checks them once the body is known. */
  lemma AcceptedFits(p: Piece, done: seq<Part>, c: Config)
    requires |Lines(AllHeaders(p))| <= c.limits.maxPartHeaderBytes && HeadFits(p, c)
    ensures AcceptPart(AsPart(p).head, p.body, done, c) ==
            if Fits(p, |done|, BodyBytes(done), c) then None else Some(LimitExceeded)
  {
    hide Lines, AllHeaders, BodyBytes;
  }

  lemma BodyUnfold(t: string, start: nat, position: nat, isFinal: bool, head: Head, done: seq<Part>, c: Config)
    requires SearchDelimiter(t, c.Next(), start) == Found(position, isFinal)
    ensures start <= position && position + |c.Next()| + 2 <= |t|
    ensures var payload, next := t[start..position], position + |c.Next()| + 2;
            var refused, parts := AcceptPart(head, payload, done, c), done + [Part(head, payload)];
            FormBody(t, start, head, done, c) ==
              if refused.Some? then Err(refused.value)
              else if isFinal then (if EndsAt(t, next) then Ok(parts) else Err(MalformedBody))
              else FormFrom(t, next, parts, c)
  {
    hide FormFrom, EndsAt, AcceptPart;
  }

  lemma {:induction false} BodyRoundTrip(
      t: string, start: nat, pieces: seq<Piece>, done: seq<Part>, c: Config, tail: string)
    requires start <= |t| && pieces != [] && AllPrintable(pieces, c) && GoodTailText(tail)
    requires t[start..] == pieces[0].body + (c.Next() + Suffix(pieces[1..], c, tail))
    requires |Lines(AllHeaders(pieces[0]))| <= c.limits.maxPartHeaderBytes && HeadFits(pieces[0], c)
    ensures FormBody(t, start, AsPart(pieces[0]).head, done, c) ==
            if AllFit(pieces, |done|, BodyBytes(done), c) then Ok(done + AsParts(pieces)) else Err(LimitExceeded)
    decreases |pieces|, 0
  {
    hide SearchDelimiter, Lines, Printable, PrintPieces, Suffix, AllHeaders, FormFrom, FormBody, Config.Next, EndsAt, Fits, HeadFits,
         AcceptPart, BodyBytes, AllFit, AsParts;
    var p, rest := pieces[0], pieces[1..];
    assert Printable(p, c);
    PrintUnfold(pieces, c, tail);
    FitUnfold(pieces, |done|, BodyBytes(done), c);
    var last := |pieces| == 1;
    var suffix := if last then DASHES else CRLF;
    var below := if last then tail else PrintPieces(rest, c, tail);
    BodyCanEnd(p, c);
    DelimiterFound(t, start, p.body, c, suffix, below);
    var position := start + |p.body|;
    BodyUnfold(t, start, position, last, AsPart(p).head, done, c);
    AcceptedFits(p, done, c);
    BodyBytesSnoc(done, AsPart(p));
    assert done + [AsPart(p)] + AsParts(rest) == done + AsParts(pieces);
    assert done + [AsPart(p)] + [] == done + [AsPart(p)];
    assert CRLF[0] != DASHES[0];
    if last {
      EndReached(t, position + |c.Next()| + 2, tail);
    } else {
      forall i | 0 <= i < |rest| ensures Printable(rest[i], c) {
        assert rest[i] == pieces[i + 1];
      }
      PiecesRoundTrip(t, position + |c.Next()| + 2, rest, done + [AsPart(p)], c, tail);
    }
  }

  lemma FitUnfold(pieces: seq<Piece>, count: nat, bytes: nat, c: Config)
    requires pieces != []
    ensures AllFit(pieces, count, bytes, c) <==>
              Fits(pieces[0], count, bytes, c) && AllFit(pieces[1..], count + 1, bytes + |pieces[0].body|, c)
    ensures AsParts(pieces) == [AsPart(pieces[0])] + AsParts(pieces[1..])
    ensures |pieces| == 1 ==> AllFit(pieces[1..], count + 1, bytes + |pieces[0].body|, c) && AsParts(pieces[1..]) == []
  {
    hide Fits, AsPart;
  }

  lemma BodyCanEnd(p: Piece, c: Config)
    requires Printable(p, c)
    ensures NoDelimiter(p.body, c)
  {
  }

  /** Any form that may be printed is read back, parts, names, file names, headers and bodies in order, or is
      refused for exactly the limits it exceeds. */
  lemma FormRoundTrip(pieces: seq<Piece>, c: Config, tail: string)
    requires AllPrintable(pieces, c) && GoodTailText(tail)
    ensures var t := Print(pieces, c, tail);
            ParseForm(t, c) ==
            if (c.limits.maxTotalBytes == 0 || |t| <= c.limits.maxTotalBytes) && AllFit(pieces, 0, 0, c)
            then Ok(AsParts(pieces)) else Err(LimitExceeded)
  {
    hide FormFrom, PrintPieces, AllPrintable, AllFit, AsParts, EndsAt, Config.First;
    var t, first := Print(pieces, c, tail), c.First();
    assert t[..|first|] == first;
    var rest := Suffix(pieces, c, tail);
    assert t[|first|..] == rest;
    assert t[|first|..|first| + 2] == rest[..2];
    if pieces == [] {
      assert t[|first| + 2..] == tail by { assert rest[2..] == tail; }
      EndReached(t, |first| + 2, tail);
      NothingToFit(c);
    } else {
      assert t[|first| + 2..] == PrintPieces(pieces, c, tail) by { assert rest[2..] == PrintPieces(pieces, c, tail); }
      PiecesRoundTrip(t, |first| + 2, pieces, [], c, tail);
      assert [] + AsParts(pieces) == AsParts(pieces);
    }
  }

  lemma NothingToFit(c: Config)
    ensures AllFit([], 0, 0, c) && AsParts([]) == []
  {
  }

  /** So does the stream, however the printed form is cut and the stream paused, when the header blocks leave
      it room. */
  lemma StreamRoundTrip(pieces: seq<Piece>, c: Config, tail: string, events: seq<Event>, pauses: Pauses)
    requires AllPrintable(pieces, c) && GoodTailText(tail) && AllFit(pieces, 0, 0, c)
    requires c.limits.maxTotalBytes == 0 || |Print(pieces, c, tail)| <= c.limits.maxTotalBytes
    requires DataOf(events) == Print(pieces, c, tail)
    ensures ParseForm(Print(pieces, c, tail), c).Ok?
    ensures var s := Run(FRESH, events, c, pauses);
            Room(Print(pieces, c, tail), c) && !s.paused ==> s.phase.Done? && s.parts == AsParts(pieces)
  {
    hide ParseForm, Run, Room, Print, AllFit, AllPrintable, AsParts;
    FormRoundTrip(pieces, c, tail);
    var t := Print(pieces, c, tail);
    if Room(t, c) {
      StreamRefinesForm(t, c, AsParts(pieces), events, pauses);
    }
  }

  // ---------------------------------------------------------------- what every accepted form says

  predicate IsDisposition(header: (string, string)) { EqualsIgnoringCase(header.0, "content-disposition") }

  /** Header `k` is the only disposition. */
  predicate OnlyDisposition(headers: Headers, k: nat) {
    && k < |headers| && IsDisposition(headers[k])
    && forall j :: 0 <= j < |headers| && j != k ==> !IsDisposition(headers[j])
  }

  /** The disposition remembered is that of the one such header read so far. */
  ghost predicate Remembers(h: HeaderState) {
    match h.disposition
    case None => forall j :: 0 <= j < |h.headers| ==> !IsDisposition(h.headers[j])
    case Some(value) => exists k: nat :: OnlyDisposition(h.headers, k) && h.headers[k].1 == value
  }

  /** What a part says, whoever printed it: its name and file name are what its one disposition header gives,
      and it is within the limits. */
  ghost predicate Sound(part: Part, c: Config) {
    && (exists k: nat :: OnlyDisposition(part.head.headers, k)
          && ParseDisposition(part.head.headers[k].1) == Some(Parsed(part.head.name, part.head.filename)))
    && |part.head.name| <= c.limits.maxFieldNameBytes
    && (match part.head.filename
        case None => |part.body| <= c.limits.maxFieldBytes
        case Some(file) => |file| <= c.limits.maxFilenameBytes && |part.body| <= c.limits.maxFileBytes)
  }

  lemma RemembersMore(h: HeaderState, line: string)
    requires Remembers(h) && AddHeaderLine(h, line).Some?
    ensures Remembers(AddHeaderLine(h, line).value)
  {
    hide EqualsIgnoringCase, TrimOws, HasControl, Until;
    var r := AddHeaderLine(h, line).value;
    var n := |h.headers|;
    assert r.headers[..n] == h.headers && |r.headers| == n + 1;
    assert forall j :: 0 <= j < n ==> r.headers[j] == h.headers[j];
    if h.disposition.Some? {
      var k: nat :| OnlyDisposition(h.headers, k) && h.headers[k].1 == h.disposition.value;
      assert OnlyDisposition(r.headers, k);
    } else if r.disposition.Some? {
      assert OnlyDisposition(r.headers, n);
    }
  }

  lemma {:induction false} RemembersAll(h: HeaderState, block: string, offset: nat)
    requires offset <= |block| && Remembers(h) && AddHeaderLines(h, block, offset).Some?
    ensures Remembers(AddHeaderLines(h, block, offset).value)
    decreases |block| - offset
  {
    hide Find, AddHeaderLine, Remembers;
    if offset < |block| {
      match Find(block, CRLF, offset)
      case None => RemembersMore(h, block[offset..]);
      case Some(end) =>
        RemembersMore(h, block[offset..end]);
        RemembersAll(AddHeaderLine(h, block[offset..end]).value, block, end + 2);
    }
  }

  lemma HeadIsSound(block: string, limits: Limits)
    requires ParseHead(block, limits).Ok?
    ensures var head := ParseHead(block, limits).value;
            && (exists k: nat :: OnlyDisposition(head.headers, k)
                  && ParseDisposition(head.headers[k].1) == Some(Parsed(head.name, head.filename)))
            && |head.name| <= limits.maxFieldNameBytes
            && (head.filename.Some? ==> |head.filename.value| <= limits.maxFilenameBytes)
  {
    hide ParseDisposition, AddHeaderLines, CountHeaderLines, IsDisposition;
    var none := HeaderState(None, false, []);
    RemembersAll(none, block, 0);
    var h := AddHeaderLines(none, block, 0).value;
    var k: nat :| OnlyDisposition(h.headers, k) && h.headers[k].1 == h.disposition.value;
  }

  ghost predicate AllSound(parts: seq<Part>, c: Config) {
    && (forall i :: 0 <= i < |parts| ==> Sound(parts[i], c))
    && (parts != [] ==> |parts| <= c.limits.maxParts && (c.maxMemoryBytes == 0 || BodyBytes(parts) <= c.maxMemoryBytes))
  }

  lemma SoundMore(parts: seq<Part>, head: Head, payload: string, c: Config)
    requires AllSound(parts, c) && AcceptPart(head, payload, parts, c).None?
    requires exists k: nat :: OnlyDisposition(head.headers, k)
               && ParseDisposition(head.headers[k].1) == Some(Parsed(head.name, head.filename))
    requires |head.name| <= c.limits.maxFieldNameBytes
    requires head.filename.Some? ==> |head.filename.value| <= c.limits.maxFilenameBytes
    ensures AllSound(parts + [Part(head, payload)], c)
  {
    hide ParseDisposition, OnlyDisposition, BodyBytes;
    BodyBytesSnoc(parts, Part(head, payload));
    assert Sound(Part(head, payload), c);
  }

  lemma {:induction false} FormFromSound(t: string, offset: nat, done: seq<Part>, c: Config)
    requires AllSound(done, c) && FormFrom(t, offset, done, c).Ok?
    ensures AllSound(FormFrom(t, offset, done, c).value, c)
    decreases |t| - offset
  {
    hide Find, SearchDelimiter, ParseHead, AcceptPart, AllSound, OnlyDisposition, ParseDisposition, EndsAt, Config.Next;
    var end := Find(t, BLANK_LINE, offset).value;
    HeadIsSound(t[offset..end], c.limits);
    var head := ParseHead(t[offset..end], c.limits).value;
    var found := SearchDelimiter(t, c.Next(), end + 4);
    BodyUnfold(t, end + 4, found.position, found.isFinal, head, done, c);
    var payload := t[end + 4..found.position];
    SoundMore(done, head, payload, c);
    if !found.isFinal {
      FormFromSound(t, found.position + |c.Next()| + 2, done + [Part(head, payload)], c);
    }
  }

  /** Every accepted form is within the limits, and each of its parts says what its disposition header says. */
  lemma AcceptedIsSound(t: string, c: Config)
    requires ParseForm(t, c).Ok?
    ensures AllSound(ParseForm(t, c).value, c) && (c.limits.maxTotalBytes == 0 || |t| <= c.limits.maxTotalBytes)
  {
    hide FormFrom, Sound, EndsAt, Config.First;
    var start := |c.First()|;
    if !PairAt(t, start, DASHES) {
      FormFromSound(t, start + 2, [], c);
    }
  }
}
