/** Percent-encoded paths (section 2.1 of RFC 3986): what an encoder may write is what the router reads. */
module RouteEncoding {
  import opened Text
  import opened RoutePath
  import opened Trie
  import opened RouteText

  /** One character of a segment as written: itself, or `%` and two digits in either case. */
  datatype Unit = Literal(c: char) | Escaped(code: nat, upperHigh: bool, upperLow: bool)

  predicate Writable(u: Unit) {
    match u
    case Literal(c) => c != '%'
    case Escaped(code, _, _) => code < 256
  }

  predicate AllWritable(units: seq<Unit>) {
    forall i :: 0 <= i < |units| ==> Writable(units[i])
  }

  const UPPER := "0123456789ABCDEF"
  const LOWER := "0123456789abcdef"

  function Digit(value: nat, upper: bool): char
    requires value < 16
  {
    if upper then UPPER[value] else LOWER[value]
  }

  /** Reading a digit undoes writing it, and nothing else is a digit. */
  lemma DigitRoundTrip(value: nat, upper: bool, c: char)
    requires value < 16
    ensures HexValue(Digit(value, upper)) == value
    ensures HexValue(c) == value <==> c == Digit(value, true) || c == Digit(value, false)
    ensures HexValue(c) < 0 <==> c !in UPPER && c !in LOWER
  {
    assert UPPER[0] == '0' && UPPER[10] == 'A' && LOWER[10] == 'a';
    if 0 <= HexValue(c) {
      assert c in UPPER || c in LOWER by {
        assert UPPER[HexValue(c)] == c || LOWER[HexValue(c)] == c;
      }
    }
  }

  function Written(u: Unit): string
    requires Writable(u)
  {
    match u
    case Literal(c) => [c]
    case Escaped(code, high, low) => ['%', Digit(code / 16, high), Digit(code % 16, low)]
  }

  function WrittenAll(units: seq<Unit>): string
    requires AllWritable(units)
  {
    if units == [] then "" else Written(units[0]) + WrittenAll(units[1..])
  }

  function Meaning(units: seq<Unit>): string
    requires AllWritable(units)
  {
    if units == [] then ""
    else [if units[0].Literal? then units[0].c else units[0].code as char] + Meaning(units[1..])
  }

  /** Whatever is escaped and in whichever case, decoding gives the meant characters. */
  lemma {:induction false} DecodeWritten(units: seq<Unit>)
    requires AllWritable(units)
    ensures DecodeSegment(WrittenAll(units)) == Some(Meaning(units))
  {
    if units != [] {
      var u, rest := units[0], WrittenAll(units[1..]);
      DecodeWritten(units[1..]);
      var whole := Written(u) + rest;
      if u.Literal? {
        assert whole[1..] == rest;
      } else {
        DigitRoundTrip(u.code / 16, u.upperHigh, ' ');
        DigitRoundTrip(u.code % 16, u.upperLow, ' ');
        assert whole[3..] == rest;
      }
    }
  }

  /** The first unit of a segment that is decoded. */
  lemma FirstUnit(s: string) returns (u: Unit)
    requires s != "" && DecodeSegment(s).Some?
    ensures Writable(u) && Written(u) <= s && DecodeSegment(s[|Written(u)|..]).Some?
  {
    u := Literal(s[0]);
    if s[0] == '%' {
      var high, low := HexValue(s[1]), HexValue(s[2]);
      DigitRoundTrip(high, true, s[1]);
      DigitRoundTrip(low, true, s[2]);
      u := Escaped(16 * high + low, s[1] == Digit(high, true), s[2] == Digit(low, true));
      assert u.code / 16 == high && u.code % 16 == low;
      assert Written(u) == ['%', s[1], s[2]] == s[..3];
    }
  }

  /** Only what an encoder may write is decoded. */
  lemma {:induction false} DecodedIsWritten(s: string) returns (units: seq<Unit>)
    requires DecodeSegment(s).Some?
    ensures AllWritable(units) && s == WrittenAll(units) && DecodeSegment(s) == Some(Meaning(units))
    decreases |s|
  {
    hide DecodeSegment, Meaning, Written;
    units := [];
    if s != "" {
      var u := FirstUnit(s);
      WrittenSome(u);
      var rest := DecodedIsWritten(s[|Written(u)|..]);
      units := [u] + rest;
      assert units[1..] == rest;
    }
    DecodeWritten(units);
  }

  lemma WrittenSome(u: Unit)
    requires Writable(u)
    ensures Written(u) != ""
  {
  }

  // ---------------------------------------------------------------- whole paths

  /** A segment as written: not empty, and without a bare slash. */
  predicate IsSegment(units: seq<Unit>) {
    AllWritable(units) && units != [] && Literal('/') !in units
  }

  lemma {:induction false} WrittenClean(units: seq<Unit>)
    requires AllWritable(units) && Literal('/') !in units
    ensures Clean(WrittenAll(units), "/")
  {
    if units != [] {
      assert units[0] in units && forall u :: u in units[1..] ==> u in units;
      WrittenClean(units[1..]);
      if units[0].Escaped? {
        DigitRoundTrip(units[0].code / 16, units[0].upperHigh, '/');
        DigitRoundTrip(units[0].code % 16, units[0].upperLow, '/');
      }
      CleanConcat(Written(units[0]), WrittenAll(units[1..]), "/");
    }
  }

  /** Splitting undoes joining: single slashes between the segments and none around them. */
  lemma {:induction false} SegmentsOfJoin(segments: seq<string>)
    requires forall i :: 0 <= i < |segments| ==> segments[i] != "" && Clean(segments[i], "/")
    ensures Segments(Join(segments)) == segments
    ensures segments != [] ==> Join(segments)[0] != '/' && Join(segments)[|Join(segments)| - 1] != '/'
  {
    hide Segments;
    if |segments| == 0 {
      SegmentsUnfold("");
    } else {
      SegmentAlone(segments[0]);
      assert segments[0][0] !in "/" && segments[0][|segments[0]| - 1] !in "/";
      if |segments| > 1 {
        SegmentsOfJoin(segments[1..]);
        SegmentsConcat(segments[0], Join(segments[1..]));
      } else {
        assert segments == [segments[0]];
      }
    }
  }

  lemma SegmentAlone(segment: string)
    requires segment != "" && Clean(segment, "/")
    ensures Segments(segment) == [segment]
  {
    hide Segments;
    UntilAll(segment, "/");
    SegmentsUnfold(segment);
    assert segment[..|segment|] == segment;
  }

  predicate AllSegments(segments: seq<seq<Unit>>) {
    forall i :: 0 <= i < |segments| ==> IsSegment(segments[i])
  }

  function WrittenEach(segments: seq<seq<Unit>>): seq<string>
    requires AllSegments(segments)
  {
    if segments == [] then [] else assert IsSegment(segments[0]); [WrittenAll(segments[0])] + WrittenEach(segments[1..])
  }

  function MeantEach(segments: seq<seq<Unit>>): seq<string>
    requires AllSegments(segments)
  {
    if segments == [] then [] else assert IsSegment(segments[0]); [Meaning(segments[0])] + MeantEach(segments[1..])
  }

  lemma {:induction false} DecodeEach(segments: seq<seq<Unit>>)
    requires AllSegments(segments)
    ensures var raw := WrittenEach(segments);
            && DecodeAll(raw) == Some(MeantEach(segments))
            && forall i :: 0 <= i < |raw| ==> raw[i] != "" && Clean(raw[i], "/")
  {
    hide DecodeSegment, WrittenAll, Meaning;
    if segments != [] {
      assert IsSegment(segments[0]);
      DecodeEach(segments[1..]);
      DecodeWritten(segments[0]);
      WrittenClean(segments[0]);
      SegmentSome(segments[0]);
      assert WrittenEach(segments)[1..] == WrittenEach(segments[1..]);
    }
  }

  lemma SegmentSome(units: seq<Unit>)
    requires AllWritable(units) && units != []
    ensures WrittenAll(units) != ""
  {
    WrittenSome(units[0]);
  }

  /** A path of written segments is read back: as written when matching is raw, as meant when it is decoded. */
  lemma PathRoundTrip(segments: seq<seq<Unit>>)
    requires AllSegments(segments)
    ensures var path := Parse("/" + Join(WrittenEach(segments)));
            && path.Path?
            && Selected(path, Raw) == WrittenEach(segments) && Selected(path, Decoded) == MeantEach(segments)
  {
    hide Segments, Join, DecodeAll, WrittenEach, MeantEach;
    var raw := WrittenEach(segments);
    DecodeEach(segments);
    SegmentsOfJoin(raw);
    SegmentsUnfold("");
    SegmentsConcat("", Join(raw));
    assert Segments("") == [] && [] + raw == raw;
    assert "" + "/" + Join(raw) == "/" + Join(raw);
  }

  // ---------------------------------------------------------------- patterns as text

  function StepText(step: Step): string {
    match step
    case Static(text) => text
    case Param(name) => ":" + name
    case Wild(name) => "*" + name
  }

  /** A step whose text needs no escape: a literal does not look like a parameter or a wildcard. */
  predicate PlainStep(step: Step) {
    && Clean(StepText(step), "/%")
    && (step.Static? ==> step.text != "" && step.text[0] !in ":*")
  }

  function StepTexts(p: Pattern): seq<string> {
    if p == [] then [] else [StepText(p[0])] + StepTexts(p[1..])
  }

  lemma {:induction false} PlainDecodes(s: string)
    requires Clean(s, "%")
    ensures DecodeSegment(s) == Some(s)
  {
    if s != "" {
      PlainDecodes(s[1..]);
      assert s == [s[0]] + s[1..];
    }
  }

  lemma {:induction false} TextsDecode(p: Pattern)
    requires forall i :: 0 <= i < |p| ==> PlainStep(p[i])
    ensures |StepTexts(p)| == |p| && DecodeAll(StepTexts(p)) == Some(StepTexts(p))
    ensures forall i :: 0 <= i < |p| ==> StepTexts(p)[i] == StepText(p[i]) != "" && Clean(StepTexts(p)[i], "/")
  {
    hide DecodeSegment;
    if p != [] {
      TextsDecode(p[1..]);
      PlainDecodes(StepText(p[0]));
      assert StepTexts(p)[1..] == StepTexts(p[1..]);
    }
  }

  lemma StepRead(step: Step)
    requires PlainStep(step)
    ensures StepOf(StepText(step), StepText(step)) == step
  {
    var raw := StepText(step);
    assert "*" <= raw <==> raw != "" && raw[0] == '*';
    assert ":" <= raw <==> raw != "" && raw[0] == ':';
    assert raw != "" ==> raw == [raw[0]] + raw[1..];
    assert !step.Static? ==> raw[1..] == step.name;
  }

  /** A pattern written as text stands for itself, whether matching is raw or decoded. */
  lemma PatternRoundTrip(p: Pattern, matching: Matching)
    requires forall i :: 0 <= i < |p| ==> PlainStep(p[i])
    ensures TextSteps("/" + Join(StepTexts(p)), matching) == Some(p)
  {
    hide StepText, PlainStep, StepOf, DecodeAll, Segments, Join;
    var texts := StepTexts(p);
    TextsDecode(p);
    SegmentsOfJoin(texts);
    SlashFirst(Join(texts));
    forall i | 0 <= i < |p| ensures StepOf(texts[i], texts[i]) == p[i] {
      StepRead(p[i]);
    }
    assert StepsOf(texts, texts) == p;
  }

  lemma SlashFirst(path: string)
    ensures Segments("/" + path) == Segments(path)
  {
    assert ("/" + path)[1..] == path;
  }
}
