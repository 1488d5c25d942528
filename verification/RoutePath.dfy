/** Paths and patterns as the router reads them: split at `/`, empty segments dropped, each segment
    percent-decoded. */
module RoutePath {
  import opened Text

  /** A parsed path; `Invalid` when some segment has a malformed percent escape. */
  datatype RoutePath = Invalid | Path(raw: seq<string>, decoded: seq<string>)

  datatype Matching = Raw | Decoded

  function DecodeSegment(s: string): (r: Option<string>) {
    if s == "" then Some("")
    else if s[0] != '%' then
      match DecodeSegment(s[1..])
      case None => None
      case Some(rest) => Some([s[0]] + rest)
    else if |s| < 3 || HexValue(s[1]) < 0 || HexValue(s[2]) < 0 then None
    else
      match DecodeSegment(s[3..])
      case None => None
      case Some(rest) => Some([(16 * HexValue(s[1]) + HexValue(s[2])) as char] + rest)
  }

  /** The non-empty pieces between slashes. */
  function Segments(path: string): (segments: seq<string>)
    ensures forall i :: 0 <= i < |segments| ==> segments[i] != "" && Clean(segments[i], "/")
  {
    var end := Until(path, "/");
    (if end == 0 then [] else [path[..end]])
    + (if end == |path| then [] else Segments(path[end + 1..]))
  }

  function DecodeAll(segments: seq<string>): (r: Option<seq<string>>)
    ensures r.Some? ==> |r.value| == |segments|
  {
    if segments == [] then Some([])
    else match (DecodeSegment(segments[0]), DecodeAll(segments[1..]))
         case (Some(first), Some(rest)) => Some([first] + rest)
         case _ => None
  }

  function Parse(path: string): (r: RoutePath)
    ensures r.Path? ==> |r.raw| == |r.decoded| && forall i :: 0 <= i < |r.raw| ==> r.raw[i] != ""
  {
    match DecodeAll(Segments(path))
    case None => Invalid
    case Some(decoded) => Path(Segments(path), decoded)
  }

  function Selected(path: RoutePath, matching: Matching): seq<string>
    requires path.Path?
  {
    if matching.Raw? then path.raw else path.decoded
  }

  function Join(segments: seq<string>): string {
    if segments == [] then ""
    else if |segments| == 1 then segments[0]
    else segments[0] + "/" + Join(segments[1..])
  }

  /** Puts a decoded prefix in front of what the rest decodes to. */
  function Prepend(front: string, rest: Option<string>): Option<string> {
    if rest.None? then None else Some(front + rest.value)
  }

  lemma PrependMore(a: string, b: string, rest: Option<string>)
    ensures Prepend(a, Prepend(b, rest)) == Prepend(a + b, rest)
  {
    if rest.Some? {
      assert a + (b + rest.value) == (a + b) + rest.value;
    }
  }

  // ---------------------------------------------------------------- the loops

  method DecodePathSegment(segment: string) returns (decoded: Option<string>)
    ensures decoded == DecodeSegment(segment)
  {
    var out := "";
    var offset := 0;
    assert segment[0..] == segment;
    ghost var all := DecodeSegment(segment);
    assert all.Some? ==> "" + all.value == all.value;
    while offset < |segment|
      invariant offset <= |segment|
      invariant DecodeSegment(segment) == Prepend(out, DecodeSegment(segment[offset..]))
    {
      ghost var rest := segment[offset..];
      ghost var before := out;
      if segment[offset] != '%' {
        assert rest[1..] == segment[offset + 1..];
        out := out + [segment[offset]];
        offset := offset + 1;
      } else {
        if offset + 2 >= |segment| {
          return None;
        }
        var high, low := HexValue(segment[offset + 1]), HexValue(segment[offset + 2]);
        if high < 0 || low < 0 {
          return None;
        }
        assert rest[3..] == segment[offset + 3..];
        out := out + [(16 * high + low) as char];
        offset := offset + 3;
      }
      PrependMore(before, out[|before|..], DecodeSegment(segment[offset..]));
    }
    assert segment[offset..] == "" && out + "" == out;
    decoded := Some(out);
  }

  method JoinRouteSegments(segments: seq<string>, first: nat) returns (joined: string)
    requires first <= |segments|
    ensures joined == Join(segments[first..])
  {
    joined := "";
    var index := first;
    while index < |segments|
      invariant first <= index <= |segments|
      invariant joined == Join(segments[first..index])
    {
      if index > first {
        joined := joined + "/";
      }
      joined := joined + segments[index];
      JoinSnoc(segments[first..index], segments[index]);
      assert segments[first..index + 1] == segments[first..index] + [segments[index]];
      index := index + 1;
    }
    assert segments[first..] == segments[first..index];
  }

  lemma {:induction false} JoinSnoc(segments: seq<string>, last: string)
    ensures Join(segments + [last]) == if segments == [] then last else Join(segments) + "/" + last
  {
    if |segments| <= 1 {
      assert |segments| == 1 ==> (segments + [last])[1..] == [last];
    } else {
      assert (segments + [last])[1..] == segments[1..] + [last];
      JoinSnoc(segments[1..], last);
    }
  }

  lemma {:induction false} SegmentsUnfold(path: string)
    ensures var end := Until(path, "/");
            Segments(path) == (if end == 0 then [] else [path[..end]])
                              + (if end == |path| then [] else Segments(path[end + 1..]))
  {
    hide Until;
  }

  lemma {:induction false} DecodeAllSplit(a: seq<string>, b: seq<string>)
    ensures DecodeAll(a + b) == if DecodeAll(a).Some? && DecodeAll(b).Some?
                                then Some(DecodeAll(a).value + DecodeAll(b).value) else None
  {
    hide DecodeSegment;
    if a == [] {
      assert a + b == b;
      assert DecodeAll(b).Some? ==> [] + DecodeAll(b).value == DecodeAll(b).value;
    } else {
      assert (a + b)[1..] == a[1..] + b && (a + b)[0] == a[0];
      DecodeAllSplit(a[1..], b);
      if DecodeAll(a).Some? && DecodeAll(b).Some? {
        var first, rest := DecodeSegment(a[0]).value, DecodeAll(a[1..]).value;
        assert [first] + (rest + DecodeAll(b).value) == ([first] + rest) + DecodeAll(b).value;
      }
    }
  }

  lemma DecodeAllOne(segment: string)
    ensures DecodeAll([segment])
            == if DecodeSegment(segment).Some? then Some([DecodeSegment(segment).value]) else None
  {
    hide DecodeSegment;
    assert [segment][1..] == [] && DecodeAll([]) == Some([]);
    var d := DecodeSegment(segment);
    assert d.Some? ==> [d.value] + [] == [d.value];
  }

  /** The segments from an offset on: the one up to the next slash unless empty, then the rest. */
  lemma SegmentsStep(path: string, offset: nat, end: nat)
    requires offset <= end <= |path| && end == offset + Until(path[offset..], "/")
    ensures Segments(path[offset..]) == (if end == offset then [] else [path[offset..end]])
                                        + (if end == |path| then [] else Segments(path[end + 1..]))
  {
    hide Until, Segments;
    var rest := path[offset..];
    SegmentsUnfold(rest);
    assert rest[..end - offset] == path[offset..end];
    assert end < |path| ==> rest[end - offset + 1..] == path[end + 1..];
  }

  method ParseRoutePath(path: string) returns (parsed: RoutePath)
    ensures parsed == Parse(path)
  {
    hide Until, Segments, DecodeAll, DecodeSegment;
    var raw: seq<string>, decoded: seq<string> := [], [];
    var offset := 0;
    assert path[0..] == path;
    DecodeAllNone();
    while true
      invariant offset <= |path|
      invariant Segments(path) == raw + Segments(path[offset..])
      invariant DecodeAll(raw) == Some(decoded)
      decreases |path| - offset
    {
      var end := offset + Until(path[offset..], "/");
      SegmentsStep(path, offset, end);
      ghost var after := if end == |path| then [] else Segments(path[end + 1..]);
      if offset < end {
        var segment := path[offset..end];
        var d := DecodePathSegment(segment);
        DecodeAllOne(segment);
        DecodeAllSplit([segment], after);
        DecodeAllSplit(raw, [segment]);
        DecodeAllSplit(raw, [segment] + after);
        if d.None? {
          return Invalid;
        }
        assert raw + ([segment] + after) == (raw + [segment]) + after;
        raw, decoded := raw + [segment], decoded + [d.value];
      } else {
        assert raw + ([] + after) == raw + after;
      }
      if end == |path| {
        assert raw + [] == raw;
        return Path(raw, decoded);
      }
      offset := end + 1;
    }
  }

  lemma DecodeAllNone()
    ensures DecodeAll([]) == Some([])
  {
  }

  /** Segments of a concatenation around a slash. */
  lemma {:induction false} SegmentsConcat(a: string, b: string)
    ensures Segments(a + "/" + b) == Segments(a) + Segments(b)
    decreases |a|
  {
    hide Until, Segments;
    var s := a + "/" + b;
    var end := Until(a, "/");
    SegmentsUnfold(a);
    SegmentsUnfold(s);
    if end == |a| {
      assert s == a + ("/" + b);
      UntilClean(a, "/" + b, "/");
      assert a[..end] == a && s[..end] == a && s[end + 1..] == b;
    } else {
      var rest := a[end + 1..];
      assert s == a[..end] + ("/" + (rest + "/" + b));
      UntilClean(a[..end], "/" + (rest + "/" + b), "/");
      assert s[..end] == a[..end] && s[end + 1..] == rest + "/" + b;
      SegmentsConcat(rest, b);
      var head := if end == 0 then [] else [a[..end]];
      assert head + (Segments(rest) + Segments(b)) == (head + Segments(rest)) + Segments(b);
    }
  }
}
