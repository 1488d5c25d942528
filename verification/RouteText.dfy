/** Pattern and prefix text: how the router joins prefixes, and that joining text concatenates the
    patterns it stands for. */
module RouteText {
  import opened Text
  import opened RoutePath
  import opened Trie

  /** Drops trailing slashes, but keeps the first character. */
  function StripSlashes(s: string): (r: string)
    requires s != ""
    ensures r != "" && r[0] == s[0]
  {
    if |s| > 1 && s[|s| - 1] == '/' then StripSlashes(s[..|s| - 1]) else s
  }

  function NormalizePrefix(prefix: string): (r: string)
    ensures r == "" || r[0] == '/'
  {
    if prefix == "" || prefix == "/" then ""
    else StripSlashes(if prefix[0] != '/' then "/" + prefix else prefix)
  }

  function JoinPattern(prefix: string, pattern: string): (r: string)
    ensures r != "" && r[0] == '/'
  {
    var normalized := NormalizePrefix(prefix);
    if normalized == "" then
      if pattern == "" then "/" else if pattern[0] == '/' then pattern else "/" + pattern
    else if pattern == "" || pattern == "/" then normalized
    else normalized + (if pattern[0] != '/' then "/" else "") + pattern
  }

  /** The pattern a text stands for; none when an escape in it is malformed. */
  function TextSteps(text: string, matching: Matching): (r: Option<Pattern>) {
    var path := Parse(text);
    if path.Invalid? then None else Some(StepsOf(path.raw, Selected(path, matching)))
  }

  /** The pattern depends only on the segments. */
  lemma SameSegments(a: string, b: string, matching: Matching)
    requires Segments(a) == Segments(b)
    ensures TextSteps(a, matching) == TextSteps(b, matching)
  {
  }

  lemma TextStepsConcat(a: string, b: string, joined: string, matching: Matching)
    requires Segments(joined) == Segments(a) + Segments(b)
    requires TextSteps(a, matching).Some? && TextSteps(b, matching).Some?
    ensures TextSteps(joined, matching)
            == Some(TextSteps(a, matching).value + TextSteps(b, matching).value)
  {
    hide Segments, DecodeAll, StepOf;
    DecodeAllSplit(Segments(a), Segments(b));
    var steps := TextSteps(joined, matching).value;
    var parts := TextSteps(a, matching).value + TextSteps(b, matching).value;
    assert |steps| == |parts|;
    var selectedA, selectedB := Selected(Parse(a), matching), Selected(Parse(b), matching);
    assert Selected(Parse(joined), matching) == selectedA + selectedB;
    forall k | 0 <= k < |parts|
      ensures steps[k] == parts[k]
    {
      assert steps[k] == StepOf((Segments(a) + Segments(b))[k], (selectedA + selectedB)[k]);
    }
    assert steps == parts;
  }

  lemma LeadingSlash(s: string)
    ensures Segments("/" + s) == Segments(s)
  {
    SegmentsConcat("", s);
    assert "" + "/" + s == "/" + s;
    assert Segments("") == [];
  }

  lemma {:induction false} StripKeepsSegments(s: string)
    requires s != ""
    ensures Segments(StripSlashes(s)) == Segments(s)
    decreases |s|
  {
    hide Segments;
    if |s| > 1 && s[|s| - 1] == '/' {
      var front := s[..|s| - 1];
      SegmentsConcat(front, "");
      assert front + "/" + "" == s;
      EmptySegments();
      StripKeepsSegments(front);
    }
  }

  lemma EmptySegments()
    ensures Segments("") == [] && Segments("/") == []
  {
    LeadingSlash("");
    assert "/" + "" == "/";
    assert Until("", "/") == 0;
  }

  lemma NormalizeKeepsSegments(prefix: string)
    ensures Segments(NormalizePrefix(prefix)) == Segments(prefix)
  {
    hide Segments, StripSlashes;
    EmptySegments();
    if prefix != "" && prefix != "/" {
      LeadingSlash(prefix);
      StripKeepsSegments(if prefix[0] != '/' then "/" + prefix else prefix);
    }
  }

  /** Joining a prefix and a pattern concatenates their segments. */
  lemma JoinSegments(prefix: string, pattern: string)
    ensures Segments(JoinPattern(prefix, pattern)) == Segments(prefix) + Segments(pattern)
  {
    hide Segments, StripSlashes, NormalizePrefix;
    var normalized := NormalizePrefix(prefix);
    NormalizeKeepsSegments(prefix);
    EmptySegments();
    LeadingSlash(pattern);
    if normalized != "" && pattern != "" && pattern != "/" {
      if pattern[0] == '/' {
        SegmentsConcat(normalized, pattern[1..]);
        LeadingSlash(pattern[1..]);
        assert pattern == "/" + pattern[1..];
        assert normalized + "" + pattern == normalized + "/" + pattern[1..];
      } else {
        SegmentsConcat(normalized, pattern);
      }
    } else if normalized != "" {
      assert Segments(prefix) + [] == Segments(prefix);
    } else {
      assert [] + Segments(pattern) == Segments(pattern);
    }
  }

  /** So a pattern joined under a prefix stands for the prefix's steps followed by its own. */
  lemma JoinSteps(prefix: string, pattern: string, matching: Matching)
    requires TextSteps(prefix, matching).Some? && TextSteps(pattern, matching).Some?
    ensures TextSteps(JoinPattern(prefix, pattern), matching)
            == Some(TextSteps(prefix, matching).value + TextSteps(pattern, matching).value)
  {
    JoinSegments(prefix, pattern);
    TextStepsConcat(prefix, pattern, JoinPattern(prefix, pattern), matching);
  }
}
