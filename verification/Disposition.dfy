/** The quoted-parameter grammar of `Content-Disposition: form-data` (section 4.2 of RFC 7578): splitting
    at unquoted separators, reading quoted values, and collecting `name` and `filename`. */
module Disposition {
  import opened Text

  const BREAKS := "\r\n\0"

  predicate IsOws(c: char) { c == ' ' || c == '\t' }

  function TrimFront(s: string): string {
    if s != "" && IsOws(s[0]) then TrimFront(s[1..]) else s
  }

  function TrimBack(s: string): (r: string)
    ensures |r| <= |s| && r == s[..|r|]
  {
    if s != "" && IsOws(s[|s| - 1]) then TrimBack(s[..|s| - 1]) else s
  }

  function TrimOws(s: string): string { TrimBack(TrimFront(s)) }

  predicate EqualsIgnoringCase(a: string, b: string) {
    |a| == |b| && forall i :: 0 <= i < |a| ==> Lower(a[i]) == Lower(b[i])
  }

  predicate IsControl(c: char) { c as int < 0x20 || c as int == 0x7f }

  predicate HasControl(s: string) { exists i :: 0 <= i < |s| && IsControl(s[i]) }

  // ---------------------------------------------------------------- scanning around quotes

  /** Where the first `needle` outside quotes is, or the end. A backslash escapes only inside quotes. */
  function Unquoted(s: string, needle: char, quoted: bool, escaped: bool): (r: nat)
    ensures r <= |s|
    ensures r < |s| ==> s[r] == needle
  {
    if s == "" then 0
    else if escaped then 1 + Unquoted(s[1..], needle, quoted, false)
    else if quoted && s[0] == '\\' then 1 + Unquoted(s[1..], needle, quoted, true)
    else if s[0] == '"' then 1 + Unquoted(s[1..], needle, !quoted, false)
    else if !quoted && s[0] == needle then 0
    else 1 + Unquoted(s[1..], needle, quoted, false)
  }

  method FindUnquoted(value: string, needle: char, offset: nat) returns (r: nat)
    requires offset <= |value|
    ensures r == offset + Unquoted(value[offset..], needle, false, false)
  {
    var quoted, escaped := false, false;
    r := offset;
    while r < |value|
      invariant offset <= r <= |value|
      invariant offset + Unquoted(value[offset..], needle, false, false)
                == r + Unquoted(value[r..], needle, quoted, escaped)
    {
      var c := value[r];
      assert value[r..][1..] == value[r + 1..];
      if escaped {
        escaped := false;
      } else if quoted && c == '\\' {
        escaped := true;
      } else if c == '"' {
        quoted := !quoted;
      } else if !quoted && c == needle {
        return;
      }
      r := r + 1;
    }
  }

  /** What follows the opening quote, up to a closing quote that only white space may follow. */
  function Unquote(s: string, escaped: bool): (r: Option<string>) {
    if s == "" then None
    else if escaped then (if s[0] in BREAKS then None else Cons(s[0], Unquote(s[1..], false)))
    else if s[0] == '\\' then Unquote(s[1..], true)
    else if s[0] == '"' then (if TrimOws(s[1..]) == "" then Some("") else None)
    else if s[0] in BREAKS then None
    else Cons(s[0], Unquote(s[1..], false))
  }

  function Cons(c: char, rest: Option<string>): Option<string> {
    if rest.None? then None else Some([c] + rest.value)
  }

  function Onto(front: string, rest: Option<string>): Option<string> {
    if rest.None? then None else Some(front + rest.value)
  }

  function ParseQuoted(value: string): Option<string> {
    if |value| < 2 || value[0] != '"' then None else Unquote(value[1..], false)
  }

  method ParseQuotedValue(value: string) returns (r: Option<string>)
    ensures r == ParseQuoted(value)
  {
    if |value| < 2 || value[0] != '"' {
      return None;
    }
    var out := "";
    var escaped := false;
    var index := 1;
    OntoNothing(Unquote(value[1..], false));
    while index < |value|
      invariant 1 <= index <= |value|
      invariant ParseQuoted(value) == Onto(out, Unquote(value[index..], escaped))
    {
      hide TrimOws;
      var c := value[index];
      assert value[index..][1..] == value[index + 1..];
      if escaped {
        if c in BREAKS {
          return None;
        }
        OntoCons(out, c, Unquote(value[index + 1..], false));
        out := out + [c];
        escaped := false;
      } else if c == '\\' {
        escaped := true;
      } else if c == '"' {
        if TrimOws(value[index + 1..]) != "" {
          return None;
        }
        assert out + "" == out;
        return Some(out);
      } else if c in BREAKS {
        return None;
      } else {
        OntoCons(out, c, Unquote(value[index + 1..], false));
        out := out + [c];
      }
      index := index + 1;
    }
    return None;
  }

  lemma OntoNothing(rest: Option<string>)
    ensures Onto("", rest) == rest
  {
    assert rest.Some? ==> "" + rest.value == rest.value;
  }

  lemma OntoCons(out: string, c: char, rest: Option<string>)
    ensures Onto(out, Cons(c, rest)) == Onto(out + [c], rest)
  {
    assert rest.Some? ==> out + ([c] + rest.value) == (out + [c]) + rest.value;
  }

  function ParameterValue(raw: string): Option<string> {
    var value := TrimOws(raw);
    if value == "" then None
    else if value[0] == '"' then ParseQuoted(value)
    else if HasControl(value) || '"' in value then None
    else Some(value)
  }

  // ---------------------------------------------------------------- Content-Disposition

  datatype Info = Info(name: Option<string>, filename: Option<string>)

  /** One `name=value` piece; none when it is malformed or repeats a parameter. */
  function AddParameter(info: Info, raw: string): Option<Info> {
    var equals := Until(raw, "=");
    if equals == |raw| then (if TrimOws(raw) == "" then Some(info) else None)
    else
      var name := TrimOws(raw[..equals]);
      match ParameterValue(raw[equals + 1..])
      case None => None
      case Some(value) =>
        if EqualsIgnoringCase(name, "name") then
          (if info.name.Some? then None else Some(info.(name := Some(value))))
        else if EqualsIgnoringCase(name, "filename") then
          (if info.filename.Some? then None else Some(info.(filename := Some(value))))
        else Some(info)
  }

  /** All the pieces between unquoted semicolons. */
  function AddParameters(info: Info, s: string): Option<Info>
    decreases |s|
  {
    if s == "" then Some(info)
    else
      var next := Unquoted(s, ';', false, false);
      match AddParameter(info, s[..next])
      case None => None
      case Some(more) => if next == |s| then Some(more) else AddParameters(more, s[next + 1..])
  }

  /** The field's name and file name; none when the header is not acceptable. */
  datatype Parsed = Parsed(name: string, filename: Option<string>)

  function Finish(info: Option<Info>): Option<Parsed> {
    if info.None? || info.value.name.None? || info.value.name.value == "" || HasControl(info.value.name.value)
       || (info.value.filename.Some? && HasControl(info.value.filename.value))
    then None
    else Some(Parsed(info.value.name.value, info.value.filename))
  }

  function ParseDisposition(value: string): (r: Option<Parsed>)
    ensures r.Some? ==> r.value.name != "" && !HasControl(r.value.name)
    ensures r.Some? && r.value.filename.Some? ==> !HasControl(r.value.filename.value)
  {
    var first := Unquoted(value, ';', false, false);
    if !EqualsIgnoringCase(TrimOws(value[..first]), "form-data") then None
    else Finish(AddParameters(Info(None, None), if first == |value| then "" else value[first + 1..]))
  }

  /** `parse_multipart_content_disposition`: an offset that jumps from separator to separator. */
  method ParseContentDisposition(value: string) returns (r: Option<Parsed>)
    ensures r == ParseDisposition(value)
  {
    hide Unquoted, EqualsIgnoringCase, TrimOws, AddParameter, HasControl;
    var first := FindUnquoted(value, ';', 0);
    assert value[0..] == value;
    if !EqualsIgnoringCase(TrimOws(value[..first]), "form-data") {
      return None;
    }
    var info := Info(None, None);
    var offset := if first == |value| then |value| else first + 1;
    ghost var all := AddParameters(info, value[offset..]);
    assert value[|value|..] == "";
    while offset < |value|
      invariant offset <= |value|
      invariant all == AddParameters(info, value[offset..])
    {
      var next := FindUnquoted(value, ';', offset);
      var rest := value[offset..];
      assert rest[..next - offset] == value[offset..next];
      assert next < |value| ==> rest[next - offset + 1..] == value[next + 1..];
      var more := AddParameter(info, value[offset..next]);
      if more.None? {
        return None;
      }
      info := more.value;
      offset := if next == |value| then |value| else next + 1;
      assert next == |value| ==> value[offset..] == "";
    }
    assert value[offset..] == "";
    r := Finish(Some(info));
  }

  // ---------------------------------------------------------------- quoting

  /** A backslash in front of every quote and backslash. */
  function Escape(s: string): string {
    if s == "" then ""
    else if s[0] == '"' || s[0] == '\\' then ['\\', s[0]] + Escape(s[1..])
    else [s[0]] + Escape(s[1..])
  }

  function Quote(s: string): string { "\"" + Escape(s) + "\"" }

  /** The splitter and the value reader agree: no separator is seen inside a text that reads as a quoted
      value, and after it the splitter is outside quotes again. */
  lemma {:induction false} QuotesHideSeparators(s: string, tail: string, needle: char, escaped: bool)
    requires Unquote(s, escaped).Some? && !IsOws(needle) && needle != '"'
    ensures Unquoted(s + tail, needle, true, escaped) == |s| + Unquoted(tail, needle, false, false)
    decreases |s|
  {
    hide TrimOws;
    var all := s + tail;
    assert all[0] == s[0] && all[1..] == s[1..] + tail;
    if escaped {
      QuotesHideSeparators(s[1..], tail, needle, false);
    } else if s[0] == '\\' {
      QuotesHideSeparators(s[1..], tail, needle, true);
    } else if s[0] == '"' {
      BlankIsSkipped(s[1..], tail, needle);
    } else {
      QuotesHideSeparators(s[1..], tail, needle, false);
    }
  }

  lemma {:induction false} TrimmedAway(s: string)
    requires TrimOws(s) == ""
    ensures forall i :: 0 <= i < |s| ==> IsOws(s[i])
    decreases |s|
  {
    if s != "" {
      if IsOws(s[0]) {
        TrimmedAway(s[1..]);
        assert s == [s[0]] + s[1..];
      } else {
        NotBlank(s);
      }
    }
  }

  lemma {:induction false} NotBlank(s: string)
    requires s != "" && !IsOws(s[0])
    ensures TrimBack(s) != ""
    decreases |s|
  {
    if IsOws(s[|s| - 1]) {
      NotBlank(s[..|s| - 1]);
    }
  }

  lemma {:induction false} BlankIsSkipped(s: string, tail: string, needle: char)
    requires TrimOws(s) == "" && !IsOws(needle)
    ensures Unquoted(s + tail, needle, false, false) == |s| + Unquoted(tail, needle, false, false)
    decreases |s|
  {
    hide TrimOws;
    TrimmedAway(s);
    if s == "" {
      assert s + tail == tail;
    } else {
      assert (s + tail)[1..] == s[1..] + tail;
      BlankTail(s);
      BlankIsSkipped(s[1..], tail, needle);
    }
  }

  lemma BlankTail(s: string)
    requires TrimOws(s) == "" && s != ""
    ensures TrimOws(s[1..]) == ""
  {
    TrimmedAway(s);
  }

  lemma {:induction false} UnquoteEscaped(s: string)
    requires !HasControl(s)
    ensures Unquote(Escape(s) + "\"", false) == Some(s)
  {
    hide TrimOws;
    var all := Escape(s) + "\"";
    if s == "" {
      assert all[1..] == "" && TrimOws("") == "" by { EmptyTrim(); }
    } else {
      assert !HasControl(s[1..]) by { ControlTail(s); }
      UnquoteEscaped(s[1..]);
      var rest := Escape(s[1..]) + "\"";
      assert s == [s[0]] + s[1..];
      assert s[0] !in BREAKS by { assert !IsControl(s[0]); }
      if s[0] == '"' || s[0] == '\\' {
        assert all == ['\\', s[0]] + rest;
        assert all[1..] == [s[0]] + rest && all[1..][1..] == rest;
      } else {
        assert all == [s[0]] + rest && all[1..] == rest;
      }
    }
  }

  lemma EmptyTrim()
    ensures TrimOws("") == ""
  {
  }

  lemma ControlTail(s: string)
    requires s != "" && !HasControl(s)
    ensures !HasControl(s[1..]) && !IsControl(s[0])
  {
    assert forall i :: 0 <= i < |s| - 1 ==> s[1..][i] == s[i + 1];
  }

  /** Text without quotes or separators is skipped. */
  lemma {:induction false} PlainIsSkipped(s: string, tail: string, needle: char)
    requires forall i :: 0 <= i < |s| ==> s[i] != needle && s[i] != '"'
    ensures Unquoted(s + tail, needle, false, false) == |s| + Unquoted(tail, needle, false, false)
  {
    if s == "" {
      assert s + tail == tail;
    } else {
      assert (s + tail)[1..] == s[1..] + tail;
      PlainIsSkipped(s[1..], tail, needle);
    }
  }

  lemma TrimQuoted(s: string)
    ensures TrimOws(Quote(s)) == Quote(s)
  {
    var q := Quote(s);
    assert q[0] == '"' && q[|q| - 1] == '"';
  }

  /** A quoted parameter ends exactly at its closing quote. */
  lemma QuotedParameterEnds(front: string, s: string, tail: string)
    requires forall i :: 0 <= i < |front| ==> front[i] != ';' && front[i] != '"'
    requires !HasControl(s)
    ensures Unquoted(front + Quote(s) + tail, ';', false, false)
            == |front| + |Quote(s)| + Unquoted(tail, ';', false, false)
  {
    hide Unquote;
    var body := Escape(s) + "\"";
    UnquoteEscaped(s);
    QuotesHideSeparators(body, tail, ';', false);
    assert front + Quote(s) + tail == front + (['"'] + (body + tail));
    PlainIsSkipped(front, ['"'] + (body + tail), ';');
    assert (['"'] + (body + tail))[1..] == body + tail;
  }

  lemma QuotedParameterValue(s: string)
    requires !HasControl(s)
    ensures ParameterValue(Quote(s)) == Some(s)
  {
    hide Unquote, TrimOws;
    TrimQuoted(s);
    UnquoteEscaped(s);
    assert Quote(s)[1..] == Escape(s) + "\"";
  }

  lemma QuotedParameter(info: Info, key: string, s: string)
    requires !HasControl(s) && key in {"name", "filename"}
    requires if key == "name" then info.name.None? else info.filename.None?
    ensures AddParameter(info, " " + key + "=" + Quote(s))
            == Some(if key == "name" then info.(name := Some(s)) else info.(filename := Some(s)))
  {
    hide ParameterValue, Quote, EqualsIgnoringCase;
    var raw := " " + key + "=" + Quote(s);
    var front := " " + key;
    assert raw == front + ("=" + Quote(s));
    KeyIsPlain(key);
    UntilClean(front, "=" + Quote(s), "=");
    assert raw[..|front|] == front && raw[|front| + 1..] == Quote(s);
    QuotedParameterValue(s);
  }

  lemma KeyIsPlain(key: string)
    requires key in {"name", "filename"}
    ensures Clean(" " + key, "=") && TrimOws(" " + key) == key
    ensures forall i :: 0 <= i < |key| ==> key[i] != ';' && key[i] != '"'
    ensures EqualsIgnoringCase(key, "name") <==> key == "name"
    ensures EqualsIgnoringCase(key, "filename") <==> key == "filename"
  {
    assert (" " + key)[1..] == key;
    assert !IsOws(key[0]) && !IsOws(key[|key| - 1]);
    assert TrimFront(key) == key && TrimBack(key) == key;
    assert TrimFront(" " + key) == TrimFront(key);
  }

  /** What a client that quotes its parameters sends. */
  function Printed(name: string, filename: Option<string>): string {
    "form-data" + (";" + (" name=" + Quote(name) + FileParameter(filename)))
  }

  /** Quoting any control-free name and file name, whatever quotes, backslashes and semicolons they
      hold, and parsing the header gives them back. */
  lemma QuotingRoundTrip(name: string, filename: Option<string>)
    requires name != "" && !HasControl(name)
    requires filename.Some? ==> !HasControl(filename.value)
    ensures ParseDisposition(Printed(name, filename)) == Some(Parsed(name, filename))
  {
    hide AddParameters, Quote, HasControl, Printed, ParseDisposition;
    var file := FileParameter(filename);
    PrintedDispositions(name, filename);
    NameFront();
    SeparatorOf(filename);
    OneParameter(Info(None, None), "name", name, file);
    if filename.None? {
      NoParameters(Info(Some(name), None));
    } else {
      FilenameFront();
      OneParameter(Info(Some(name), None), "filename", filename.value, "");
      assert " filename=" + Quote(filename.value) + "" == " filename=" + Quote(filename.value);
    }
  }

  function FileParameter(filename: Option<string>): string {
    if filename.None? then "" else "; filename=" + Quote(filename.value)
  }

  lemma SeparatorOf(filename: Option<string>)
    ensures filename.Some? ==>
              FileParameter(filename)[0] == ';' && FileParameter(filename)[1..] == " filename=" + Quote(filename.value)
    ensures " " + "name" + "=" == " name=" && " " + "filename" + "=" == " filename="
  {
    hide Quote;
  }

  /** The disposition type is read and its parameters follow. */
  lemma PrintedDispositions(name: string, filename: Option<string>)
    ensures ParseDisposition(Printed(name, filename))
            == Finish(AddParameters(Info(None, None), " name=" + Quote(name) + FileParameter(filename)))
  {
    hide Unquoted, AddParameters, Quote, EqualsIgnoringCase, TrimOws, Finish, FileParameter;
    var rest := " name=" + Quote(name) + FileParameter(filename);
    FormDataEnds(";" + rest);
    SplitAt("form-data", rest);
  }

  lemma SplitAt(front: string, rest: string)
    ensures var whole := front + (";" + rest);
            |front| < |whole| && whole[..|front|] == front && whole[|front| + 1..] == rest
  {
  }

  lemma NoParameters(info: Info)
    ensures AddParameters(info, "") == Some(info)
  {
  }

  /** A quoted parameter is read, and reading goes on after the separator that follows it. */
  lemma OneParameter(info: Info, key: string, s: string, tail: string)
    requires !HasControl(s) && key in {"name", "filename"}
    requires if key == "name" then info.name.None? else info.filename.None?
    requires forall i :: 0 <= i < |" " + key + "="| ==> (" " + key + "=")[i] != ';' && (" " + key + "=")[i] != '"'
    requires tail == "" || tail[0] == ';'
    ensures var more := if key == "name" then info.(name := Some(s)) else info.(filename := Some(s));
            AddParameters(info, " " + key + "=" + Quote(s) + tail)
            == if tail == "" then Some(more) else AddParameters(more, tail[1..])
  {
    hide Unquoted, AddParameter, Quote, HasControl;
    var front := " " + key + "=";
    var raw := front + Quote(s);
    QuotedParameterEnds(front, s, tail);
    SeparatorFirst(tail);
    QuotedParameter(info, key, s);
    assert (raw + tail)[..|raw|] == raw;
    assert tail != "" ==> (raw + tail)[|raw| + 1..] == tail[1..];
  }

  lemma FormDataEnds(tail: string)
    requires tail != "" && tail[0] == ';'
    ensures Unquoted("form-data" + tail, ';', false, false) == 9
    ensures EqualsIgnoringCase(TrimOws("form-data"), "form-data")
  {
    PlainIsSkipped("form-data", tail, ';');
    assert !IsOws('f') && !IsOws('a');
    assert TrimOws("form-data") == "form-data";
  }

  lemma SeparatorFirst(tail: string)
    requires tail == "" || tail[0] == ';'
    ensures Unquoted(tail, ';', false, false) == 0
  {
  }

  lemma NameFront()
    ensures forall i :: 0 <= i < |" name="| ==> " name="[i] != ';' && " name="[i] != '"'
  {
  }

  lemma FilenameFront()
    ensures forall i :: 0 <= i < |" filename="| ==> " filename="[i] != ';' && " filename="[i] != '"'
  {
  }
}
