/** What any client may write as the parameters of a disposition: in any order, quoted or as plain tokens, with
    further parameters that are skipped. */
module DispositionPrint {
  import opened Text
  import opened Disposition

  datatype Parameter = Parameter(key: string, value: string, quoted: bool)

  predicate GoodKey(key: string) {
    key != "" && TrimOws(key) == key && Clean(key, "=;\"")
  }

  predicate GoodParameter(p: Parameter) {
    && GoodKey(p.key) && !HasControl(p.value)
    && (!p.quoted ==> p.value != "" && TrimOws(p.value) == p.value && Clean(p.value, ";\""))
  }

  predicate AllGood(ps: seq<Parameter>) {
    forall i :: 0 <= i < |ps| ==> GoodParameter(ps[i])
  }

  function PrintedValue(p: Parameter): string {
    if p.quoted then Quote(p.value) else p.value
  }

  function PrintParameter(p: Parameter): string {
    " " + p.key + "=" + PrintedValue(p)
  }

  function PrintParameters(ps: seq<Parameter>): string {
    if ps == [] then "" else ";" + (PrintParameter(ps[0]) + PrintParameters(ps[1..]))
  }

  predicate Has(p: Parameter, key: string) { EqualsIgnoringCase(p.key, key) }

  predicate AtMostOne(ps: seq<Parameter>, key: string) {
    forall i, j :: 0 <= i < j < |ps| ==> !(Has(ps[i], key) && Has(ps[j], key))
  }

  function ValueOf(ps: seq<Parameter>, key: string): Option<string> {
    if ps == [] then None else if Has(ps[0], key) then Some(ps[0].value) else ValueOf(ps[1..], key)
  }

  /** A parameter ends at the separator behind it. */
  lemma ParameterEnds(p: Parameter, tail: string)
    requires GoodParameter(p) && (tail == "" || tail[0] == ';')
    ensures Unquoted(PrintParameter(p) + tail, ';', false, false) == |PrintParameter(p)|
  {
    hide Unquoted, Quote, TrimOws;
    var front := " " + p.key + "=";
    SeparatorFirst(tail);
    if p.quoted {
      QuotedParameterEnds(front, p.value, tail);
    } else {
      PlainIsSkipped(front + p.value, tail, ';');
    }
  }

  lemma TrimSpace(key: string)
    ensures TrimOws(" " + key) == TrimOws(key)
  {
    assert (" " + key)[1..] == key;
  }

  lemma ValueRead(p: Parameter)
    requires GoodParameter(p)
    ensures ParameterValue(PrintedValue(p)) == Some(p.value)
  {
    hide Quote, Unquote, TrimOws;
    if p.quoted {
      QuotedParameterValue(p.value);
    } else {
      assert p.value[0] !in ";\"" && '"' !in p.value;
    }
  }

  /** One printed parameter: a name or file name is taken once, anything else is skipped. */
  lemma ParameterRead(info: Info, p: Parameter)
    requires GoodParameter(p)
    ensures AddParameter(info, PrintParameter(p)) ==
            if Has(p, "name") then (if info.name.Some? then None else Some(info.(name := Some(p.value))))
            else if Has(p, "filename") then
              (if info.filename.Some? then None else Some(info.(filename := Some(p.value))))
            else Some(info)
  {
    hide ParameterValue, Quote, EqualsIgnoringCase, TrimOws, PrintedValue;
    var front, raw := " " + p.key, PrintParameter(p);
    assert raw == front + ("=" + PrintedValue(p));
    forall i | 0 <= i < |front| ensures front[i] !in "=" {
      assert i > 0 ==> front[i] == p.key[i - 1];
    }
    UntilClean(front, "=" + PrintedValue(p), "=");
    assert raw[..|front|] == front && raw[|front| + 1..] == PrintedValue(p);
    TrimSpace(p.key);
    ValueRead(p);
  }

  lemma ParametersUnfold(info: Info, p: Parameter, tail: string)
    requires GoodParameter(p) && (tail == "" || tail[0] == ';')
    ensures AddParameters(info, PrintParameter(p) + tail) ==
            match AddParameter(info, PrintParameter(p))
            case None => None
            case Some(more) => if tail == "" then Some(more) else AddParameters(more, tail[1..])
  {
    hide Unquoted, AddParameter, PrintParameter, GoodParameter;
    ParameterEnds(p, tail);
    var raw := PrintParameter(p);
    ParameterSome(p);
    assert (raw + tail)[..|raw|] == raw;
    assert tail != "" ==> (raw + tail)[|raw| + 1..] == tail[1..];
  }

  lemma ParameterSome(p: Parameter)
    ensures PrintParameter(p) != ""
  {
  }

  function Merged(info: Info, ps: seq<Parameter>): Info {
    Info(if info.name.Some? then info.name else ValueOf(ps, "name"),
         if info.filename.Some? then info.filename else ValueOf(ps, "filename"))
  }

  predicate NotTwice(info: Info, ps: seq<Parameter>) {
    && AtMostOne(ps, "name") && AtMostOne(ps, "filename")
    && (info.name.Some? ==> ValueOf(ps, "name").None?) && (info.filename.Some? ==> ValueOf(ps, "filename").None?)
  }

  lemma {:induction false} NoneLeft(ps: seq<Parameter>, key: string)
    ensures ValueOf(ps, key).None? <==> forall i :: 0 <= i < |ps| ==> !Has(ps[i], key)
  {
    hide EqualsIgnoringCase;
    if ps != [] {
      NoneLeft(ps[1..], key);
      assert forall i :: 0 < i < |ps| ==> ps[i] == ps[1..][i - 1];
    }
  }

  lemma TailNotTwice(ps: seq<Parameter>, key: string)
    requires ps != [] && AtMostOne(ps, key)
    ensures AtMostOne(ps[1..], key) && (Has(ps[0], key) ==> ValueOf(ps[1..], key).None?)
  {
    hide EqualsIgnoringCase;
    NoneLeft(ps[1..], key);
    assert forall i :: 0 <= i < |ps| - 1 ==> ps[1..][i] == ps[i + 1];
  }

  lemma {:induction false} ParametersRead(info: Info, ps: seq<Parameter>)
    requires ps != [] && AllGood(ps) && NotTwice(info, ps)
    ensures AddParameters(info, PrintParameters(ps)[1..]) == Some(Merged(info, ps))
    decreases |ps|
  {
    hide AddParameters, AddParameter, PrintParameter, GoodParameter, EqualsIgnoringCase, AtMostOne;
    var p, rest := ps[0], ps[1..];
    assert GoodParameter(p);
    var tail := PrintParameters(rest);
    assert PrintParameters(ps)[1..] == PrintParameter(p) + tail;
    ParametersUnfold(info, p, tail);
    ParameterRead(info, p);
    TailNotTwice(ps, "name");
    TailNotTwice(ps, "filename");
    NamesApart(p);
    if rest != [] {
      var more := AddParameter(info, PrintParameter(p)).value;
      forall i | 0 <= i < |rest| ensures GoodParameter(rest[i]) {
        assert rest[i] == ps[i + 1];
      }
      ParametersRead(more, rest);
    } else {
      assert tail == "" && ValueOf(rest, "name").None? && ValueOf(rest, "filename").None?;
    }
  }

  lemma {:induction false} ValueGood(ps: seq<Parameter>, key: string)
    requires AllGood(ps)
    ensures ValueOf(ps, key).Some? ==> !HasControl(ValueOf(ps, key).value)
  {
    hide GoodKey, EqualsIgnoringCase, TrimOws;
    if ps != [] {
      assert GoodParameter(ps[0]);
      forall i | 0 <= i < |ps[1..]| ensures GoodParameter(ps[1..][i]) {
        assert ps[1..][i] == ps[i + 1];
      }
      ValueGood(ps[1..], key);
    }
  }

  lemma NamesApart(p: Parameter)
    ensures !(Has(p, "name") && Has(p, "filename"))
  {
  }

  /** However a disposition's parameters are ordered, quoted and mixed with others, its name and file name are
      read, each whatever case its key is in. */
  lemma DispositionRoundTrip(ps: seq<Parameter>)
    requires ps != [] && AllGood(ps) && AtMostOne(ps, "name") && AtMostOne(ps, "filename")
    ensures ParseDisposition("form-data" + PrintParameters(ps)) ==
            match ValueOf(ps, "name")
            case None => None
            case Some(name) => if name == "" then None else Some(Parsed(name, ValueOf(ps, "filename")))
  {
    hide AddParameters, PrintParameter, EqualsIgnoringCase, TrimOws, Unquoted, AtMostOne, ValueOf;
    var tail := PrintParameters(ps);
    FormDataEnds(tail);
    SplitAt("form-data", tail[1..]);
    assert tail == ";" + tail[1..];
    ValueGood(ps, "name");
    ValueGood(ps, "filename");
    ParametersRead(Info(None, None), ps);
  }
}
