/** The URL parser, its serializers and relative resolution (sections 3 and 5.2 of RFC 3986). */
module Url {
  import opened Text

  datatype Error = Invalid | MissingScheme | MissingHost

  datatype Result<+T> = Ok(value: T) | Err(error: Error)

  /** The pieces between `//` and the path. */
  datatype Authority = Authority(
    username: string,
    password: string,
    host: string,
    hostname: string,
    port: string,
    hostIsIpLiteral: bool)

  datatype Tail = Tail(path: string, query: string, fragment: string)

  datatype Url = Url(href: string, scheme: string, authority: Option<Authority>, tail: Tail)

  const WHITESPACE := " \t\r\n\U{0C}"
  const AUTHORITY_END := "/?#"

  // ---------------------------------------------------------------- characters

  function Lowercase(s: string): (r: string)
    ensures |r| == |s| && forall i :: 0 <= i < |s| ==> r[i] == Lower(s[i])
  {
    seq(|s|, i requires 0 <= i < |s| => Lower(s[i]))
  }

  predicate IsAlpha(c: char) { 'A' <= c <= 'Z' || 'a' <= c <= 'z' }

  predicate ValidScheme(s: string) {
    s != "" && IsAlpha(s[0]) &&
    forall i :: 1 <= i < |s| ==> IsAlpha(s[i]) || IsDigit(s[i]) || s[i] in "+-."
  }

  // ---------------------------------------------------------------- address literals

  /** One dotted part: at most three characters read by `std::from_chars` into an `int`. */
  predicate Ipv4Part(s: string) {
    var digits := if s != "" && s[0] == '-' then s[1..] else s;
    && |s| <= 3 && digits != ""
    && (forall i :: 0 <= i < |digits| ==> IsDigit(digits[i]))
    && (|digits| == 3 ==> digits[0] < '2' || (digits[0] == '2' && (digits[1] < '5' || (digits[1] == '5' && digits[2] <= '5'))))
  }

  function Ipv4Parts(s: string): (r: Option<nat>) {
    var end := Until(s, ".");
    if !Ipv4Part(s[..end]) then None
    else if end == |s| then Some(1)
    else match Ipv4Parts(s[end + 1..])
         case None => None
         case Some(n) => Some(n + 1)
  }

  predicate LooksLikeIpv4(s: string) { Ipv4Parts(s) == Some(4) }

  predicate LooksLikeIpv6(s: string) { ':' in s }

  // ---------------------------------------------------------------- authority

  datatype HostPort = HostPort(host: string, hostname: string, port: string, hostIsIpLiteral: bool)

  function ParseHostPort(s: string): (r: Option<HostPort>) {
    if s == "" then None
    else if s[0] == '[' then
      var close := Until(s, "]");
      if close == |s| || close == 1 then None
      else
        var rest := s[close + 1..];
        if rest != "" && rest[0] != ':' then None
        else Some(HostPort(s[..close + 1], s[1..close], if rest == "" then "" else rest[1..],
                           LooksLikeIpv6(s[1..close])))
    else
      var colon := LastOf(s, ':');
      var single := 0 <= colon && Until(s, ":") == colon;
      var hostname := Lowercase(if single then s[..colon] else s);
      if hostname == "" then None
      else Some(HostPort(hostname, hostname, if single then s[colon + 1..] else "", LooksLikeIpv4(hostname)))
  }

  function ParseAuthority(s: string): (r: Option<Authority>) {
    var at := LastOf(s, '@');
    var userinfo := if at < 0 then "" else s[..at];
    var colon := Until(userinfo, ":");
    var username := userinfo[..colon];
    var password := if colon == |userinfo| then "" else userinfo[colon + 1..];
    match ParseHostPort(s[at + 1..])
    case None => None
    case Some(h) => Some(Authority(username, password, h.host, h.hostname, h.port, h.hostIsIpLiteral))
  }

  function SerializeHostPort(host: string, port: string): string {
    if port == "" then host else host + ":" + port
  }

  function SerializeUserinfo(a: Authority): string {
    if a.username == "" && a.password == "" then ""
    else if a.password == "" then a.username + "@"
    else a.username + ":" + a.password + "@"
  }

  function SerializeAuthority(a: Authority): string {
    SerializeUserinfo(a) + SerializeHostPort(a.host, a.port)
  }

  // ---------------------------------------------------------------- path, query and fragment

  function ParseTail(rest: string, hasAuthority: bool): Tail {
    var hash := Until(rest, "#");
    var fragment := if hash == |rest| then "" else rest[hash + 1..];
    var front := rest[..hash];
    var mark := Until(front, "?");
    var query := if mark == |front| then "" else front[mark + 1..];
    var path := front[..mark];
    Tail(if path == "" && hasAuthority then "/" else path, query, fragment)
  }

  function SerializeTail(t: Tail): string {
    t.path + (if t.query == "" then "" else "?" + t.query) + (if t.fragment == "" then "" else "#" + t.fragment)
  }

  // ---------------------------------------------------------------- absolute URLs

  function Prefix(scheme: string, authority: Option<Authority>): string {
    scheme + ":" + (if authority.Some? then "//" + SerializeAuthority(authority.value) else "")
  }

  function Assemble(scheme: string, authority: Option<Authority>, tail: Tail): Url {
    Url(Prefix(scheme, authority) + SerializeTail(tail), scheme, authority, tail)
  }

  function ParseAbsolute(input: string): (r: Result<Url>) {
    if input == "" || !Clean(input, WHITESPACE) then Err(Invalid)
    else
      var colon := Until(input, ":");
      if colon == |input| then Err(MissingScheme)
      else
        var scheme := Lowercase(input[..colon]);
        if !ValidScheme(scheme) then Err(Invalid)
        else ParseAfterScheme(scheme, input[colon + 1..])
  }

  function ParseAfterScheme(scheme: string, rest: string): Result<Url> {
    if "//" <= rest then
      var end := Until(rest[2..], AUTHORITY_END);
      match ParseAuthority(rest[2..][..end])
      case None => Err(MissingHost)
      case Some(a) => Ok(Assemble(scheme, Some(a), ParseTail(rest[2..][end..], true)))
    else Ok(Assemble(scheme, None, ParseTail(rest, false)))
  }

  // ---------------------------------------------------------------- request targets

  function OriginFormTarget(u: Url): string {
    (if u.tail.path == "" then "/" else u.tail.path) + (if u.tail.query == "" then "" else "?" + u.tail.query)
  }

  function AbsoluteFormTarget(u: Url): string {
    Prefix(u.scheme, u.authority) + OriginFormTarget(u)
  }

  // ---------------------------------------------------------------- relative references

  predicate HasAbsoluteScheme(s: string) {
    Until(s, ":") < |s| && Until(s, ":") < Until(s, AUTHORITY_END) && ValidScheme(s[..Until(s, ":")])
  }

  /** Everything up to and including the last `/` of the base path. */
  function BaseDirectory(path: string): string {
    if LastOf(path, '/') < 0 then "/" else path[..LastOf(path, '/') + 1]
  }

  function SerializedAuthority(u: Url): string {
    if u.authority.Some? then SerializeAuthority(u.authority.value) else ""
  }

  function ParseRelative(input: string, base: string): Result<Url> {
    if HasAbsoluteScheme(input) then ParseAbsolute(input)
    else match ParseAbsolute(base)
         case Err(e) => Err(e)
         case Ok(b) =>
           if input == "" then Ok(b)
           else if "//" <= input then ParseAbsolute(b.scheme + ":" + input)
           else if "/" <= input then ParseAbsolute(b.scheme + "://" + SerializedAuthority(b) + input)
           else ParseAbsolute(b.scheme + "://" + SerializedAuthority(b) + BaseDirectory(b.tail.path) + input)
  }

  // ---------------------------------------------------------------- lowercasing

  /** None of the characters the parser stops at is a letter, so lowercasing never adds one. */
  predicate NoLetters(stops: string) {
    forall i :: 0 <= i < |stops| ==> !('a' <= stops[i] <= 'z') && !('A' <= stops[i] <= 'Z')
  }

  lemma CleanLowercase(s: string, stops: string)
    requires NoLetters(stops)
    ensures Clean(Lowercase(s), stops) <==> Clean(s, stops)
  {
    forall i | 0 <= i < |s|
      ensures Lowercase(s)[i] in stops <==> s[i] in stops
    {
    }
  }

  lemma LowercaseTwice(s: string)
    ensures Lowercase(Lowercase(s)) == Lowercase(s)
  {
  }

  // ---------------------------------------------------------------- normal forms

  /** A bracketed host: nothing in it ends it early. */
  lemma BracketRoundTrip(hostname: string, port: string)
    requires hostname != "" && Clean(hostname, "]")
    ensures ParseHostPort(SerializeHostPort("[" + hostname + "]", port))
            == Some(HostPort("[" + hostname + "]", hostname, port, LooksLikeIpv6(hostname)))
  {
    hide Until;
    var host := "[" + hostname + "]";
    var rest := if port == "" then "" else ":" + port;
    var s := SerializeHostPort(host, port);
    assert s == ("[" + hostname) + ("]" + rest);
    CleanConcat("[", hostname, "]");
    UntilClean("[" + hostname, "]" + rest, "]");
    hide Clean, SerializeHostPort;
    assert s == host + rest;
    assert s[..|host|] == host && s[1..|host| - 1] == hostname && s[|host|..] == rest;
  }

  /** A host followed by a port: the only colon is the separator. */
  lemma NamedHostRoundTrip(hostname: string, port: string)
    requires hostname != "" && hostname[0] != '[' && Lowercase(hostname) == hostname
    requires port != "" ==> Clean(hostname, ":") && Clean(port, ":")
    requires port == "" ==> LastOf(hostname, ':') < 0 || LastOf(hostname, ':') != Until(hostname, ":")
    ensures ParseHostPort(SerializeHostPort(hostname, port))
            == Some(HostPort(hostname, hostname, port, LooksLikeIpv4(hostname)))
  {
    hide Until, LastOf, LooksLikeIpv4, Lowercase, Clean;
    if port != "" {
      PortColon(hostname, port);
    }
  }

  /** The one colon of a host followed by a port. */
  lemma PortColon(hostname: string, port: string)
    requires Clean(hostname, ":") && Clean(port, ":")
    ensures var s := hostname + ":" + port;
            && Until(s, ":") == LastOf(s, ':') == |hostname|
            && s[..|hostname|] == hostname && s[|hostname| + 1..] == port
  {
    LastClean(hostname, ':', port);
    UntilClean(hostname, ":" + port, ":");
    hide Until, LastOf, Clean;
    assert hostname + ":" + port == hostname + [':'] + port == hostname + (":" + port);
  }

  lemma LowerKeepsColons(s: string)
    ensures Until(Lowercase(s), ":") == Until(s, ":") && LastOf(Lowercase(s), ':') == LastOf(s, ':')
  {
    if s != "" {
      assert Lowercase(s)[1..] == Lowercase(s[1..]);
      assert Lowercase(s)[..|s| - 1] == Lowercase(s[..|s| - 1]);
      LowerKeepsColons(s[1..]);
      LowerKeepsColons(s[..|s| - 1]);
    }
  }

  lemma HostPortRoundTrip(s: string)
    requires ParseHostPort(s).Some?
    ensures var h := ParseHostPort(s).value;
            ParseHostPort(SerializeHostPort(h.host, h.port)) == Some(h)
  {
    hide Until, LastOf, LooksLikeIpv4, LooksLikeIpv6, SerializeHostPort;
    var h := ParseHostPort(s).value;
    if s[0] == '[' {
      var close := Until(s, "]");
      assert s[..close][1..] == s[1..close];
      assert s[..close + 1] == "[" + s[1..close] + "]";
      BracketRoundTrip(h.hostname, h.port);
    } else {
      var colon := LastOf(s, ':');
      LowerKeepsColons(s);
      if 0 <= colon && Until(s, ":") == colon {
        CleanLowercase(s[..colon], ":");
        LowercaseTwice(s[..colon]);
        assert Clean(h.port, ":");
        if h.port == "" {
          LastNone(h.hostname, ':');
        }
      } else {
        LowercaseTwice(s);
      }
      NamedHostRoundTrip(h.hostname, h.port);
    }
  }

  lemma HostPortClean(s: string, stops: string)
    requires ParseHostPort(s).Some? && Clean(s, stops) && NoLetters(stops) && ':' !in stops
    ensures var h := ParseHostPort(s).value; Clean(SerializeHostPort(h.host, h.port), stops)
  {
    hide Until, LastOf;
    var h := ParseHostPort(s).value;
    CleanLowercase(s, stops);
    CleanLowercase(s[..if 0 <= LastOf(s, ':') then LastOf(s, ':') else 0], stops);
    CleanConcat(h.host, ":" + h.port, stops);
    assert h.host + (":" + h.port) == h.host + ":" + h.port;
    CleanConcat(":", h.port, stops);
  }

  /** The authority that `SerializeAuthority` prints is read back as it was. */
  predicate NormalAuthority(a: Authority) {
    && ParseAuthority(SerializeAuthority(a)) == Some(a)
    && Clean(SerializeAuthority(a), AUTHORITY_END)
    && Clean(SerializeAuthority(a), WHITESPACE)
  }

  lemma UserinfoRoundTrip(username: string, password: string)
    requires Clean(username, ":")
    ensures var userinfo := Userinfo(username, password);
            var colon := Until(userinfo, ":");
            userinfo[..colon] == username
            && (if colon == |userinfo| then "" else userinfo[colon + 1..]) == password
  {
    if password == "" {
      UntilAll(username, ":");
    } else {
      UntilClean(username, ":" + password, ":");
      assert username + ":" + password == username + (":" + password);
    }
  }

  function Userinfo(username: string, password: string): string {
    if password == "" then username else username + ":" + password
  }

  /** Splitting off the host at the last `@`, which is none of the host's characters. */
  lemma SplitHost(userinfo: string, tail: string)
    requires Clean(tail, "@")
    ensures LastOf(tail, '@') == -1
    ensures var t := userinfo + "@" + tail;
            LastOf(t, '@') == |userinfo| && t[..|userinfo|] == userinfo && t[|userinfo| + 1..] == tail
  {
    LastNone(tail, '@');
    LastClean(userinfo, '@', tail);
    hide LastOf;
    assert userinfo + ['@'] + tail == userinfo + "@" + tail;
  }

  lemma SerializedParts(a: Authority)
    ensures var tail := SerializeHostPort(a.host, a.port);
            SerializeAuthority(a) ==
            if a.username == "" && a.password == "" then tail else Userinfo(a.username, a.password) + "@" + tail
  {
    var tail := SerializeHostPort(a.host, a.port);
    hide SerializeHostPort;
    assert "" + tail == tail;
  }

  lemma ParsedParts(s: string)
    requires ParseAuthority(s).Some?
    ensures var a := ParseAuthority(s).value;
            var hostPort := s[LastOf(s, '@') + 1..];
            && ParseHostPort(hostPort) == Some(HostPort(a.host, a.hostname, a.port, a.hostIsIpLiteral))
            && Clean(a.username, ":") && Clean(hostPort, "@")
  {
    hide Until, LastOf, ParseHostPort, Clean;
    CleanBehind(s, LastOf(s, '@') + 1);
  }

  lemma CleanBehind(s: string, from: nat)
    requires from <= |s| && forall i :: from <= i < |s| ==> s[i] != '@'
    ensures Clean(s[from..], "@")
  {
    var rest := s[from..];
    forall i | 0 <= i < |rest| ensures rest[i] !in "@" {
      assert rest[i] == s[from + i];
    }
  }

  /** An authority is read back once its user name has no colon and its host and port are read back. */
  lemma PrintedAuthority(a: Authority)
    requires var tail := SerializeHostPort(a.host, a.port);
             && Clean(a.username, ":") && Clean(tail, "@")
             && ParseHostPort(tail) == Some(HostPort(a.host, a.hostname, a.port, a.hostIsIpLiteral))
    ensures ParseAuthority(SerializeAuthority(a)) == Some(a)
  {
    hide Until, LastOf, ParseHostPort, SerializeHostPort, SerializeAuthority, Clean;
    var tail := SerializeHostPort(a.host, a.port);
    SerializedParts(a);
    SplitHost(Userinfo(a.username, a.password), tail);
    UserinfoRoundTrip(a.username, a.password);
    NoUserinfo();
    assert tail[0..] == tail;
  }

  lemma AuthorityRoundTrip(s: string)
    requires ParseAuthority(s).Some?
    ensures var a := ParseAuthority(s).value; ParseAuthority(SerializeAuthority(a)) == Some(a)
  {
    ParsedParts(s);
    hide ParseAuthority, Until, LastOf, ParseHostPort, SerializeHostPort, SerializeAuthority, Clean;
    var hostPort := s[LastOf(s, '@') + 1..];
    HostPortRoundTrip(hostPort);
    HostPortClean(hostPort, "@");
    PrintedAuthority(ParseAuthority(s).value);
  }

  lemma NoUserinfo()
    ensures Until("", ":") == 0
  {
  }

  lemma AuthorityClean(s: string, stops: string)
    requires ParseAuthority(s).Some? && Clean(s, stops) && NoLetters(stops)
    requires ':' !in stops && '@' !in stops
    ensures Clean(SerializeAuthority(ParseAuthority(s).value), stops)
  {
    hide Until, LastOf, ParseHostPort, SerializeHostPort;
    var a := ParseAuthority(s).value;
    var at := LastOf(s, '@');
    HostPortClean(s[at + 1..], stops);
    CleanConcat(SerializeUserinfo(a), SerializeHostPort(a.host, a.port), stops);
    assert Clean(a.username, stops) && Clean(a.password, stops);
    assert Clean("@", stops) && Clean(":", stops);
    CleanConcat(a.username, "@", stops);
    CleanConcat(a.username, ":", stops);
    CleanConcat(a.username + ":", a.password, stops);
    CleanConcat(a.username + ":" + a.password, "@", stops);
  }

  lemma ParsedAuthorityIsNormal(s: string)
    requires ParseAuthority(s).Some? && Clean(s, AUTHORITY_END) && Clean(s, WHITESPACE)
    ensures NormalAuthority(ParseAuthority(s).value)
  {
    hide ParseAuthority, SerializeAuthority;
    AuthorityRoundTrip(s);
    AuthorityClean(s, AUTHORITY_END);
    AuthorityClean(s, WHITESPACE);
  }

  predicate NormalTail(t: Tail, hasAuthority: bool) {
    && Clean(t.path, "?#") && Clean(t.query, "#")
    && Clean(t.path, WHITESPACE) && Clean(t.query, WHITESPACE) && Clean(t.fragment, WHITESPACE)
    && (if hasAuthority then "/" <= t.path else !("//" <= t.path))
  }

  lemma ParsedTailIsNormal(rest: string, hasAuthority: bool)
    requires Clean(rest, WHITESPACE)
    requires if hasAuthority then rest == "" || rest[0] in AUTHORITY_END else !("//" <= rest)
    ensures NormalTail(ParseTail(rest, hasAuthority), hasAuthority)
  {
    hide Until;
    var t := ParseTail(rest, hasAuthority);
    var front := rest[..Until(rest, "#")];
    var path := front[..Until(front, "?")];
    assert path == rest[..|path|];
    assert forall i :: 0 <= i < |path| ==> path[i] == front[i];
    assert |path| >= 2 ==> path[0] == rest[0] && path[1] == rest[1];
    if hasAuthority && path != "" {
      assert path[0] == rest[0] && path[0] == front[0];
    }
  }

  /** Splitting at the first `mark` undoes appending `mark` and a suffix, an empty suffix being dropped. */
  lemma SplitAppended(front: string, mark: string, suffix: string)
    requires |mark| == 1 && Clean(front, mark)
    ensures var s := front + (if suffix == "" then "" else mark + suffix);
            var at := Until(s, mark);
            s[..at] == front && (if at == |s| then "" else s[at + 1..]) == suffix
  {
    hide Until, Clean;
    UntilClean(front, if suffix == "" then "" else mark + suffix, mark);
  }

  lemma TailRoundTrip(t: Tail, hasAuthority: bool)
    requires NormalTail(t, hasAuthority)
    ensures ParseTail(SerializeTail(t), hasAuthority) == t
  {
    hide Until, Clean, ParseTail, SerializeTail;
    FrontIsClean(t.path, t.query);
    var front := t.path + if t.query == "" then "" else "?" + t.query;
    SplitAppended(front, "#", t.fragment);
    SplitAppended(t.path, "?", t.query);
    TailPrinted(t);
    TailRead(front + if t.fragment == "" then "" else "#" + t.fragment, front, t, hasAuthority);
  }

  lemma TailPrinted(t: Tail)
    ensures SerializeTail(t) == t.path + (if t.query == "" then "" else "?" + t.query)
                                + if t.fragment == "" then "" else "#" + t.fragment
  {
  }

  lemma TailRead(s: string, front: string, t: Tail, hasAuthority: bool)
    requires hasAuthority ==> t.path != ""
    requires s[..Until(s, "#")] == front
    requires (if Until(s, "#") == |s| then "" else s[Until(s, "#") + 1..]) == t.fragment
    requires front[..Until(front, "?")] == t.path
    requires (if Until(front, "?") == |front| then "" else front[Until(front, "?") + 1..]) == t.query
    ensures ParseTail(s, hasAuthority) == t
  {
    hide Until;
  }

  lemma FrontIsClean(path: string, query: string)
    requires Clean(path, "?#") && Clean(query, "#")
    ensures Clean(path, "?") && Clean(path + if query == "" then "" else "?" + query, "#")
  {
    CleanConcat("?", query, "#");
    CleanConcat(path, if query == "" then "" else "?" + query, "#");
  }

  lemma TailIsClean(t: Tail, hasAuthority: bool)
    requires NormalTail(t, hasAuthority)
    ensures Clean(SerializeTail(t), WHITESPACE)
  {
    var q := if t.query == "" then "" else "?" + t.query;
    var f := if t.fragment == "" then "" else "#" + t.fragment;
    CleanConcat("?", t.query, WHITESPACE);
    CleanConcat("#", t.fragment, WHITESPACE);
    CleanConcat(t.path, q, WHITESPACE);
    CleanConcat(t.path + q, f, WHITESPACE);
  }

  // ---------------------------------------------------------------- parsing what was printed

  predicate NormalScheme(s: string) {
    ValidScheme(s) && Lowercase(s) == s
  }

  lemma SchemeIsClean(s: string)
    requires NormalScheme(s)
    ensures Clean(s, ":") && Clean(s, WHITESPACE)
  {
  }

  lemma ParsePrefixed(scheme: string, rest: string)
    requires NormalScheme(scheme)
    ensures ParseAbsolute(scheme + ":" + rest) ==
            if Clean(rest, WHITESPACE) then ParseAfterScheme(scheme, rest) else Err(Invalid)
  {
    hide Until, ParseAfterScheme, ValidScheme;
    SchemeIsClean(scheme);
    var input := scheme + ":" + rest;
    CleanConcat(scheme + ":", rest, WHITESPACE);
    CleanConcat(scheme, ":", WHITESPACE);
    assert input == scheme + (":" + rest);
    UntilClean(scheme, ":" + rest, ":");
    assert input[..|scheme|] == scheme && input[|scheme| + 1..] == rest;
  }

  lemma ParseWithAuthority(scheme: string, a: Authority, rest: string)
    requires NormalScheme(scheme) && NormalAuthority(a)
    requires rest == "" || rest[0] in AUTHORITY_END
    ensures ParseAbsolute(scheme + "://" + SerializeAuthority(a) + rest) ==
            if Clean(rest, WHITESPACE) then Ok(Assemble(scheme, Some(a), ParseTail(rest, true))) else Err(Invalid)
  {
    hide Until, ParseAuthority, SerializeAuthority, ParseTail, ParseAbsolute, Assemble;
    var authority := SerializeAuthority(a);
    var after := "//" + (authority + rest);
    assert scheme + "://" + authority + rest == scheme + ":" + after;
    CleanConcat("//", authority + rest, WHITESPACE);
    CleanConcat(authority, rest, WHITESPACE);
    ParsePrefixed(scheme, after);
    assert after[2..] == authority + rest;
    UntilClean(authority, rest, AUTHORITY_END);
    assert (authority + rest)[..|authority|] == authority && (authority + rest)[|authority|..] == rest;
  }

  lemma ParseWithoutAuthority(scheme: string, rest: string)
    requires NormalScheme(scheme) && Clean(rest, WHITESPACE) && !("//" <= rest)
    ensures ParseAbsolute(scheme + ":" + rest) == Ok(Assemble(scheme, None, ParseTail(rest, false)))
  {
    ParsePrefixed(scheme, rest);
  }

  /** What every accepted URL satisfies. */
  predicate Normal(u: Url) {
    && NormalScheme(u.scheme)
    && (u.authority.Some? ==> NormalAuthority(u.authority.value))
    && NormalTail(u.tail, u.authority.Some?)
    && u == Assemble(u.scheme, u.authority, u.tail)
  }

  lemma ParsedIsNormal(input: string)
    requires ParseAbsolute(input).Ok?
    ensures Normal(ParseAbsolute(input).value)
  {
    hide Until, ParseAuthority, Prefix, SerializeTail, ParseTail, NormalTail, NormalAuthority;
    var colon := Until(input, ":");
    var scheme := Lowercase(input[..colon]);
    LowercaseTwice(input[..colon]);
    var rest := input[colon + 1..];
    assert Clean(rest, WHITESPACE);
    if "//" <= rest {
      var end := Until(rest[2..], AUTHORITY_END);
      var authority := rest[2..][..end];
      assert Clean(authority, WHITESPACE);
      ParsedAuthorityIsNormal(authority);
      assert end < |rest[2..]| ==> rest[2..][end..][0] == rest[2..][end];
      ParsedTailIsNormal(rest[2..][end..], true);
    } else {
      ParsedTailIsNormal(rest, false);
    }
  }

  lemma TailSlashes(t: Tail)
    requires NormalTail(t, false)
    ensures !("//" <= SerializeTail(t))
  {
    var s := SerializeTail(t);
    assert |s| >= 1 && |t.path| == 0 ==> s[0] in "?#";
    assert |s| >= 2 && |t.path| == 1 ==> s[1] in "?#";
    assert |t.path| >= 2 ==> s[0] == t.path[0] && s[1] == t.path[1];
  }

  /** A normal URL is read back from its printed form, with any tail of its own kind. */
  lemma ParseAssembled(scheme: string, authority: Option<Authority>, tail: Tail)
    requires NormalScheme(scheme) && (authority.Some? ==> NormalAuthority(authority.value))
    requires NormalTail(tail, authority.Some?)
    ensures ParseAbsolute(Assemble(scheme, authority, tail).href) == Ok(Assemble(scheme, authority, tail))
  {
    hide Until, ParseAuthority, SerializeAuthority, ParseTail, ParseAbsolute;
    TailRoundTrip(tail, authority.Some?);
    TailIsClean(tail, authority.Some?);
    var rest := SerializeTail(tail);
    if authority.Some? {
      assert rest[0] == tail.path[0];
      ParseWithAuthority(scheme, authority.value, rest);
      assert Prefix(scheme, authority) + rest == scheme + "://" + SerializeAuthority(authority.value) + rest;
    } else {
      TailSlashes(tail);
      ParseWithoutAuthority(scheme, rest);
      assert Prefix(scheme, authority) + rest == scheme + ":" + rest;
    }
  }

  /** Parsing is stable: an accepted URL's `href` parses to the very same URL. */
  lemma HrefRoundTrip(input: string)
    requires ParseAbsolute(input).Ok?
    ensures ParseAbsolute(ParseAbsolute(input).value.href) == ParseAbsolute(input)
  {
    hide ParseAbsolute, Assemble;
    ParsedIsNormal(input);
    var u := ParseAbsolute(input).value;
    ParseAssembled(u.scheme, u.authority, u.tail);
  }

  /** The absolute-form target names the same URL without its fragment, exactly when the path is not
      empty (an empty path is sent as "/"). */
  lemma AbsoluteFormRoundTrip(input: string)
    requires ParseAbsolute(input).Ok?
    ensures var u := ParseAbsolute(input).value;
            var bare := Assemble(u.scheme, u.authority, u.tail.(fragment := ""));
            && (ParseAbsolute(AbsoluteFormTarget(u)) == Ok(bare) <==> u.tail.path != "")
            && (u.authority.Some? ==> u.tail.path != "")
  {
    hide ParseAbsolute;
    ParsedIsNormal(input);
    var u := ParseAbsolute(input).value;
    var path := if u.tail.path == "" then "/" else u.tail.path;
    var t := Tail(path, u.tail.query, "");
    assert OriginFormTarget(u) == SerializeTail(t);
    ParseAssembled(u.scheme, u.authority, t);
  }

  // ---------------------------------------------------------------- relative resolution

  lemma BaseDirectoryStarts(path: string)
    requires "/" <= path
    ensures "/" <= BaseDirectory(path)
    ensures BaseDirectory(path) <= path && BaseDirectory(path)[|BaseDirectory(path)| - 1] == '/'
  {
    assert path[0] == '/';
    assert LastOf(path, '/') >= 0;
  }

  /** The directory of a path ends at its last slash. */
  lemma DirectoryOf(directory: string, name: string)
    requires directory != "" && directory[|directory| - 1] == '/' && Clean(name, "/")
    ensures BaseDirectory(directory + name) == directory
  {
    hide LastOf;
    var front := directory[..|directory| - 1];
    LastClean(front, '/', name);
    assert front + ['/'] + name == directory + name;
  }

  /** A reference with neither a scheme nor a leading `//` cannot change the authority of a base that
      has one: whatever it contains, a result has the base's scheme, credentials, host and port, and
      its path, query and fragment are those of the base directory followed by the reference. */
  lemma RelativeKeepsAuthority(input: string, base: string)
    requires !HasAbsoluteScheme(input) && !("//" <= input)
    requires ParseAbsolute(base).Ok? && ParseAbsolute(base).value.authority.Some?
    ensures var b := ParseAbsolute(base).value;
            var r := ParseRelative(input, base);
            && (r.Ok? <==> Clean(input, WHITESPACE))
            && (r.Ok? ==> r.value.scheme == b.scheme && r.value.authority == b.authority)
            && (r.Ok? && input != "" ==>
                  r.value.tail == ParseTail(
                    (if "/" <= input then "" else BaseDirectory(b.tail.path)) + input, true))
  {
    hide ParseAbsolute, HasAbsoluteScheme, ParseTail, BaseDirectory, SerializeAuthority, NormalAuthority;
    ParsedIsNormal(base);
    var b := ParseAbsolute(base).value;
    if input != "" {
      BaseDirectoryStarts(b.tail.path);
      var rest := (if "/" <= input then "" else BaseDirectory(b.tail.path)) + input;
      assert rest[0] == '/';
      if "/" <= input {
        assert "" + input == input;
      } else {
        CleanConcat(BaseDirectory(b.tail.path), input, WHITESPACE);
        assert Clean(BaseDirectory(b.tail.path), WHITESPACE);
      }
      ParseWithAuthority(b.scheme, b.authority.value, rest);
      assert b.scheme + "://" + SerializeAuthority(b.authority.value) + rest
          == b.scheme + "://" + SerializeAuthority(b.authority.value)
             + (if "/" <= input then "" else BaseDirectory(b.tail.path)) + input;
    }
  }

  /** Resolving against a base without an authority never gives such a URL back: a non-empty
      reference is glued after `scheme://`, so the result, if any, has an authority. */
  lemma RelativeInventsAuthority(input: string, base: string)
    requires !HasAbsoluteScheme(input) && !("//" <= input) && input != ""
    requires ParseAbsolute(base).Ok? && ParseAbsolute(base).value.authority.None?
    ensures ParseRelative(input, base).Ok? ==> ParseRelative(input, base).value.authority.Some?
    ensures "/" <= input ==> ParseRelative(input, base) in {Err(MissingHost), Err(Invalid)}
  {
    hide ParseAbsolute, HasAbsoluteScheme, BaseDirectory, Until, ParseAuthority, ParseTail, Prefix, SerializeTail;
    ParsedIsNormal(base);
    var b := ParseAbsolute(base).value;
    var lead := if "/" <= input then "" else BaseDirectory(b.tail.path);
    var rest := lead + input;
    assert b.scheme + ":" + ("//" + rest) == b.scheme + "://" + "" + lead + input;
    ParsePrefixed(b.scheme, "//" + rest);
    assert ("//" + rest)[2..] == rest;
    if "/" <= input {
      assert b.scheme + ":" + ("//" + rest) == b.scheme + "://" + "" + input;
      assert rest == input;
      EmptyAuthority(rest);
    }
  }

  lemma EmptyAuthority(rest: string)
    requires rest != "" && rest[0] in AUTHORITY_END
    ensures ParseAuthority(rest[..Until(rest, AUTHORITY_END)]).None?
  {
    assert Until(rest, AUTHORITY_END) == 0;
    LastNone("", '@');
  }

  lemma UntilPast(s: string, n: nat, stops: string)
    requires n <= |s| && Clean(s[..n], stops)
    ensures n <= Until(s, stops)
  {
    forall i | 0 <= i < n ensures s[i] !in stops {
      assert s[..n][i] == s[i];
    }
  }

  /** A reference is absolute exactly when it is a valid scheme, a colon and anything. */
  lemma AbsoluteReference(scheme: string, rest: string, s: string)
    requires ValidScheme(scheme)
    ensures HasAbsoluteScheme(scheme + ":" + rest)
    ensures HasAbsoluteScheme(s) ==>
              var n := Until(s, ":"); ValidScheme(s[..n]) && s == s[..n] + ":" + s[n + 1..]
  {
    hide Until;
    var whole := scheme + ":" + rest;
    assert whole == scheme + (":" + rest);
    assert Clean(scheme, ":") && Clean(scheme + ":", AUTHORITY_END);
    UntilClean(scheme, ":" + rest, ":");
    assert whole[..|scheme| + 1] == scheme + ":" && whole[..|scheme|] == scheme;
    UntilPast(whole, |scheme| + 1, AUTHORITY_END);
  }

  /** An absolute reference is read by itself: whatever the base, accepted or not, it makes no difference, and
      the printed form of an accepted URL resolves to that URL. */
  lemma AbsoluteIgnoresBase(input: string, base: string)
    ensures HasAbsoluteScheme(input) ==> ParseRelative(input, base) == ParseAbsolute(input)
    ensures ParseAbsolute(input).Ok? ==> ParseRelative(ParseAbsolute(input).value.href, base) == ParseAbsolute(input)
  {
    hide ParseAbsolute, HasAbsoluteScheme, Normal;
    if ParseAbsolute(input).Ok? {
      ParsedIsNormal(input);
      HrefRoundTrip(input);
      HrefIsAbsolute(ParseAbsolute(input).value);
    }
  }

  lemma HrefIsAbsolute(u: Url)
    requires Normal(u)
    ensures HasAbsoluteScheme(u.href)
  {
    hide HasAbsoluteScheme, ValidScheme, NormalAuthority, NormalTail, SerializeAuthority, SerializeTail, Lowercase;
    var authority := if u.authority.Some? then "//" + SerializeAuthority(u.authority.value) else "";
    var after := authority + SerializeTail(u.tail);
    AbsoluteReference(u.scheme, after, "");
    assert u.scheme + ":" + authority + SerializeTail(u.tail) == u.scheme + ":" + after;
  }

  /** The empty reference is the base itself. */
  lemma EmptyReference(base: string)
    ensures ParseRelative("", base) == ParseAbsolute(base)
  {
  }

  /** A reference with its own authority takes only the scheme of an accepted base. */
  lemma AuthorityReference(authority: string, rest: string, base: string)
    requires ParseAbsolute(base).Ok? && Clean(authority, AUTHORITY_END) && (rest == "" || rest[0] in AUTHORITY_END)
    ensures var b := ParseAbsolute(base).value;
            ParseRelative("//" + authority + rest, base) ==
            if !Clean(authority, WHITESPACE) || !Clean(rest, WHITESPACE) then Err(Invalid)
            else if ParseAuthority(authority).None? then Err(MissingHost)
            else Ok(Assemble(b.scheme, Some(ParseAuthority(authority).value), ParseTail(rest, true)))
  {
    hide ParseAbsolute, ParseTail, ParseAuthority, Until, Assemble;
    ParsedIsNormal(base);
    var b := ParseAbsolute(base).value;
    var input := "//" + authority + rest;
    assert input == "//" + (authority + rest);
    NoScheme(input);
    CleanConcat("//", authority + rest, WHITESPACE);
    CleanConcat(authority, rest, WHITESPACE);
    ParsePrefixed(b.scheme, input);
    assert input[2..] == authority + rest;
    UntilClean(authority, rest, AUTHORITY_END);
    assert (authority + rest)[..|authority|] == authority && (authority + rest)[|authority|..] == rest;
  }

  lemma NoScheme(input: string)
    requires "//" <= input
    ensures !HasAbsoluteScheme(input)
  {
    assert Until(input, AUTHORITY_END) == 0;
  }

  // ---------------------------------------------------------------- parts

  /** An authority given by its parts: any user name and password, and a bracketed or named host with a port. */
  predicate GoodAuthority(a: Authority) {
    && Clean(a.username, ":") && a.hostname != ""
    && (if a.host == "[" + a.hostname + "]" then
          Clean(a.hostname, "]@") && Clean(a.port, "@") && a.hostIsIpLiteral == LooksLikeIpv6(a.hostname)
        else
          && a.host == a.hostname && a.hostname[0] != '[' && Lowercase(a.hostname) == a.hostname
          && Clean(a.hostname, ":@") && Clean(a.port, ":@") && a.hostIsIpLiteral == LooksLikeIpv4(a.hostname))
    && AllClean(a, AUTHORITY_END) && AllClean(a, WHITESPACE)
  }

  predicate AllClean(a: Authority, stops: string) {
    Clean(a.username, stops) && Clean(a.password, stops) && Clean(a.host, stops) && Clean(a.port, stops)
  }

  lemma HostPortOfParts(a: Authority)
    requires GoodAuthority(a)
    ensures ParseHostPort(SerializeHostPort(a.host, a.port))
            == Some(HostPort(a.host, a.hostname, a.port, a.hostIsIpLiteral))
    ensures Clean(SerializeHostPort(a.host, a.port), "@")
  {
    hide Until, LastOf, LooksLikeIpv4, LooksLikeIpv6, ParseHostPort, Lowercase;
    if a.host == "[" + a.hostname + "]" {
      BracketRoundTrip(a.hostname, a.port);
    } else {
      LastNone(a.hostname, ':');
      NamedHostRoundTrip(a.hostname, a.port);
    }
  }

  lemma SerializedClean(a: Authority, stops: string)
    requires AllClean(a, stops) && ':' !in stops && '@' !in stops
    ensures Clean(SerializeAuthority(a), stops)
  {
    CleanConcat(":", a.port, stops);
    CleanConcat(a.host, ":" + a.port, stops);
    assert a.host + (":" + a.port) == a.host + ":" + a.port;
    CleanConcat(a.username, "@", stops);
    CleanConcat(a.username, ":", stops);
    CleanConcat(a.username + ":", a.password, stops);
    CleanConcat(a.username + ":" + a.password, "@", stops);
    CleanConcat(SerializeUserinfo(a), SerializeHostPort(a.host, a.port), stops);
  }

  /** Any such authority, printed, is read back part by part. */
  lemma AuthorityOfParts(a: Authority)
    requires GoodAuthority(a)
    ensures NormalAuthority(a)
  {
    hide ParseAuthority, ParseHostPort, SerializeHostPort, Clean, SerializeAuthority;
    HostPortOfParts(a);
    PrintedAuthority(a);
    SerializedClean(a, AUTHORITY_END);
    SerializedClean(a, WHITESPACE);
  }

  /** Any scheme, authority, path, query and fragment, printed, are read back as they are. */
  lemma PartsRoundTrip(scheme: string, authority: Option<Authority>, tail: Tail)
    requires NormalScheme(scheme) && (authority.Some? ==> GoodAuthority(authority.value))
    requires NormalTail(tail, authority.Some?)
    ensures ParseAbsolute(Prefix(scheme, authority) + SerializeTail(tail)) == Ok(Assemble(scheme, authority, tail))
  {
    hide ParseAbsolute, NormalScheme, NormalTail, NormalAuthority, SerializeTail, Prefix;
    if authority.Some? {
      AuthorityOfParts(authority.value);
    }
    ParseAssembled(scheme, authority, tail);
  }

  // ---------------------------------------------------------------- address literals

  function Decimal(s: string): nat
    requires forall i :: 0 <= i < |s| ==> IsDigit(s[i])
  {
    if s == "" then 0
    else
      assert IsDigit(s[|s| - 1]);
      10 * Decimal(s[..|s| - 1]) + (s[|s| - 1] as int - '0' as int)
  }

  /** A part of one to three digits is accepted exactly when its value is at most 255. */
  lemma Ipv4PartValue(s: string)
    requires 1 <= |s| <= 3 && forall i :: 0 <= i < |s| ==> IsDigit(s[i])
    ensures Ipv4Part(s) <==> Decimal(s) <= 255
  {
    assert s[..|s| - 1][..|s[..|s| - 1]|] == s[..|s| - 1];
    if |s| == 3 {
      assert s[..2][..1] == s[..1] && s[..1][..0] == "";
      assert Decimal(s[..1]) == s[0] as int - '0' as int;
      assert Decimal(s[..2]) == 10 * Decimal(s[..1]) + (s[1] as int - '0' as int);
    } else if |s| == 2 {
      assert s[..1][..0] == "";
      assert Decimal(s[..1]) == s[0] as int - '0' as int;
    } else {
      assert s[..0] == "";
    }
  }

  function Dotted(parts: seq<string>): string {
    if parts == [] then "" else if |parts| == 1 then parts[0] else parts[0] + ("." + Dotted(parts[1..]))
  }

  lemma {:induction false} PartsCounted(parts: seq<string>)
    requires parts != [] && forall i :: 0 <= i < |parts| ==> Ipv4Part(parts[i])
    ensures Ipv4Parts(Dotted(parts)) == Some(|parts|)
  {
    hide Until, Ipv4Part, Ipv4Parts, Clean;
    var first := parts[0];
    PartHasNoDot(first);
    if |parts| == 1 {
      UntilAll(first, ".");
      assert first[..|first|] == first;
      PartsStep(first);
    } else {
      PartsCounted(parts[1..]);
      var rest := Dotted(parts[1..]);
      UntilClean(first, "." + rest, ".");
      var whole := first + ("." + rest);
      assert whole[..|first|] == first && whole[|first| + 1..] == rest;
      PartsStep(whole);
    }
  }

  lemma PartsStep(s: string)
    requires Ipv4Part(s[..Until(s, ".")])
    ensures Until(s, ".") == |s| ==> Ipv4Parts(s) == Some(1)
    ensures Until(s, ".") < |s| && Ipv4Parts(s[Until(s, ".") + 1..]).Some? ==>
              Ipv4Parts(s) == Some(Ipv4Parts(s[Until(s, ".") + 1..]).value + 1)
  {
    hide Until, Ipv4Part;
  }

  lemma PartHasNoDot(s: string)
    requires Ipv4Part(s)
    ensures Clean(s, ".")
  {
    var digits := if s != "" && s[0] == '-' then s[1..] else s;
    forall i | 0 <= i < |s| ensures s[i] !in "." {
      assert s[i] == '-' || IsDigit(digits[if s[0] == '-' then i - 1 else i]);
    }
  }

  /** A host is taken for an IPv4 address exactly when it has four such parts. */
  lemma FourParts(parts: seq<string>)
    requires parts != [] && forall i :: 0 <= i < |parts| ==> Ipv4Part(parts[i])
    ensures LooksLikeIpv4(Dotted(parts)) <==> |parts| == 4
  {
    hide Ipv4Parts, Dotted;
    PartsCounted(parts);
  }
}
