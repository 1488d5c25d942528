/** Substring search and other string primitives shared by the protocol parsers. */
module Text {

  datatype Option<+T> = None | Some(value: T)

  /** `pat` occupies `s[i..i + |pat|]`. */
  predicate OccursAt(s: string, pat: string, i: int) {
    0 <= i && i + |pat| <= |s| && s[i..i + |pat|] == pat
  }

  /** The first occurrence of `pat` at or after `from` (`std::string_view::find`). */
  function Find(s: string, pat: string, from: nat): (r: Option<nat>)
    ensures r.Some? ==> from <= r.value && r.value + |pat| <= |s|
    decreases |s| - from
  {
    if OccursAt(s, pat, from) then Some(from)
    else if |s| <= from then None
    else Find(s, pat, from + 1)
  }

  /** `Find` is the least occurrence at or after `from`. */
  lemma {:induction false} FindIsFirst(s: string, pat: string, from: nat)
    ensures var r := Find(s, pat, from);
            if r.Some? then
              OccursAt(s, pat, r.value) && forall i :: from <= i < r.value ==> !OccursAt(s, pat, i)
            else
              forall i :: from <= i ==> !OccursAt(s, pat, i)
    decreases |s| - from
  {
    if !OccursAt(s, pat, from) && from < |s| {
      FindIsFirst(s, pat, from + 1);
    }
  }

  /** The least occurrence is what `Find` returns. */
  lemma FindUnique(s: string, pat: string, from: nat, at: nat)
    requires from <= at && OccursAt(s, pat, at)
    requires forall i :: from <= i < at ==> !OccursAt(s, pat, i)
    ensures Find(s, pat, from) == Some(at)
  {
    hide Find;
    FindIsFirst(s, pat, from);
  }

  /** An occurrence in a prefix is an occurrence in the whole, and conversely while it fits. */
  lemma OccursInPrefix(t: string, k: nat, pat: string, i: int)
    requires k <= |t|
    ensures OccursAt(t[..k], pat, i) <==> OccursAt(t, pat, i) && i + |pat| <= k
  {
    if 0 <= i && i + |pat| <= k {
      assert t[..k][i..i + |pat|] == t[i..i + |pat|];
    }
  }

  /** An occurrence moves with the text it lies in. */
  lemma OccursInSuffix(t: string, d: nat, pat: string, i: int)
    requires d <= |t| && 0 <= i
    ensures OccursAt(t[d..], pat, i) <==> OccursAt(t, pat, d + i)
  {
    if i + |pat| <= |t| - d {
      assert t[d..][i..i + |pat|] == t[d + i..d + i + |pat|];
    }
  }

  lemma SliceOfWindow<T>(t: seq<T>, c: nat, n: nat, i: nat, j: nat)
    requires c <= n <= |t| && i <= j <= n - c
    ensures t[c..n][i..j] == t[c + i..c + j]
  {
    forall k | 0 <= k < j - i
      ensures t[c..n][i..j][k] == t[c + i..c + j][k]
    {
      assert t[c..n][i + k] == t[c + (i + k)];
    }
  }

  /** Searching a window `t[c..n]` finds what searching `t` finds, once it lies inside the window. */
  lemma FindInWindow(t: string, c: nat, n: nat, pat: string, from: nat)
    requires c <= n <= |t|
    ensures Find(t, pat, c + from).Some? && Find(t, pat, c + from).value + |pat| <= n ==>
              Find(t[c..n], pat, from) == Some(Find(t, pat, c + from).value - c)
    ensures Find(t, pat, c + from).None? || n < Find(t, pat, c + from).value + |pat| ==>
              Find(t[c..n], pat, from).None?
  {
    hide Find;
    var w := t[c..n];
    FindIsFirst(t, pat, c + from);
    FindIsFirst(w, pat, from);
    assert w == t[c..][..n - c];
    forall i: int | from <= i
      ensures OccursAt(w, pat, i) <==> OccursAt(t, pat, c + i) && c + i + |pat| <= n
    {
      OccursInPrefix(t[c..], n - c, pat, i);
      OccursInSuffix(t, c, pat, i);
    }
    var whole := Find(t, pat, c + from);
    var part := Find(w, pat, from);
    if part.Some? {
      assert OccursAt(t, pat, c + part.value);
    }
    if whole.Some? && whole.value + |pat| <= n {
      assert OccursAt(t, pat, c + (whole.value - c));
      assert OccursAt(w, pat, whole.value - c);
      assert part.value <= whole.value - c;
    }
  }

  /** Searching from an offset is searching what is behind it. */
  lemma FindBehind(t: string, offset: nat, pat: string)
    requires offset <= |t|
    ensures Find(t, pat, offset) ==
            if Find(t[offset..], pat, 0).Some? then Some(offset + Find(t[offset..], pat, 0).value) else None
  {
    hide Find;
    FindInWindow(t, offset, |t|, pat, 0);
    assert t[offset..|t|] == t[offset..];
  }

  // ---------------------------------------------------------------- line breaks

  predicate NoBreak(s: string) {
    forall i :: 0 <= i < |s| ==> !OccursAt(s, "\r\n", i)
  }

  lemma BreakAtCr(s: string, i: int)
    ensures OccursAt(s, "\r\n", i) <==> 0 <= i && i + 2 <= |s| && s[i] == '\r' && s[i + 1] == '\n'
  {
    if 0 <= i && i + 2 <= |s| {
      assert s[i..i + 2] == [s[i], s[i + 1]];
    }
  }

  lemma BreakEnds(line: string, rest: string)
    requires NoBreak(line)
    ensures Find(line + ("\r\n" + rest), "\r\n", 0) == Some(|line|)
    ensures Find(line, "\r\n", 0) == None
  {
    hide Find;
    var t := line + ("\r\n" + rest);
    assert t[|line|..|line| + 2] == "\r\n";
    forall i | 0 <= i < |line| ensures !OccursAt(t, "\r\n", i) {
      BreakAtCr(t, i);
      BreakAtCr(line, i);
    }
    FindUnique(t, "\r\n", 0, |line|);
    FindIsFirst(line, "\r\n", 0);
  }

  /** Concatenation of a list of strings. */
  function Concat(parts: seq<string>): (r: string) {
    if parts == [] then "" else parts[0] + Concat(parts[1..])
  }

  lemma {:induction false} ConcatSplit(a: seq<string>, b: seq<string>)
    ensures Concat(a + b) == Concat(a) + Concat(b)
  {
    if a == [] {
      assert a + b == b;
    } else {
      assert (a + b)[1..] == a[1..] + b;
      ConcatSplit(a[1..], b);
    }
  }

  lemma ConcatSnoc(a: seq<string>, x: string)
    ensures Concat(a + [x]) == Concat(a) + x
  {
    ConcatSplit(a, [x]);
    assert [x][1..] == [];
    assert Concat([x]) == x + "";
  }

  // ---------------------------------------------------------------- scanning for single characters

  predicate IsDigit(c: char) { '0' <= c <= '9' }

  /** `std::tolower` in the C locale. */
  function Lower(c: char): (r: char)
    ensures if 'A' <= c <= 'Z' then r as int - c as int == 32 else r == c
    ensures !('A' <= r <= 'Z')
  {
    if 'A' <= c <= 'Z' then (c as int - 'A' as int + 'a' as int) as char else c
  }

  /** The value of a hexadecimal digit, or -1. */
  function HexValue(c: char): (v: int)
    ensures -1 <= v < 16
  {
    if '0' <= c <= '9' then c as int - '0' as int
    else if 'a' <= c <= 'f' then c as int - 'a' as int + 10
    else if 'A' <= c <= 'F' then c as int - 'A' as int + 10
    else -1
  }

  /** No character of `s` is one of `stops`. */
  predicate Clean(s: string, stops: string) {
    forall i :: 0 <= i < |s| ==> s[i] !in stops
  }

  /** The first position holding one of `stops`, or the end (`find`, `find_first_of`). */
  function Until(s: string, stops: string): (r: nat)
    ensures r <= |s| && Clean(s[..r], stops)
    ensures r < |s| ==> s[r] in stops
  {
    if s == "" || s[0] in stops then 0 else
      var r := 1 + Until(s[1..], stops);
      assert s[..r] == [s[0]] + s[1..][..r - 1];
      r
  }

  /** The last position of `c`, or -1 (`rfind`). */
  function LastOf(s: string, c: char): (r: int)
    ensures -1 <= r < |s|
    ensures 0 <= r ==> s[r] == c
    ensures forall i :: r < i < |s| ==> s[i] != c
  {
    if s == "" then -1
    else if s[|s| - 1] == c then |s| - 1
    else LastOf(s[..|s| - 1], c)
  }

  lemma {:induction false} UntilClean(a: string, b: string, stops: string)
    requires Clean(a, stops) && (b == "" || b[0] in stops)
    ensures Until(a + b, stops) == |a|
  {
    if a == "" {
      assert a + b == b;
    } else {
      assert (a + b)[1..] == a[1..] + b;
      UntilClean(a[1..], b, stops);
    }
  }

  lemma UntilAll(a: string, stops: string)
    requires Clean(a, stops)
    ensures Until(a, stops) == |a|
  {
    UntilClean(a, "", stops);
    assert a + "" == a;
  }

  lemma {:induction false} LastClean(a: string, c: char, b: string)
    requires Clean(b, [c])
    ensures LastOf(a + [c] + b, c) == |a|
  {
    var s := a + [c] + b;
    if b == "" {
      assert s[|s| - 1] == c;
    } else {
      assert s[|s| - 1] == b[|b| - 1];
      assert s[..|s| - 1] == a + [c] + b[..|b| - 1];
      LastClean(a, c, b[..|b| - 1]);
    }
  }

  lemma {:induction false} LastNone(s: string, c: char)
    requires Clean(s, [c])
    ensures LastOf(s, c) == -1
  {
    if s != "" {
      LastNone(s[..|s| - 1], c);
    }
  }

  lemma CleanConcat(a: string, b: string, stops: string)
    ensures Clean(a + b, stops) <==> Clean(a, stops) && Clean(b, stops)
  {
    if Clean(a + b, stops) {
      forall i | 0 <= i < |a| ensures a[i] !in stops { assert (a + b)[i] == a[i]; }
      forall i | 0 <= i < |b| ensures b[i] !in stops { assert (a + b)[|a| + i] == b[i]; }
    }
  }
}
