/** The JavaScript string and array built-ins the template translator
    relies on, with their ECMAScript semantics written out. */
module JsString {
  import opened Results

  /** The characters `String.prototype.trim` removes: the WhiteSpace and
      LineTerminator code points of ECMAScript. */
  predicate IsJsSpace(c: char) {
    || c == ' ' || c == '\t' || c == '\n' || c == '\r' || c == '\U{000B}' || c == '\U{000C}'
    || c == '\U{00A0}' || c == '\U{FEFF}' || c == '\U{1680}'
    || ('\U{2000}' <= c <= '\U{200A}')
    || c == '\U{2028}' || c == '\U{2029}' || c == '\U{202F}' || c == '\U{205F}' || c == '\U{3000}'
  }

  predicate AllSpace(s: string) {
    forall k :: 0 <= k < |s| ==> IsJsSpace(s[k])
  }

  /** Drop leading white space: the result is the suffix of `s` that
      starts at its first non-space character. */
  function TrimStart(s: string): (r: string)
    ensures |r| <= |s| && r == s[|s| - |r|..]
    ensures AllSpace(s[..|s| - |r|])
    ensures |r| > 0 ==> !IsJsSpace(r[0])
  {
    if |s| > 0 && IsJsSpace(s[0]) then TrimStart(s[1..]) else s
  }

  /** Drop trailing white space: the result is the prefix of `s` that ends
      at its last non-space character. */
  function TrimEnd(s: string): (r: string)
    ensures |r| <= |s| && r == s[..|r|]
    ensures AllSpace(s[|r|..])
    ensures |r| > 0 ==> !IsJsSpace(r[|r| - 1])
  {
    if |s| > 0 && IsJsSpace(s[|s| - 1]) then TrimEnd(s[..|s| - 1]) else s
  }

  /** `s.trim()`. */
  function Trim(s: string): (r: string)
    ensures |r| <= |s|
    ensures |r| > 0 ==> !IsJsSpace(r[0]) && !IsJsSpace(r[|r| - 1])
  {
    TrimEnd(TrimStart(s))
  }

  /** `trim` removes white space at both ends and nothing else: the result
      is an infix of `s` bordered only by white space, and does not itself
      start or end with white space. */
  lemma TrimSpec(s: string)
    ensures var r := Trim(s);
      exists i :: 0 <= i <= |s| - |r| && r == s[i..i + |r|] && AllSpace(s[..i]) && AllSpace(s[i + |r|..])
    ensures |Trim(s)| > 0 ==> !IsJsSpace(Trim(s)[0]) && !IsJsSpace(Trim(s)[|Trim(s)| - 1])
  {
    var t := TrimStart(s);
    var r := TrimEnd(t);
    var i := |s| - |t|;
    InfixOf(s, t, r);
    assert 0 <= i <= |s| - |r| && r == s[i..i + |r|] && AllSpace(s[..i]) && AllSpace(s[i + |r|..]);
    if |r| > 0 {
      assert r[0] == t[0];
    }
  }

  /** A prefix `r` of a suffix `t` of `s`, each cut off by white space only,
      is an infix of `s` bordered by white space. */
  lemma InfixOf(s: string, t: string, r: string)
    requires |t| <= |s| && t == s[|s| - |t|..] && AllSpace(s[..|s| - |t|])
    requires |r| <= |t| && r == t[..|r|] && AllSpace(t[|r|..])
    ensures r == s[|s| - |t|..|s| - |t| + |r|]
    ensures AllSpace(s[|s| - |t| + |r|..])
  {
    assert s[|s| - |t| + |r|..] == t[|r|..];
  }

  /** A string without white space at its ends is its own trim. */
  lemma TrimKeepsInner(s: string)
    requires |s| > 0 ==> !IsJsSpace(s[0]) && !IsJsSpace(s[|s| - 1])
    ensures Trim(s) == s
  {
  }

  /** Trimming twice is trimming once. */
  lemma TrimIdempotent(s: string)
    ensures Trim(Trim(s)) == Trim(s)
  {
    TrimSpec(s);
    TrimKeepsInner(Trim(s));
  }

  predicate IsParen(c: char) {
    c == '(' || c == ')'
  }

  /** `s.replace(/\(|\)/g, '')`. */
  function RemoveParens(s: string): (r: string)
    ensures forall k :: 0 <= k < |r| ==> !IsParen(r[k])
    ensures |r| <= |s|
  {
    if |s| == 0 then ""
    else (if IsParen(s[0]) then "" else [s[0]]) + RemoveParens(s[1..])
  }

  /** Removing parentheses works piecewise and keeps every other character
      in order. */
  lemma {:induction false} RemoveParensAppend(a: string, b: string)
    ensures RemoveParens(a + b) == RemoveParens(a) + RemoveParens(b)
  {
    if |a| == 0 {
      assert a + b == b;
    } else {
      assert (a + b)[0] == a[0];
      assert (a + b)[1..] == a[1..] + b;
      RemoveParensAppend(a[1..], b);
    }
  }

  lemma {:induction false} RemoveParensKeepsOthers(s: string)
    requires forall k :: 0 <= k < |s| ==> !IsParen(s[k])
    ensures RemoveParens(s) == s
  {
    if |s| > 0 {
      RemoveParensKeepsOthers(s[1..]);
    }
  }

  /** Index of the first `c` in `s`, or `|s|`. */
  function Find(s: string, c: char): (i: nat)
    ensures i <= |s|
    ensures i < |s| ==> s[i] == c
    ensures forall k :: 0 <= k < i ==> s[k] != c
  {
    if |s| == 0 then 0
    else if s[0] == c then 0
    else 1 + Find(s[1..], c)
  }

  /** `const [a, b] = s.split('.')`: the text before the first dot, and the
      text between the first and second dot when there is a first dot
      (`undefined` otherwise). */
  function SplitDot(s: string): (r: (string, Option<string>))
    ensures '.' !in r.0
    ensures r.1.Some? ==> '.' !in r.1.value
  {
    var i := Find(s, '.');
    if i == |s| then (s, None)
    else
      var rest := s[i + 1..];
      (s[..i], Some(rest[..Find(rest, '.')]))
  }

  /** The split is undone by re-joining with a dot when `s` holds at most
      one dot. */
  lemma SplitDotJoin(s: string)
    requires forall i, j :: 0 <= i < j < |s| && s[i] == '.' ==> s[j] != '.'
    ensures SplitDot(s).1.None? ==> SplitDot(s).0 == s
    ensures SplitDot(s).1.Some? ==> SplitDot(s).0 + "." + SplitDot(s).1.value == s
  {
    var i := Find(s, '.');
    if i < |s| {
      var rest := s[i + 1..];
      assert forall k :: 0 <= k < |rest| ==> rest[k] == s[i + 1 + k];
      assert forall k :: 0 <= k < |rest| ==> rest[k] != '.';
      assert rest[..Find(rest, '.')] == rest;
      assert s[..i] + "." + rest == s;
    }
  }

  /** The name is the text before the first dot. There is a filter exactly
      when `s` holds a dot, and it is the text between the first dot and the
      next one (or the end). */
  lemma SplitDotSpec(s: string)
    ensures SplitDot(s).0 == s[..Find(s, '.')]
    ensures SplitDot(s).1.None? <==> '.' !in s
    ensures SplitDot(s).1.Some? ==>
      var rest := s[|SplitDot(s).0| + 1..];
      SplitDot(s).1.value == rest[..Find(rest, '.')]
  {
    var i := Find(s, '.');
    if i == |s| {
      assert s[..i] == s;
      assert forall k :: 0 <= k < |s| ==> s[k] != '.';
    } else {
      assert s[i] == '.';
      assert |s[..i]| == i;
    }
  }

  /** With two or more dots, the name is the text before the first dot, the
      filter the text between the first and second, and the rest is
      dropped. */
  lemma SplitDotDropsRest(x: string, f: string, g: string)
    requires '.' !in x && '.' !in f
    ensures SplitDot(x + "." + f + "." + g) == (x, Some(f))
  {
    var s := x + "." + f + "." + g;
    FindAbsent(x, "." + f + "." + g);
    assert s == x + ("." + f + "." + g);
    var rest := s[|x| + 1..];
    assert rest == f + ("." + g);
    FindAbsent(f, "." + g);
  }

  /** The first `c` of `a + b` is the first of `b` when `a` holds none. */
  lemma {:induction false} FindAbsent(a: string, b: string)
    requires '.' !in a && |b| > 0 && b[0] == '.'
    ensures Find(a + b, '.') == |a|
  {
    if |a| > 0 {
      assert (a + b)[1..] == a[1..] + b;
      FindAbsent(a[1..], b);
    } else {
      assert a + b == b;
    }
  }

  /** `s.replace(/;$/, '')`: one trailing semicolon removed. */
  function DropTrailingSemicolon(s: string): (r: string)
    ensures r == s || (r + ";" == s)
  {
    if |s| > 0 && s[|s| - 1] == ';' then s[..|s| - 1] else s
  }

  /** Whether `s` contains any of the characters of `cs` (a regular
      expression character class test). */
  predicate ContainsAny(s: string, cs: string) {
    exists k :: 0 <= k < |s| && s[k] in cs
  }

  /** `xs.splice(start, 1)` on an array, with ECMAScript's normalisation of
      the start index: a negative start counts from the end (clamped at 0),
      a start past the end removes nothing. */
  function SpliceOne<T>(xs: seq<T>, start: int): (r: seq<T>)
    ensures 0 <= start < |xs| ==> r == xs[..start] + xs[start + 1..]
    ensures -|xs| <= start < 0 ==> r == xs[..|xs| + start] + xs[|xs| + start + 1..]
    ensures start < -|xs| && |xs| > 0 ==> r == xs[1..]
    ensures start >= |xs| || |xs| == 0 ==> r == xs
  {
    var k := if start < 0 then (if |xs| + start < 0 then 0 else |xs| + start) else start;
    if k < |xs| then xs[..k] + xs[k + 1..] else xs
  }

  /** `splice(-1, 1)` on a non-empty array drops its last element. */
  lemma SpliceMinusOneDropsLast<T>(xs: seq<T>)
    requires |xs| > 0
    ensures SpliceOne(xs, -1) == xs[..|xs| - 1]
  {
    assert xs[|xs|..] == [];
  }
}
