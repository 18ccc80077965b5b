/** String operations the applications borrow from Python and SQLite:
    `str.strip()`, ASCII `lower()`, SQLite's `LIKE` matcher,
    `os.path.splitext` (POSIX flavour) and Python's string ordering. */
module Text {

  /** The characters Python's `str.isspace()` accepts, which `str.strip()` removes. */
  predicate IsSpace(c: char) {
    || c == ' '
    || ('\t' <= c <= '\r')
    || ('\U{1C}' <= c <= '\U{1F}')
    || c == '\U{85}' || c == '\U{A0}' || c == '\U{1680}'
    || ('\U{2000}' <= c <= '\U{200A}')
    || c == '\U{2028}' || c == '\U{2029}' || c == '\U{202F}' || c == '\U{205F}' || c == '\U{3000}'
  }

  /** Every character of `t` is whitespace. */
  predicate AllSpace(t: string) {
    forall k :: 0 <= k < |t| ==> IsSpace(t[k])
  }

  /** `s.lstrip()`: the longest suffix of `s` that does not start with whitespace. */
  function TrimStart(s: string): (r: string)
    ensures |r| <= |s| && r == s[|s| - |r|..]
    ensures forall k :: 0 <= k < |s| - |r| ==> IsSpace(s[k])
    ensures AllSpace(s[..|s| - |r|])
    ensures r != [] ==> !IsSpace(r[0])
  {
    if s != [] && IsSpace(s[0]) then TrimStart(s[1..]) else s
  }

  /** `s.rstrip()`: the longest prefix of `s` that does not end with whitespace. */
  function TrimEnd(s: string): (r: string)
    ensures |r| <= |s| && r == s[..|r|]
    ensures forall k :: |r| <= k < |s| ==> IsSpace(s[k])
    ensures AllSpace(s[|r|..])
    ensures r != [] ==> !IsSpace(r[|r| - 1])
  {
    if s != [] && IsSpace(s[|s| - 1]) then TrimEnd(s[..|s| - 1]) else s
  }

  /** `r` is the slice of `s` from `i` on, and only whitespace surrounds it in `s`. */
  predicate TrimmedAt(s: string, r: string, i: int) {
    0 <= i <= |s| - |r| && r == s[i..i + |r|] && AllSpace(s[..i]) && AllSpace(s[i + |r|..])
  }

  /** `s.strip()`: the slice of `s` left after removing whitespace at both ends. */
  function Strip(s: string): (r: string)
    ensures exists i :: TrimmedAt(s, r, i)
    ensures r != [] ==> !IsSpace(r[0]) && !IsSpace(r[|r| - 1])
    ensures r == [] <==> forall k :: 0 <= k < |s| ==> IsSpace(s[k])
    ensures (forall k :: 0 <= k < |s| ==> !IsSpace(s[k])) ==> r == s
  {
    StripEnds(s);
    StripSlice(s);
    TrimEnd(TrimStart(s))
  }

  lemma StripSlice(s: string)
    ensures TrimmedAt(s, TrimEnd(TrimStart(s)), |s| - |TrimStart(s)|)
  {
    var u := TrimStart(s);
    TrimmedInside(s, u, TrimEnd(u), |s| - |u|);
  }

  /** Trimming a suffix `u` of `s` at its end leaves a slice of `s` with only whitespace around it. */
  lemma TrimmedInside(s: string, u: string, r: string, i: nat)
    requires i <= |s| && u == s[i..] && AllSpace(s[..i])
    requires |r| <= |u| && r == u[..|r|] && AllSpace(u[|r|..])
    ensures TrimmedAt(s, r, i)
  {
    PrefixOfSuffix(s, i, |r|);
    assert s[i + |r|..] == u[|r|..];
  }

  lemma StripEnds(s: string)
    ensures var u := TrimStart(s); var r := TrimEnd(u);
      && (r == [] <==> forall k :: 0 <= k < |s| ==> IsSpace(s[k]))
      && (r != [] ==> !IsSpace(r[0]))
      && ((forall k :: 0 <= k < |s| ==> !IsSpace(s[k])) ==> r == s)
  {
    var u := TrimStart(s);
    var r := TrimEnd(u);
    assert r != [] ==> r[0] == u[0];
    if u != [] {
      assert !IsSpace(u[0]);
      assert |r| > 0;
    }
  }

  lemma PrefixOfSuffix(s: string, i: nat, n: nat)
    requires i + n <= |s|
    ensures s[i..][..n] == s[i..i + n]
  {
  }

  /** SQLite's `lower()`: only ASCII capitals change, each into its small letter. */
  function LowerChar(c: char): (r: char)
    ensures !('A' <= r <= 'Z')
    ensures r == c <==> !('A' <= c <= 'Z')
    ensures 'A' <= c <= 'Z' ==> r as int == c as int + 32
    ensures 'a' <= r <= 'z' <==> 'A' <= c <= 'Z' || 'a' <= c <= 'z'
    ensures (r == '%' <==> c == '%') && (r == '_' <==> c == '_')
  {
    if 'A' <= c <= 'Z' then (c as int + 32) as char else c
  }

  function AsciiLower(s: string): (r: string)
    ensures |r| == |s|
    ensures forall i :: 0 <= i < |s| ==> r[i] == LowerChar(s[i])
  {
    if s == [] then [] else [LowerChar(s[0])] + AsciiLower(s[1..])
  }

  lemma {:induction false} AsciiLowerConcat(a: string, b: string)
    ensures AsciiLower(a + b) == AsciiLower(a) + AsciiLower(b)
  {
    var l, r := AsciiLower(a + b), AsciiLower(a) + AsciiLower(b);
    assert |l| == |r|;
    forall i | 0 <= i < |l| ensures l[i] == r[i] {
      if i < |a| { assert (a + b)[i] == a[i]; } else { assert (a + b)[i] == b[i - |a|]; }
    }
  }

  // ---------------------------------------------------------------------
  // SQLite LIKE

  /** SQLite's `LIKE` without an ESCAPE clause: `%` matches any run of
      characters, `_` any single character, anything else itself. */
  predicate Like(t: string, p: string)
    decreases |t| + |p|
  {
    if p == [] then t == []
    else if p[0] == '%' then Like(t, p[1..]) || (t != [] && Like(t[1..], p))
    else t != [] && (p[0] == '_' || p[0] == t[0]) && Like(t[1..], p[1..])
  }

  predicate NoWildcards(s: string) {
    forall i :: 0 <= i < |s| ==> s[i] != '%' && s[i] != '_'
  }

  predicate IsPrefix(s: string, t: string) {
    |s| <= |t| && t[..|s|] == s
  }

  /** `s` occurs in `t` as a contiguous substring. */
  predicate Contains(t: string, s: string) {
    exists i :: 0 <= i <= |t| - |s| && IsPrefix(s, t[i..])
  }

  lemma {:induction false} LikeTrailingPercent(t: string)
    ensures Like(t, "%")
  {
    if t != [] { LikeTrailingPercent(t[1..]); }
  }

  /** A wildcard-free `s` followed by `%` matches exactly the texts starting with `s`. */
  lemma {:induction false} LikePrefix(t: string, s: string)
    requires NoWildcards(s)
    ensures Like(t, s + "%") <==> IsPrefix(s, t)
  {
    if s == [] {
      assert s + "%" == "%";
      LikeTrailingPercent(t);
    } else {
      assert (s + "%")[0] == s[0] && (s + "%")[1..] == s[1..] + "%";
      if t != [] {
        LikePrefix(t[1..], s[1..]);
        if IsPrefix(s, t) {
          assert t[1..][..|s| - 1] == t[..|s|][1..];
        }
        if IsPrefix(s[1..], t[1..]) && s[0] == t[0] {
          assert t[..|s|] == [t[0]] + t[1..][..|s| - 1];
        }
      }
    }
  }

  lemma {:induction false} ContainsStep(t: string, s: string)
    ensures Contains(t, s) <==> IsPrefix(s, t) || (t != [] && Contains(t[1..], s))
  {
    if Contains(t, s) {
      var i :| 0 <= i <= |t| - |s| && IsPrefix(s, t[i..]);
      if i > 0 {
        assert t[1..][i - 1..] == t[i..];
        assert Contains(t[1..], s);
      } else {
        assert t[0..] == t;
      }
    }
    if IsPrefix(s, t) {
      assert t[0..] == t;
      assert Contains(t, s);
    }
    if t != [] && Contains(t[1..], s) {
      var i :| 0 <= i <= |t[1..]| - |s| && IsPrefix(s, t[1..][i..]);
      assert t[1..][i..] == t[i + 1..];
      assert Contains(t, s);
    }
  }

  /** `%s%` with a wildcard-free `s` is a substring test. */
  lemma {:induction false} LikeInfix(t: string, s: string)
    requires NoWildcards(s)
    ensures Like(t, "%" + s + "%") <==> Contains(t, s)
  {
    var p := "%" + s + "%";
    assert p[0] == '%' && p[1..] == s + "%";
    LikePrefix(t, s);
    ContainsStep(t, s);
    if t != [] {
      LikeInfix(t[1..], s);
    }
  }

  // ---------------------------------------------------------------------
  // os.path.splitext (posixpath)

  /** `s.rfind(c)`: the last index of `c`, or -1. */
  function LastIndex(s: string, c: char): (r: int)
    ensures -1 <= r < |s|
    ensures r >= 0 ==> s[r] == c
    ensures forall k :: r < k < |s| ==> s[k] != c
  {
    if s == [] then -1
    else if s[|s| - 1] == c then |s| - 1
    else LastIndex(s[..|s| - 1], c)
  }

  /** The second half of `os.path.splitext(p)` on POSIX: from the last dot
      on, provided that dot lies in the last path component and is preceded
      there by some character other than a dot; otherwise empty. */
  function Extension(p: string): (r: string)
    ensures r == [] || (r[0] == '.' && |r| <= |p| && r == p[|p| - |r|..])
    ensures forall k :: 1 <= k < |r| ==> r[k] != '.' && r[k] != '/'
  {
    var dot := LastIndex(p, '.');
    var sep := LastIndex(p, '/');
    if dot > sep && exists k :: sep < k < dot && p[k] != '.' then p[dot..] else ""
  }

  /** A non-empty extension is preceded, within the last path component, by
      a character other than a dot: a leading dot does not start one. */
  lemma ExtensionHasStem(p: string)
    requires Extension(p) != []
    ensures exists k :: 0 <= k < |p| - |Extension(p)| && p[k] != '.' && p[k] != '/'
                        && forall m :: k < m < |p| - |Extension(p)| ==> p[m] != '/'
  {
  }

  /** The converse: a last dot that lies in the last path component, after a
      character of that component other than a dot, starts the extension. */
  lemma ExtensionFromLastDot(p: string, stem: nat, dot: nat)
    requires stem < dot < |p| && p[dot] == '.' && p[stem] != '.'
    requires forall m :: dot < m < |p| ==> p[m] != '.'
    requires forall m :: stem <= m < |p| ==> p[m] != '/'
    ensures Extension(p) == p[dot..]
  {
    assert LastIndex(p, '.') == dot;
    assert LastIndex(p, '/') < stem;
  }

  // ---------------------------------------------------------------------
  // Python string ordering

  /** Python's `a < b` on strings: lexicographic by code point, a proper prefix first. */
  predicate LexLess(a: string, b: string) {
    if a == [] then b != []
    else b != [] && (a[0] < b[0] || (a[0] == b[0] && LexLess(a[1..], b[1..])))
  }
}
