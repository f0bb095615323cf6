/** The string operations of Python's `str` that the core relies on: `lower`, `strip` and `startswith`. */
module Text {

  /** The characters for which Python's `str.isspace()` is true; `str.strip()` with no argument removes these. */
  const Whitespace: set<char> := {
    '\t', '\n', '\U{0b}', '\U{0c}', '\r', '\U{1c}', '\U{1d}', '\U{1e}', '\U{1f}', ' ',
    '\U{85}', '\U{a0}', '\U{1680}',
    '\U{2000}', '\U{2001}', '\U{2002}', '\U{2003}', '\U{2004}', '\U{2005}',
    '\U{2006}', '\U{2007}', '\U{2008}', '\U{2009}', '\U{200a}',
    '\U{2028}', '\U{2029}', '\U{202f}', '\U{205f}', '\U{3000}'
  }

  /** Lower-casing of one ASCII letter; every other character is left alone. */
  function LowerChar(c: char): char {
    if 'A' <= c <= 'Z' then (c as int - 'A' as int + 'a' as int) as char else c
  }

  predicate IsUpper(c: char) {
    'A' <= c <= 'Z'
  }

  /** `s.lower()` restricted to ASCII letters. */
  function Lower(s: string): (r: string)
    ensures |r| == |s|
    ensures forall i :: 0 <= i < |r| ==> !IsUpper(r[i])
    ensures forall i :: 0 <= i < |r| && !IsUpper(s[i]) ==> r[i] == s[i]
    ensures forall i :: 0 <= i < |r| && IsUpper(s[i]) ==> r[i] as int == s[i] as int + 32
  {
    seq(|s|, i requires 0 <= i < |s| => LowerChar(s[i]))
  }

  /** Lower-casing twice is lower-casing once. */
  lemma LowerIdempotent(s: string)
    ensures Lower(Lower(s)) == Lower(s)
  {
  }

  /** `x` and `y` are the same character, or the upper-case and lower-case forms of one ASCII letter. */
  predicate SameLetterIgnoringCase(x: char, y: char) {
    || x == y
    || (IsUpper(x) && y as int == x as int + 32)
    || (IsUpper(y) && x as int == y as int + 32)
  }

  /** `a` and `b` differ at most in the ASCII case of their letters, position by position. */
  predicate EqualIgnoringCase(a: string, b: string) {
    |a| == |b| && forall i :: 0 <= i < |a| ==> SameLetterIgnoringCase(a[i], b[i])
  }

  /** Lower-casing identifies exactly the strings that differ only in ASCII case. */
  lemma LowerEqualIff(a: string, b: string)
    ensures Lower(a) == Lower(b) <==> EqualIgnoringCase(a, b)
  {
    if Lower(a) == Lower(b) {
      forall i | 0 <= i < |a|
        ensures SameLetterIgnoringCase(a[i], b[i])
      {
        assert Lower(a)[i] == Lower(b)[i];
      }
    }
    if EqualIgnoringCase(a, b) {
      forall i | 0 <= i < |a|
        ensures Lower(a)[i] == Lower(b)[i]
      {
        assert SameLetterIgnoringCase(a[i], b[i]);
      }
    }
  }

  /** `s.startswith(prefix)`. */
  predicate StartsWith(s: string, prefix: string) {
    |prefix| <= |s| && s[..|prefix|] == prefix
  }

  /** `s.lstrip(chars)`: drops the longest prefix made only of characters in `cs`. */
  function TrimStart(s: string, cs: set<char>): (r: string)
    ensures |r| <= |s| && r == s[|s| - |r|..]
    ensures forall i :: 0 <= i < |s| - |r| ==> s[i] in cs
    ensures r != [] ==> r[0] !in cs
    decreases |s|
  {
    if s != [] && s[0] in cs then TrimStart(s[1..], cs) else s
  }

  /** `s.rstrip(chars)`: drops the longest suffix made only of characters in `cs`. */
  function TrimEnd(s: string, cs: set<char>): (r: string)
    ensures |r| <= |s| && r == s[..|r|]
    ensures forall i :: |r| <= i < |s| ==> s[i] in cs
    ensures r != [] ==> r[|r| - 1] !in cs
    decreases |s|
  {
    if s != [] && s[|s| - 1] in cs then TrimEnd(s[..|s| - 1], cs) else s
  }

  /** Where the result of `Strip(s, cs)` begins inside `s`. */
  function StripOffset(s: string, cs: set<char>): nat
  {
    |s| - |TrimStart(s, cs)|
  }

  /** `s.strip(chars)`: the infix of `s` that neither starts nor ends with a character of `cs`,
      everything cut off on either side being in `cs`. */
  function Strip(s: string, cs: set<char>): (r: string)
    ensures |r| <= |s| && StripOffset(s, cs) + |r| <= |s|
    ensures r == s[StripOffset(s, cs)..StripOffset(s, cs) + |r|]
    ensures forall k :: 0 <= k < StripOffset(s, cs) ==> s[k] in cs
    ensures forall k :: StripOffset(s, cs) + |r| <= k < |s| ==> s[k] in cs
    ensures r != [] ==> r[0] !in cs && r[|r| - 1] !in cs
  {
    TrimEnd(TrimStart(s, cs), cs)
  }

  /** A string that neither starts nor ends with a character of `cs` is left unchanged by stripping. */
  lemma StripNoop(s: string, cs: set<char>)
    requires s == [] || (s[0] !in cs && s[|s| - 1] !in cs)
    ensures Strip(s, cs) == s
  {
  }

  /** A string made only of characters of `cs` strips to the empty string. */
  lemma StripAllStripped(s: string, cs: set<char>)
    requires forall k :: 0 <= k < |s| ==> s[k] in cs
    ensures Strip(s, cs) == []
  {
  }

  /** Stripping twice is stripping once. */
  lemma StripIdempotent(s: string, cs: set<char>)
    ensures Strip(Strip(s, cs), cs) == Strip(s, cs)
  {
    StripNoop(Strip(s, cs), cs);
  }

  /** Python's `str.strip()` with no argument. */
  function StripWhitespace(s: string): (r: string)
    ensures |r| <= |s|
    ensures r != [] ==> r[0] !in Whitespace && r[|r| - 1] !in Whitespace
  {
    Strip(s, Whitespace)
  }

  /** `s.replace('-', '')` for a single character: every occurrence of `c` removed, the rest kept in order. */
  function RemoveAll(s: string, c: char): (r: string)
    ensures c !in r
    ensures |r| <= |s|
  {
    if s == [] then [] else (if s[0] == c then [] else [s[0]]) + RemoveAll(s[1..], c)
  }

  /** Removing a character distributes over concatenation. */
  lemma {:induction false} RemoveAllAppend(a: string, b: string, c: char)
    ensures RemoveAll(a + b, c) == RemoveAll(a, c) + RemoveAll(b, c)
  {
    if a == [] {
      assert a + b == b;
    } else {
      assert (a + b)[0] == a[0];
      assert (a + b)[1..] == a[1..] + b;
      RemoveAllAppend(a[1..], b, c);
    }
  }

  /** A string without `c` is unchanged by removing `c`. */
  lemma {:induction false} RemoveAllAbsent(s: string, c: char)
    requires c !in s
    ensures RemoveAll(s, c) == s
  {
    if s != [] {
      RemoveAllAbsent(s[1..], c);
    }
  }
}
