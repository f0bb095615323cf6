/** Normalisation of the configured database URL before the async engine is created
    (`_ensure_async_url`). */
module DatabaseUrl {
  import Text

  const PostgresScheme: string := "postgres://"
  const PostgresqlScheme: string := "postgresql://"
  const AsyncScheme: string := "postgresql+asyncpg://"

  /** The two quote characters `strip("'\"")` removes. */
  const Quotes: set<char> := {'\'', '"'}

  /** `pattern` occurs in `s` starting at index `i`. */
  predicate OccursAt(s: string, pattern: string, i: nat) {
    i + |pattern| <= |s| && s[i..i + |pattern|] == pattern
  }

  /** Python's `s.replace(pattern, replacement, 1)`: the first occurrence of `pattern` (scanning from the left) replaced by `replacement`,
      `s` unchanged when `pattern` does not occur. */
  function ReplaceFirst(s: string, pattern: string, replacement: string): (r: string)
    ensures (forall i: nat :: i <= |s| ==> !OccursAt(s, pattern, i)) ==> r == s
    ensures Text.StartsWith(s, pattern) ==> r == replacement + s[|pattern|..]
    decreases |s|
  {
    if Text.StartsWith(s, pattern) then
      assert OccursAt(s, pattern, 0);
      replacement + s[|pattern|..]
    else if s == [] then s
    else
      var rest := ReplaceFirst(s[1..], pattern, replacement);
      assert (forall i: nat :: i <= |s| ==> !OccursAt(s, pattern, i)) ==> (forall i: nat :: i <= |s| - 1 ==> !OccursAt(s[1..], pattern, i)) by {
        if forall i: nat :: i <= |s| ==> !OccursAt(s, pattern, i) {
          forall i: nat | i <= |s| - 1
            ensures !OccursAt(s[1..], pattern, i)
          {
            assert !OccursAt(s, pattern, i + 1);
            if i + |pattern| <= |s| - 1 {
              assert s[1..][i..i + |pattern|] == s[i + 1..i + 1 + |pattern|];
            }
          }
        }
      }
      [s[0]] + rest
  }

  /** The URL after surrounding whitespace and then surrounding quotes are stripped. */
  function Cleaned(url: string): string
  {
    Text.Strip(Text.StripWhitespace(url), Quotes)
  }

  /** Cleaning never lengthens the URL and leaves it neither starting nor ending with a quote. */
  lemma CleanedTrims(url: string)
    ensures |Cleaned(url)| <= |url|
    ensures Cleaned(url) != [] ==> Cleaned(url)[0] !in Quotes && Cleaned(url)[|Cleaned(url)| - 1] !in Quotes
  {
    var trimmed := Text.StripWhitespace(url);
    var c := Text.Strip(trimmed, Quotes);
    assert c == Cleaned(url);
  }

  /** The scheme test of `_ensure_async_url` on an already cleaned URL: a `postgres://` or `postgresql://` URL
      gets the `postgresql+asyncpg://` scheme, any other URL is returned as is. Only the scheme is ever
      rewritten: a changed URL starts with the async scheme and keeps the remainder of its input. */
  function Rewrite(u: string): (r: string)
    ensures r != u ==>
              && Text.StartsWith(r, AsyncScheme)
              && (|| u == PostgresScheme + r[|AsyncScheme|..]
                  || u == PostgresqlScheme + r[|AsyncScheme|..])
    ensures !Text.StartsWith(u, PostgresScheme) && !Text.StartsWith(u, PostgresqlScheme) ==> r == u
  {
    if Text.StartsWith(u, PostgresScheme) then
      ReplaceFirst(u, PostgresScheme, AsyncScheme)
    else if Text.StartsWith(u, PostgresqlScheme) then
      ReplaceFirst(u, PostgresqlScheme, AsyncScheme)
    else
      u
  }

  /** `_ensure_async_url`: the cleaned URL with its scheme rewritten. */
  function EnsureAsyncUrl(url: string): (r: string)
    ensures r == Cleaned(url) || Text.StartsWith(r, AsyncScheme)
  {
    Rewrite(Cleaned(url))
  }

  /** The two legacy schemes never both match: the ninth character is `:` in one and `q` in the other,
      so the order of the two tests does not matter. */
  lemma SchemesExclusive(u: string)
    ensures !(Text.StartsWith(u, PostgresScheme) && Text.StartsWith(u, PostgresqlScheme))
  {
    if Text.StartsWith(u, PostgresScheme) {
      assert u[8] == PostgresScheme[8] == ':';
    }
  }

  /** A plain PostgreSQL URL is rewritten to the async scheme with the host, credentials, database name and
      query kept verbatim. */
  lemma LegacySchemesRewritten(u: string, rest: string)
    ensures u == PostgresScheme + rest ==> Rewrite(u) == AsyncScheme + rest
    ensures u == PostgresqlScheme + rest ==> Rewrite(u) == AsyncScheme + rest
  {
    if u == PostgresScheme + rest {
      assert u[..|PostgresScheme|] == PostgresScheme;
      assert u[|PostgresScheme|..] == rest;
    }
    if u == PostgresqlScheme + rest {
      assert u[..|PostgresqlScheme|] == PostgresqlScheme;
      assert u[|PostgresqlScheme|..] == rest;
      SchemesExclusive(u);
    }
  }

  /** A URL that already names the async driver is left as it is. */
  lemma AsyncUrlKept(u: string)
    requires Text.StartsWith(u, AsyncScheme)
    ensures Rewrite(u) == u
  {
    assert u[..|AsyncScheme|] == AsyncScheme;
    assert u[8] == AsyncScheme[8] == 'q';
    assert u[10] == AsyncScheme[10] == '+';
  }

  /** A URL that neither starts nor ends with whitespace or a quote is already clean. */
  lemma CleanedNoop(u: string)
    requires u != [] ==> u[0] !in Text.Whitespace && u[0] !in Quotes
    requires u != [] ==> u[|u| - 1] !in Text.Whitespace && u[|u| - 1] !in Quotes
    ensures Cleaned(u) == u
  {
    Text.StripNoop(u, Text.Whitespace);
    Text.StripNoop(u, Quotes);
  }

  /** The first and last characters of the async scheme are neither whitespace nor quotes. */
  lemma SchemeEndsClean()
    ensures 'p' !in Text.Whitespace && 'p' !in Quotes
    ensures '/' !in Text.Whitespace && '/' !in Quotes
  {
  }

  /** Normalising a rewritten URL again changes nothing. `c` is the cleaned form of the original URL, so
      `Rewrite(c)` is its normalisation; the remainder must not end in whitespace, which a second pass would
      strip (`"'postgres://h '"` cleans to `postgres://h ` and would lose that space). */
  lemma RewrittenStaysClean(c: string, rest: string)
    requires c == PostgresScheme + rest || c == PostgresqlScheme + rest
    requires c[|c| - 1] !in Quotes
    requires rest == [] || rest[|rest| - 1] !in Text.Whitespace
    ensures EnsureAsyncUrl(Rewrite(c)) == Rewrite(c)
  {
    LegacySchemesRewritten(c, rest);
    var r := AsyncScheme + rest;
    assert r[0] == 'p';
    SchemeEndsClean();
    if rest == [] {
      assert r[|r| - 1] == '/';
    } else {
      assert r[|r| - 1] == rest[|rest| - 1] == c[|c| - 1];
    }
    CleanedNoop(r);
    assert r[..|AsyncScheme|] == AsyncScheme;
    AsyncUrlKept(r);
  }
}
