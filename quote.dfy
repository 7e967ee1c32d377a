/**
 * Go's `regexp.QuoteMeta`: every regular-expression metacharacter of the
 * string is preceded by a backslash, every other character is kept.
 * The metacharacters are exactly the fourteen characters of `\.+*?()|[]{}^$`.
 */
module Quote {

  const MetaCharacters: string := "\\.+*?()|[]{}^$"

  predicate IsMeta(c: char) {
    c in MetaCharacters
  }

  /**
   * The quoted form of one character: the character itself, last, after a
   * backslash exactly when it is a metacharacter; unquoting gives it back.
   */
  function QuoteChar(c: char): (r: string)
    ensures 1 <= |r| <= 2 && r[|r| - 1] == c
    ensures |r| == 2 <==> IsMeta(c)
    ensures |r| == 2 ==> r[0] == '\\'
    ensures Unquote(r) == [c]
  {
    if IsMeta(c) then ['\\', c] else [c]
  }

  /** regexp.QuoteMeta: never shorter than the input and at most twice as long. */
  function QuoteMeta(s: string): (r: string)
    ensures |s| <= |r| <= 2 * |s|
  {
    if s == [] then [] else QuoteChar(s[0]) + QuoteMeta(s[1..])
  }

  /** Inverse of QuoteMeta: a backslash is dropped and the character after it kept verbatim. */
  function Unquote(s: string): string
  {
    if s == [] then []
    else if s[0] == '\\' && |s| >= 2 then [s[1]] + Unquote(s[2..])
    else [s[0]] + Unquote(s[1..])
  }

  /** Number of metacharacters in s. */
  function MetaCount(s: string): nat
  {
    if s == [] then 0 else (if IsMeta(s[0]) then 1 else 0) + MetaCount(s[1..])
  }

  /** Unquoting recovers the original string, so QuoteMeta loses nothing. */
  lemma {:induction false} UnquoteQuoteMeta(s: string)
    ensures Unquote(QuoteMeta(s)) == s
  {
    if s != [] {
      UnquoteQuoteMeta(s[1..]);
      var q := QuoteMeta(s[1..]);
      if IsMeta(s[0]) {
        assert QuoteMeta(s) == ['\\', s[0]] + q;
        assert (['\\', s[0]] + q)[2..] == q;
      } else {
        assert QuoteMeta(s) == [s[0]] + q;
        assert ([s[0]] + q)[1..] == q;
      }
    }
  }

  /** QuoteMeta works character by character: quoting a concatenation concatenates the quotings. */
  lemma {:induction false} QuoteMetaAppend(a: string, b: string)
    ensures QuoteMeta(a + b) == QuoteMeta(a) + QuoteMeta(b)
  {
    if a == [] {
      assert a + b == b;
    } else {
      var q := QuoteChar(a[0]);
      assert (a + b)[0] == a[0];
      assert (a + b)[1..] == a[1..] + b;
      QuoteMetaAppend(a[1..], b);
      assert QuoteMeta(a + b) == q + (QuoteMeta(a[1..]) + QuoteMeta(b));
      assert QuoteMeta(a) == q + QuoteMeta(a[1..]);
      assert q + (QuoteMeta(a[1..]) + QuoteMeta(b)) == (q + QuoteMeta(a[1..])) + QuoteMeta(b);
    }
  }

  /** One backslash is added per metacharacter and nothing else. */
  lemma {:induction false} QuoteMetaLength(s: string)
    ensures |QuoteMeta(s)| == |s| + MetaCount(s)
  {
    if s != [] {
      QuoteMetaLength(s[1..]);
    }
  }

  /** A string without metacharacters is its own quoting, and only such a string is. */
  lemma {:induction false} QuoteMetaIdentity(s: string)
    ensures QuoteMeta(s) == s <==> (forall i :: 0 <= i < |s| ==> !IsMeta(s[i]))
  {
    QuoteMetaLength(s);
    if s != [] {
      QuoteMetaIdentity(s[1..]);
      if !IsMeta(s[0]) {
        assert QuoteMeta(s) == [s[0]] + QuoteMeta(s[1..]);
        assert s == [s[0]] + s[1..];
        forall i | 0 <= i < |s[1..]| ensures s[1..][i] == s[i + 1] { }
      } else {
        assert MetaCount(s) > 0;
      }
    }
  }
}
