/**
 * Translations of a few globs, worked out step by step through the
 * reference machine: what the rule table does with an escaped wildcard and
 * with the segment wildcard `**`.  Each glob is a parameter fixed by the
 * precondition, so that the proof goes through the step lemmas one token
 * at a time.
 */
module GlobExamples {
  import opened Wrappers
  import opened Quote
  import opened Glob
  import opened GlobReference
  import opened GlobProperties

  lemma DotTxtPlain(s: string)
    requires s == ".txt"
    ensures forall i :: 0 <= i < |s| ==> Plain(s[i])
  {
    forall i | 0 <= i < |s| ensures Plain(s[i]) {
      assert s[i] == '.' || s[i] == 't' || s[i] == 'x';
    }
  }

  lemma TxtUnquoted(t: string)
    requires t == "txt"
    ensures QuoteMeta(t) == t
  {
    forall i | 0 <= i < |t| ensures !IsMeta(t[i]) {
      assert t[i] == 't' || t[i] == 'x';
    }
    QuoteMetaIdentity(t);
  }

  /** `.txt` in the start state: the dot is quoted and the rest is a literal run. */
  lemma DotTxt(s: string)
    requires s == ".txt"
    ensures Reference(In(Start), s) == Translated("\\.txt")
  {
    DotTxtPlain(s);
    PlainReference(In(Start), s);
    QuoteMetaCons(s);
    TxtUnquoted(s[1..]);
    assert IsMeta('.');
    assert QuoteChar(s[0]) + s[1..] == "\\.txt";
  }

  lemma EscapedStarReference(glob: string)
    requires glob == "\\*.txt"
    ensures Reference(In(Start), glob) == Translated("\\*\\.txt")
  {
    var r := glob[1..];
    assert r == "*.txt" && r[1..] == ".txt";
    ReferenceStartEscape(glob);
    ReferenceEscapeChar(r);
    DotTxt(r[1..]);
    assert IsMeta('*');
    assert "" + (QuoteChar(r[0]) + "\\.txt") == "\\*\\.txt";
  }

  /** An escaped star stands for itself: `\*.txt` becomes `^\*\.txt$`. */
  lemma EscapedStar(glob: string)
    requires glob == "\\*.txt"
    ensures Translate(glob) == Success("^\\*\\.txt$")
  {
    EscapedStarReference(glob);
    TranslateByReference(glob);
    assert "^" + "\\*\\.txt" + "$" == "^\\*\\.txt$";
  }

  lemma AnySegmentsReference(glob: string)
    requires glob == "**/*.txt"
    ensures Reference(In(Start), glob) == Translated(AnySegments + "[^/]*\\.txt")
  {
    var u := glob[3..];
    assert u == "*.txt" && u[1..] == ".txt";
    ReferenceStartSegments(glob);
    ReferenceStartStar(u);
    DotTxt(u[1..]);
    assert AnySegments + ("[^/]*" + "\\.txt") == AnySegments + "[^/]*\\.txt";
  }

  /**
   * `**` followed by a slash is any number of whole segments, and a star
   * any run within one segment: `**`, `/`, `*.txt` becomes
   * `^([^/]+(/|$))*[^/]*\.txt$`.
   */
  lemma AnySegmentsThenStar(glob: string)
    requires glob == "**/*.txt"
    ensures Translate(glob) == Success("^" + AnySegments + "[^/]*\\.txt$")
  {
    AnySegmentsReference(glob);
    TranslateByReference(glob);
    assert "^" + (AnySegments + "[^/]*\\.txt") + "$" == "^" + AnySegments + "[^/]*\\.txt$";
  }
}
