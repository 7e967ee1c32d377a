/**
 * What the glob compiler of glob.go guarantees, stated over the tokenizer
 * Lex and the reference machine: every token is taken by the first rule
 * that applies, the tokens put together are the input, the tokenizer stops
 * only on `!` or `^` in the start state or on a newline after `\` or inside
 * a class, and a glob without wildcards becomes its own quoted text.
 */
module GlobProperties {
  import opened Wrappers
  import opened Quote
  import opened Glob
  import opened GlobRules
  import opened GlobReference

  /** A rule the scan from i returns applies, and no rule between i and it does. */
  lemma {:induction false} FirstRuleFromFinds(st: State, s: string, i: nat, k: nat)
    requires i <= RuleCount && FirstRuleFrom(st, s, i) == Some(k)
    ensures i <= k < RuleCount && Applies(k, st, s) && forall j :: i <= j < k ==> !Applies(j, st, s)
    decreases RuleCount - i
  {
    if !Applies(i, st, s) {
      FirstRuleFromFinds(st, s, i + 1, k);
    }
  }

  /** A rule that applies, with none between i and it applying, is what the scan from i returns. */
  lemma {:induction false} FirstRuleFromReaches(st: State, s: string, i: nat, k: nat)
    requires i <= k < RuleCount && Applies(k, st, s) && forall j :: i <= j < k ==> !Applies(j, st, s)
    ensures FirstRuleFrom(st, s, i) == Some(k)
    decreases k - i
  {
    if i < k {
      assert !Applies(i, st, s);
      FirstRuleFromReaches(st, s, i + 1, k);
    }
  }

  /** The rule taken is the first that applies: it applies and none before it does. */
  lemma FirstRuleFromIsFirst(st: State, s: string, i: nat, k: nat)
    requires i <= RuleCount
    ensures FirstRuleFrom(st, s, i) == Some(k) <==>
      i <= k < RuleCount && Applies(k, st, s) && forall j :: i <= j < k ==> !Applies(j, st, s)
  {
    if FirstRuleFrom(st, s, i) == Some(k) {
      FirstRuleFromFinds(st, s, i, k);
    }
    if i <= k < RuleCount && Applies(k, st, s) && forall j :: i <= j < k ==> !Applies(j, st, s) {
      FirstRuleFromReaches(st, s, i, k);
    }
  }

  lemma FirstRuleIsFirst(st: State, s: string, k: nat)
    ensures FirstRule(st, s) == Some(k) <==>
      k < RuleCount && Applies(k, st, s) && forall j :: 0 <= j < k ==> !Applies(j, st, s)
  {
    FirstRuleFromIsFirst(st, s, 0, k);
  }

  /** The characters on which the tokenizer has no rule in state st. */
  predicate Reserved(st: State, c: char)
  {
    (st == Start && (c == '!' || c == '^')) ||
    (c == '\n' && (st == Escape || st == CharacterClass || st == CharacterClassEscape))
  }

  /** No rule applies exactly when the next character is reserved in the current state. */
  lemma NoRuleExactly(st: State, s: string)
    requires s != []
    ensures FirstRule(st, s).None? <==> Reserved(st, s[0])
  {
    match st {
      case Start => StartRule(s);
      case Escape => EscapeRule(s);
      case CharacterClass => CharacterClassRule(s);
      case CharacterClassEscape => CharacterClassEscapeRule(s);
      case CharacterClassEnd => CharacterClassEndRule(s);
    }
  }

  lemma ConsumedCons(step: Step, steps: seq<Step>)
    ensures Consumed([step] + steps) == step.token + Consumed(steps)
  {
    assert ([step] + steps)[1..] == steps;
  }

  /**
   * The tokens the tokenizer took, put together, are its input when it
   * finishes; when it stops, they are the input up to the remainder, which
   * starts with a character reserved in the state where it stopped.
   */
  lemma {:induction false} LexConsumes(st: State, s: string)
    ensures Lex(st, s).Lexed? ==> Consumed(Lex(st, s).steps) == s
    ensures Lex(st, s).Stuck? ==>
      Consumed(Lex(st, s).steps) + Lex(st, s).rest == s &&
      Lex(st, s).rest != [] && Reserved(Lex(st, s).state, Lex(st, s).rest[0])
    decreases |s|
  {
    if s != [] {
      NoRuleExactly(st, s);
      match FirstRule(st, s) {
        case None =>
          assert Lex(st, s) == Stuck([], s, st);
        case Some(k) =>
          LexStep(st, s, k);
          var n := TokenLength(RuleAt(k).token, s).value;
          LexConsumes(RuleAt(k).output, s[n..]);
          PrependConsumes(Step(RuleAt(k), s[..n]), Lex(RuleAt(k).output, s[n..]), s, n);
      }
    }
  }

  /** Prepending a step that consumed the head of s to a run over the tail of s. */
  lemma PrependConsumes(step: Step, l: Lexing, s: string, n: nat)
    requires n <= |s| && step.token == s[..n]
    requires l.Lexed? ==> Consumed(l.steps) == s[n..]
    requires l.Stuck? ==> Consumed(l.steps) + l.rest == s[n..]
    ensures var r := Prepend([step], l);
      (r.Lexed? ==> Consumed(r.steps) == s) && (r.Stuck? ==> Consumed(r.steps) + r.rest == s)
  {
    ConsumedCons(step, l.steps);
    assert s[..n] + s[n..] == s;
    if l.Stuck? {
      assert s[..n] + (Consumed(l.steps) + l.rest) == (s[..n] + Consumed(l.steps)) + l.rest;
    }
  }

  /**
   * compile reports a syntax error only at a reserved character, and the
   * remaining string it quotes is a non-empty tail of the glob.
   */
  lemma SyntaxErrorAtReserved(glob: string)
    ensures Translate(glob).Failure? ==>
      var e := Translate(glob).error;
      e.GlobSyntaxError? && e.remaining != [] && |e.remaining| <= |glob| &&
      glob[|glob| - |e.remaining|..] == e.remaining && Reserved(e.state, e.remaining[0])
  {
    LexConsumes(Start, glob);
    var l := Lex(Start, glob);
    if l.Stuck? {
      var c := Consumed(l.steps);
      assert c + l.rest == glob;
      assert glob[|c|..] == l.rest;
    }
  }

  /** A glob with no `!`, `^` or newline always passes the tokenizer. */
  lemma UnreservedTranslates(glob: string)
    requires forall i :: 0 <= i < |glob| ==> glob[i] != '!' && glob[i] != '^' && glob[i] != '\n'
    ensures Translate(glob).Success?
  {
    SyntaxErrorAtReserved(glob);
  }

  /** Translate read through the reference machine. */
  lemma TranslateByReference(glob: string)
    ensures Translate(glob) == match Reference(In(Start), glob)
      case Translated(r) => Success("^" + r + "$")
      case Rejected(rest, st) => Failure(GlobSyntaxError(rest, st))
  {
    TableAgreesWithReference(Start, glob);
  }

  /** A character that stands for itself in the start state: no wildcard, escape, class or reserved character. */
  predicate Plain(c: char)
  {
    c !in "\\*?[!^"
  }

  lemma QuoteMetaCons(s: string)
    requires s != []
    ensures QuoteMeta(s) == QuoteChar(s[0]) + QuoteMeta(s[1..])
  {
    QuoteMetaAppend([s[0]], s[1..]);
    assert [s[0]] + s[1..] == s;
    assert QuoteMeta([s[0]]) == QuoteChar(s[0]) by {
      assert QuoteMeta([s[0]][1..]) == [];
    }
  }

  /** A plain glob is quoted character by character, in the start state and inside a literal run alike. */
  lemma {:induction false} PlainReference(m: Mode, s: string)
    requires m == In(Start) || m == InLiteral
    requires forall i :: 0 <= i < |s| ==> Plain(s[i])
    ensures Reference(m, s) == Translated(QuoteMeta(s))
    decreases |s|, Rank(m), 1
  {
    if s != [] {
      QuoteMetaCons(s);
      if m == In(Start) {
        PlainStart(s);
      } else if s[0] == '/' {
        PlainLiteralSlash(s);
      } else {
        PlainLiteralChar(s);
      }
    }
  }

  lemma {:induction false} PlainStart(s: string)
    requires s != [] && forall i :: 0 <= i < |s| ==> Plain(s[i])
    ensures Reference(In(Start), s) == Translated(QuoteChar(s[0]) + QuoteMeta(s[1..]))
    decreases |s|, 0, 0
  {
    var t := s[1..];
    assert forall i :: 0 <= i < |t| ==> Plain(t[i]) by {
      forall i | 0 <= i < |t| ensures Plain(t[i]) {
        assert t[i] == s[i + 1];
      }
    }
    assert Plain(s[0]);
    if s[0] == '/' {
      assert !IsMeta('/');
      PlainReference(In(Start), t);
      assert Reference(In(Start), s) == Then("/", Reference(In(Start), t));
    } else {
      PlainReference(InLiteral, t);
      assert Reference(In(Start), s) == Then(QuoteChar(s[0]), Reference(InLiteral, t));
    }
  }

  lemma {:induction false} PlainLiteralSlash(s: string)
    requires s != [] && s[0] == '/' && forall i :: 0 <= i < |s| ==> Plain(s[i])
    ensures Reference(InLiteral, s) == Translated(QuoteChar(s[0]) + QuoteMeta(s[1..]))
    decreases |s|, 1, 0
  {
    assert Reference(InLiteral, s) == Reference(In(Start), s);
    PlainStart(s);
  }

  lemma {:induction false} PlainLiteralChar(s: string)
    requires s != [] && s[0] != '/' && forall i :: 0 <= i < |s| ==> Plain(s[i])
    ensures Reference(InLiteral, s) == Translated(QuoteChar(s[0]) + QuoteMeta(s[1..]))
    decreases |s|, 1, 0
  {
    var t := s[1..];
    assert forall i :: 0 <= i < |t| ==> Plain(t[i]) by {
      forall i | 0 <= i < |t| ensures Plain(t[i]) {
        assert t[i] == s[i + 1];
      }
    }
    assert Plain(s[0]) && s[0] !in LiteralStop;
    PlainReference(InLiteral, t);
    assert Reference(InLiteral, s) == Then(QuoteChar(s[0]), Reference(InLiteral, t));
  }

  /**
   * A glob without wildcards, escapes, classes or reserved characters
   * matches just itself: compile turns it into its quoted text between
   * anchors, and unquoting that text gives the glob back.
   */
  lemma PlainGlobTranslates(glob: string)
    requires forall i :: 0 <= i < |glob| ==> Plain(glob[i])
    ensures Translate(glob) == Success("^" + QuoteMeta(glob) + "$")
    ensures Unquote(QuoteMeta(glob)) == glob
  {
    TranslateByReference(glob);
    PlainReference(In(Start), glob);
    UnquoteQuoteMeta(glob);
  }
}
