/**
 * A second, independent description of the glob translation: a machine
 * that reads one character at a time and says directly what each
 * character becomes.  It has two states the rule table does not name:
 * `InLiteral`, inside a run of literal characters in the start state, and
 * `AfterClassRun`, inside the run of characters that follows a class.  Inside
 * those runs `\` and `[` are plain characters, which is how the greedy run
 * rules of the table treat them.  The lemmas below prove that the
 * table-driven tokenizer of module Glob and this machine agree on every
 * input.
 */
module GlobReference {
  import opened Wrappers
  import opened Quote
  import opened Glob
  import opened GlobRules

  datatype Mode = In(state: State) | InLiteral | AfterClassRun

  /** The regex text for the input read so far, or where and in which state no rule applied. */
  datatype Translation = Translated(regex: string) | Rejected(rest: string, state: State)

  function Then(prefix: string, t: Translation): Translation
  {
    match t
    case Translated(x) => Translated(prefix + x)
    case Rejected(_, _) => t
  }

  function Rank(m: Mode): nat
  {
    if m.In? then 0 else 1
  }

  function Reference(m: Mode, s: string): Translation
    decreases |s|, Rank(m)
  {
    if s == [] then Translated("")
    else
      var c, t := s[0], s[1..];
      match m
      case In(Start) =>
        if c == '\\' then Reference(In(Escape), t)
        else if c == '*' && t != [] && t[0] == '*' && |t| == 1 then Then(AnySegments, Reference(In(Start), t[1..]))
        else if c == '*' && t != [] && t[0] == '*' && |t| > 1 && t[1] == '/' then Then(AnySegments, Reference(In(Start), t[2..]))
        else if c == '*' then Then("[^/]*", Reference(In(Start), t))
        else if c == '?' then Then("[^/]", Reference(In(Start), t))
        else if c == '[' then Then("[", Reference(In(CharacterClass), t))
        else if c == '/' then Then("/", Reference(In(Start), t))
        else if c == '!' || c == '^' then Rejected(s, Start)
        else Then(QuoteChar(c), Reference(InLiteral, t))
      case In(Escape) =>
        if c == '\n' then Rejected(s, Escape) else Then(QuoteChar(c), Reference(In(Start), t))
      case In(CharacterClass) =>
        if c == '\\' then Then("\\", Reference(In(CharacterClassEscape), t))
        else if c == ']' then Then("]", Reference(In(CharacterClassEnd), t))
        else if c == '!' then Then("^", Reference(In(CharacterClass), t))
        else if c == '\n' then Rejected(s, CharacterClass)
        else Then([c], Reference(In(CharacterClass), t))
      case In(CharacterClassEscape) =>
        if c == '\n' then Rejected(s, CharacterClassEscape) else Then([c], Reference(In(CharacterClass), t))
      case In(CharacterClassEnd) =>
        if c == '*' then Then("*", Reference(In(Start), t))
        else if c == '/' then Then("/", Reference(In(Start), t))
        else Then(QuoteChar(c), Reference(AfterClassRun, t))
      case InLiteral =>
        if c in LiteralStop then Reference(In(Start), s) else Then(QuoteChar(c), Reference(InLiteral, t))
      case AfterClassRun =>
        if c == '/' then Reference(In(Start), s) else Then(QuoteChar(c), Reference(AfterClassRun, t))
  }

  /** What a run of the tokenizer amounts to, in the terms of the reference machine. */
  function Outcome(l: Lexing): Translation
  {
    match l
    case Lexed(steps) => Translated(Emitted(steps))
    case Stuck(_, rest, st) => Rejected(rest, st)
  }

  /** The stop characters of a run. */
  function Stop(m: Mode): string
  {
    if m == InLiteral then LiteralStop else "/"
  }

  lemma ThenAppend(a: string, b: string, t: Translation)
    ensures Then(a, Then(b, t)) == Then(a + b, t)
  {
    if t.Translated? {
      assert a + (b + t.regex) == (a + b) + t.regex;
    }
  }

  /** A run quotes its characters up to the first stop character, then the start state resumes. */
  lemma {:induction false} RunQuotes(m: Mode, s: string)
    requires m == InLiteral || m == AfterClassRun
    ensures var n := Span(s, Stop(m));
      Reference(m, s) == Then(QuoteMeta(s[..n]), Reference(In(Start), s[n..]))
    decreases |s|
  {
    var n := Span(s, Stop(m));
    if s == [] {
      assert Reference(In(Start), s) == Translated("");
    } else if s[0] in Stop(m) {
      assert n == 0 && s[..n] == [] && s[n..] == s;
      assert Then("", Reference(In(Start), s)) == Reference(In(Start), s);
    } else {
      var t := s[1..];
      RunQuotes(m, t);
      var k := Span(t, Stop(m));
      RunTakesOne(m, s);
      SpanTakesOne(s, Stop(m));
      QuoteMetaAppend([s[0]], t[..k]);
      QuoteOne(s);
      assert s[..1] == [s[0]];
      ThenAppend(QuoteChar(s[0]), QuoteMeta(t[..k]), Reference(In(Start), t[k..]));
    }
  }

  /** A character that does not stop the run is quoted and the run goes on. */
  lemma RunTakesOne(m: Mode, s: string)
    requires m == InLiteral || m == AfterClassRun
    requires s != [] && s[0] !in Stop(m)
    ensures Reference(m, s) == Then(QuoteChar(s[0]), Reference(m, s[1..]))
  {
  }

  lemma SpanTakesOne(s: string, stop: string)
    requires s != [] && s[0] !in stop
    ensures var n, k := Span(s, stop), Span(s[1..], stop);
      n == 1 + k && s[..n] == [s[0]] + s[1..][..k] && s[n..] == s[1..][k..]
  {
  }

  lemma OutcomeStep(step: Step, l: Lexing)
    ensures Outcome(Prepend([step], l)) == Then(Fragment(step), Outcome(l))
  {
    assert ([step] + l.steps)[1..] == l.steps;
  }

  /**
   * One step of the tokenizer, in the terms of the reference machine: the
   * first rule k emits f for its n-character token and hands the rest of
   * the input to its output state.
   */
  lemma Advance(st: State, s: string, k: nat, rule: Rule, n: nat, f: string, next: State)
    requires s != [] && FirstRule(st, s) == Some(k)
    requires k < RuleCount && RuleAt(k) == rule && rule.output == next
    requires TokenLength(rule.token, s) == Some(n) && Apply(rule.transformer, s[..n]) == f
    ensures Outcome(Lex(st, s)) == Then(f, Outcome(Lex(next, s[n..])))
  {
    LexStep(st, s, k);
    OutcomeStep(Step(rule, s[..n]), Lex(next, s[n..]));
  }

  lemma QuoteOne(s: string)
    requires s != []
    ensures QuoteMeta(s[..1]) == QuoteChar(s[0])
  {
    assert s[..1] == [s[0]];
    assert QuoteMeta([s[0]][1..]) == [];
  }

  /** A slash is not a metacharacter, so quoting leaves it alone. */
  lemma QuoteSlash(s: string)
    requires s != [] && s[0] == '/'
    ensures QuoteMeta(s[..1]) == "/"
  {
    QuoteOne(s);
    assert !IsMeta('/');
  }

  lemma ReferenceEntersLiteral(s: string)
    requires s != [] && s[0] !in "\\*?[/!^"
    ensures Reference(In(Start), s) == Reference(InLiteral, s)
  {
    var c := s[0];
    assert c != '\\' && c != '*' && c != '?' && c != '[' && c != '/' && c != '!' && c != '^';
    assert c !in LiteralStop;
    assert Reference(InLiteral, s) == Then(QuoteChar(c), Reference(InLiteral, s[1..]));
  }

  lemma ReferenceEntersClassRun(s: string)
    requires s != [] && s[0] != '*' && s[0] != '/'
    ensures Reference(In(CharacterClassEnd), s) == Reference(AfterClassRun, s)
  {
  }

  lemma StartEscapeToken(s: string)
    requires s != [] && s[0] == '\\'
    ensures TokenLength(Backslash, s) == Some(1) && Apply(Emit(""), s[..1]) == ""
  {
  }

  /** A backslash emits nothing and escapes the next character. */
  lemma TableStartEscape(s: string)
    requires s != [] && s[0] == '\\'
    ensures Outcome(Lex(Start, s)) == Then("", Outcome(Lex(Escape, s[1..])))
  {
    RuleTable();
    StartBackslash(s);
    StartEscapeToken(s);
    Advance(Start, s, 0, Rule(Start, Backslash, Escape, Emit("")), 1, "", Escape);
  }

  lemma ReferenceStartEscape(s: string)
    requires s != [] && s[0] == '\\'
    ensures Reference(In(Start), s) == Then("", Reference(In(Escape), s[1..]))
  {
    assert Then("", Reference(In(Escape), s[1..])) == Reference(In(Escape), s[1..]);
  }

  lemma StartSegmentsToken(s: string)
    requires |s| >= 2 && s[0] == '*' && s[1] == '*' && (|s| == 2 || s[2] == '/')
    ensures TokenLength(DoubleStar, s) == Some((if |s| == 2 then 2 else 3)) && Apply(Emit(AnySegments), s[..(if |s| == 2 then 2 else 3)]) == AnySegments
  {
  }

  /** `**` at the end or before a slash matches any number of whole segments. */
  lemma TableStartSegments(s: string)
    requires |s| >= 2 && s[0] == '*' && s[1] == '*' && (|s| == 2 || s[2] == '/')
    ensures Outcome(Lex(Start, s)) == Then(AnySegments, Outcome(Lex(Start, s[(if |s| == 2 then 2 else 3)..])))
  {
    RuleTable();
    StartSegments(s);
    StartSegmentsToken(s);
    Advance(Start, s, 2, Rule(Start, DoubleStar, Start, Emit(AnySegments)), (if |s| == 2 then 2 else 3), AnySegments, Start);
  }

  lemma ReferenceStartSegments(s: string)
    requires |s| >= 2 && s[0] == '*' && s[1] == '*' && (|s| == 2 || s[2] == '/')
    ensures Reference(In(Start), s) == Then(AnySegments, Reference(In(Start), s[(if |s| == 2 then 2 else 3)..]))
  {
    if |s| == 2 {
      assert s[1..][1..] == s[2..];
    } else {
      assert s[1..][2..] == s[3..];
    }
  }

  lemma StartStarToken(s: string)
    requires s != [] && s[0] == '*' && !(|s| >= 2 && s[0] == '*' && s[1] == '*' && (|s| == 2 || s[2] == '/'))
    ensures TokenLength(Star, s) == Some(1) && Apply(Emit("[^/]*"), s[..1]) == "[^/]*"
  {
  }

  /** Any other `*` matches within one segment. */
  lemma TableStartStar(s: string)
    requires s != [] && s[0] == '*' && !(|s| >= 2 && s[0] == '*' && s[1] == '*' && (|s| == 2 || s[2] == '/'))
    ensures Outcome(Lex(Start, s)) == Then("[^/]*", Outcome(Lex(Start, s[1..])))
  {
    RuleTable();
    StartStar(s);
    StartStarToken(s);
    Advance(Start, s, 3, Rule(Start, Star, Start, Emit("[^/]*")), 1, "[^/]*", Start);
  }

  lemma ReferenceStartStar(s: string)
    requires s != [] && s[0] == '*' && !(|s| >= 2 && s[0] == '*' && s[1] == '*' && (|s| == 2 || s[2] == '/'))
    ensures Reference(In(Start), s) == Then("[^/]*", Reference(In(Start), s[1..]))
  {
  }

  lemma StartQuestionToken(s: string)
    requires s != [] && s[0] == '?'
    ensures TokenLength(Question, s) == Some(1) && Apply(Emit("[^/]"), s[..1]) == "[^/]"
  {
  }

  /** `?` matches one character of a segment. */
  lemma TableStartQuestion(s: string)
    requires s != [] && s[0] == '?'
    ensures Outcome(Lex(Start, s)) == Then("[^/]", Outcome(Lex(Start, s[1..])))
  {
    RuleTable();
    StartQuestion(s);
    StartQuestionToken(s);
    Advance(Start, s, 4, Rule(Start, Question, Start, Emit("[^/]")), 1, "[^/]", Start);
  }

  lemma ReferenceStartQuestion(s: string)
    requires s != [] && s[0] == '?'
    ensures Reference(In(Start), s) == Then("[^/]", Reference(In(Start), s[1..]))
  {
  }

  lemma StartClassToken(s: string)
    requires s != [] && s[0] == '['
    ensures TokenLength(OpenBracket, s) == Some(1) && Apply(Emit("["), s[..1]) == "["
  {
  }

  /** `[` opens a class. */
  lemma TableStartClass(s: string)
    requires s != [] && s[0] == '['
    ensures Outcome(Lex(Start, s)) == Then("[", Outcome(Lex(CharacterClass, s[1..])))
  {
    RuleTable();
    StartOpen(s);
    StartClassToken(s);
    Advance(Start, s, 5, Rule(Start, OpenBracket, CharacterClass, Emit("[")), 1, "[", CharacterClass);
  }

  lemma ReferenceStartClass(s: string)
    requires s != [] && s[0] == '['
    ensures Reference(In(Start), s) == Then("[", Reference(In(CharacterClass), s[1..]))
  {
  }

  /** The slash token, in the start state and after a class alike, is copied. */
  lemma SlashToken(s: string)
    requires s != [] && s[0] == '/'
    ensures TokenLength(Slash, s) == Some(1) && Apply(QuoteToken, s[..1]) == "/"
  {
    QuoteSlash(s);
  }

  /** A slash is copied. */
  lemma TableStartSlash(s: string)
    requires s != [] && s[0] == '/'
    ensures Outcome(Lex(Start, s)) == Then("/", Outcome(Lex(Start, s[1..])))
  {
    RuleTable();
    StartSlash(s);
    SlashToken(s);
    Advance(Start, s, 15, Rule(Start, Slash, Start, QuoteToken), 1, "/", Start);
  }

  lemma ReferenceStartSlash(s: string)
    requires s != [] && s[0] == '/'
    ensures Reference(In(Start), s) == Then("/", Reference(In(Start), s[1..]))
  {
  }

  lemma StartLiteralToken(s: string)
    requires s != [] && s[0] !in "\\*?[/!^"
    ensures TokenLength(LiteralRun, s) == Some(Span(s, LiteralStop))
    ensures Apply(QuoteToken, s[..Span(s, LiteralStop)]) == QuoteMeta(s[..Span(s, LiteralStop)])
  {
    assert s[0] !in LiteralStop;
  }

  /** Any other character starts a literal run, quoted, up to the next special character. */
  lemma TableStartLiteral(s: string)
    requires s != [] && s[0] !in "\\*?[/!^"
    ensures Outcome(Lex(Start, s)) == Then(QuoteMeta(s[..Span(s, LiteralStop)]), Outcome(Lex(Start, s[Span(s, LiteralStop)..])))
  {
    RuleTable();
    StartLiteral(s);
    StartLiteralToken(s);
    Advance(Start, s, 14, Rule(Start, LiteralRun, Start, QuoteToken), Span(s, LiteralStop), QuoteMeta(s[..Span(s, LiteralStop)]), Start);
  }

  lemma ReferenceStartLiteral(s: string)
    requires s != [] && s[0] !in "\\*?[/!^"
    ensures Reference(In(Start), s) == Then(QuoteMeta(s[..Span(s, LiteralStop)]), Reference(In(Start), s[Span(s, LiteralStop)..]))
  {
    ReferenceEntersLiteral(s);
    RunQuotes(InLiteral, s);
    assert Stop(InLiteral) == LiteralStop;
  }

  lemma EscapeCharToken(s: string)
    requires s != [] && s[0] != '\n'
    ensures TokenLength(AnyChar, s) == Some(1) && Apply(QuoteToken, s[..1]) == QuoteChar(s[0])
  {
    QuoteOne(s);
  }

  /** An escaped character is quoted. */
  lemma TableEscapeChar(s: string)
    requires s != [] && s[0] != '\n'
    ensures Outcome(Lex(Escape, s)) == Then(QuoteChar(s[0]), Outcome(Lex(Start, s[1..])))
  {
    RuleTable();
    EscapeRule(s);
    EscapeCharToken(s);
    Advance(Escape, s, 1, Rule(Escape, AnyChar, Start, QuoteToken), 1, QuoteChar(s[0]), Start);
  }

  lemma ReferenceEscapeChar(s: string)
    requires s != [] && s[0] != '\n'
    ensures Reference(In(Escape), s) == Then(QuoteChar(s[0]), Reference(In(Start), s[1..]))
  {
  }

  lemma ClassBackslashToken(s: string)
    requires s != [] && s[0] == '\\'
    ensures TokenLength(Backslash, s) == Some(1) && Apply(Emit("\\"), s[..1]) == "\\"
  {
  }

  /** A backslash in a class is kept and escapes the next character. */
  lemma TableClassBackslash(s: string)
    requires s != [] && s[0] == '\\'
    ensures Outcome(Lex(CharacterClass, s)) == Then("\\", Outcome(Lex(CharacterClassEscape, s[1..])))
  {
    RuleTable();
    ClassBackslash(s);
    ClassBackslashToken(s);
    Advance(CharacterClass, s, 6, Rule(CharacterClass, Backslash, CharacterClassEscape, Emit("\\")), 1, "\\", CharacterClassEscape);
  }

  lemma ReferenceClassBackslash(s: string)
    requires s != [] && s[0] == '\\'
    ensures Reference(In(CharacterClass), s) == Then("\\", Reference(In(CharacterClassEscape), s[1..]))
  {
  }

  lemma ClassCloseToken(s: string)
    requires s != [] && s[0] == ']'
    ensures TokenLength(CloseBracket, s) == Some(1) && Apply(Emit("]"), s[..1]) == "]"
  {
  }

  /** `]` closes a class. */
  lemma TableClassClose(s: string)
    requires s != [] && s[0] == ']'
    ensures Outcome(Lex(CharacterClass, s)) == Then("]", Outcome(Lex(CharacterClassEnd, s[1..])))
  {
    RuleTable();
    ClassClose(s);
    ClassCloseToken(s);
    Advance(CharacterClass, s, 8, Rule(CharacterClass, CloseBracket, CharacterClassEnd, Emit("]")), 1, "]", CharacterClassEnd);
  }

  lemma ReferenceClassClose(s: string)
    requires s != [] && s[0] == ']'
    ensures Reference(In(CharacterClass), s) == Then("]", Reference(In(CharacterClassEnd), s[1..]))
  {
  }

  lemma ClassBangToken(s: string)
    requires s != [] && s[0] == '!'
    ensures TokenLength(Bang, s) == Some(1) && Apply(Emit("^"), s[..1]) == "^"
  {
  }

  /** `!` in a class becomes the negation `^`. */
  lemma TableClassBang(s: string)
    requires s != [] && s[0] == '!'
    ensures Outcome(Lex(CharacterClass, s)) == Then("^", Outcome(Lex(CharacterClass, s[1..])))
  {
    RuleTable();
    ClassBang(s);
    ClassBangToken(s);
    Advance(CharacterClass, s, 9, Rule(CharacterClass, Bang, CharacterClass, Emit("^")), 1, "^", CharacterClass);
  }

  lemma ReferenceClassBang(s: string)
    requires s != [] && s[0] == '!'
    ensures Reference(In(CharacterClass), s) == Then("^", Reference(In(CharacterClass), s[1..]))
  {
  }

  lemma ClassCopyToken(s: string)
    requires s != [] && s[0] !in "\\]!\n"
    ensures TokenLength(AnyChar, s) == Some(1) && Apply(CopyToken, s[..1]) == [s[0]]
  {
    assert s[..1] == [s[0]];
  }

  /** Any other class character is copied. */
  lemma TableClassCopy(s: string)
    requires s != [] && s[0] !in "\\]!\n"
    ensures Outcome(Lex(CharacterClass, s)) == Then([s[0]], Outcome(Lex(CharacterClass, s[1..])))
  {
    RuleTable();
    ClassCopy(s);
    ClassCopyToken(s);
    Advance(CharacterClass, s, 10, Rule(CharacterClass, AnyChar, CharacterClass, CopyToken), 1, [s[0]], CharacterClass);
  }

  lemma ReferenceClassCopy(s: string)
    requires s != [] && s[0] !in "\\]!\n"
    ensures Reference(In(CharacterClass), s) == Then([s[0]], Reference(In(CharacterClass), s[1..]))
  {
    var c := s[0];
    assert c != '\\' && c != ']' && c != '!' && c != '\n';
  }

  lemma ClassEscapeCharToken(s: string)
    requires s != [] && s[0] != '\n'
    ensures TokenLength(AnyChar, s) == Some(1) && Apply(CopyToken, s[..1]) == [s[0]]
  {
    assert s[..1] == [s[0]];
  }

  /** An escaped class character is copied. */
  lemma TableClassEscapeChar(s: string)
    requires s != [] && s[0] != '\n'
    ensures Outcome(Lex(CharacterClassEscape, s)) == Then([s[0]], Outcome(Lex(CharacterClass, s[1..])))
  {
    RuleTable();
    CharacterClassEscapeRule(s);
    ClassEscapeCharToken(s);
    Advance(CharacterClassEscape, s, 7, Rule(CharacterClassEscape, AnyChar, CharacterClass, CopyToken), 1, [s[0]], CharacterClass);
  }

  lemma ReferenceClassEscapeChar(s: string)
    requires s != [] && s[0] != '\n'
    ensures Reference(In(CharacterClassEscape), s) == Then([s[0]], Reference(In(CharacterClass), s[1..]))
  {
  }

  lemma ClassEndStarToken(s: string)
    requires s != [] && s[0] == '*'
    ensures TokenLength(Star, s) == Some(1) && Apply(Emit("*"), s[..1]) == "*"
  {
  }

  /** `*` after a class repeats it. */
  lemma TableClassEndStar(s: string)
    requires s != [] && s[0] == '*'
    ensures Outcome(Lex(CharacterClassEnd, s)) == Then("*", Outcome(Lex(Start, s[1..])))
  {
    RuleTable();
    CharacterClassEndRule(s);
    ClassEndStarToken(s);
    Advance(CharacterClassEnd, s, 11, Rule(CharacterClassEnd, Star, Start, Emit("*")), 1, "*", Start);
  }

  lemma ReferenceClassEndStar(s: string)
    requires s != [] && s[0] == '*'
    ensures Reference(In(CharacterClassEnd), s) == Then("*", Reference(In(Start), s[1..]))
  {
  }

  /** A slash after a class is copied. */
  lemma TableClassEndSlash(s: string)
    requires s != [] && s[0] == '/'
    ensures Outcome(Lex(CharacterClassEnd, s)) == Then("/", Outcome(Lex(Start, s[1..])))
  {
    RuleTable();
    CharacterClassEndRule(s);
    SlashToken(s);
    Advance(CharacterClassEnd, s, 13, Rule(CharacterClassEnd, Slash, Start, QuoteToken), 1, "/", Start);
  }

  lemma ReferenceClassEndSlash(s: string)
    requires s != [] && s[0] == '/'
    ensures Reference(In(CharacterClassEnd), s) == Then("/", Reference(In(Start), s[1..]))
  {
  }

  lemma ClassEndRunToken(s: string)
    requires s != [] && s[0] != '*' && s[0] != '/'
    ensures TokenLength(NonSlashRun, s) == Some(Span(s, "/"))
    ensures Apply(QuoteToken, s[..Span(s, "/")]) == QuoteMeta(s[..Span(s, "/")])
  {
    assert s[0] !in "/";
  }

  /** Anything else after a class starts a run, quoted, up to the next slash. */
  lemma TableClassEndRun(s: string)
    requires s != [] && s[0] != '*' && s[0] != '/'
    ensures Outcome(Lex(CharacterClassEnd, s)) == Then(QuoteMeta(s[..Span(s, "/")]), Outcome(Lex(Start, s[Span(s, "/")..])))
  {
    RuleTable();
    CharacterClassEndRule(s);
    ClassEndRunToken(s);
    Advance(CharacterClassEnd, s, 12, Rule(CharacterClassEnd, NonSlashRun, Start, QuoteToken), Span(s, "/"), QuoteMeta(s[..Span(s, "/")]), Start);
  }

  lemma ReferenceClassEndRun(s: string)
    requires s != [] && s[0] != '*' && s[0] != '/'
    ensures Reference(In(CharacterClassEnd), s) == Then(QuoteMeta(s[..Span(s, "/")]), Reference(In(Start), s[Span(s, "/")..]))
  {
    ReferenceEntersClassRun(s);
    RunQuotes(AfterClassRun, s);
    assert Stop(AfterClassRun) == "/";
  }

  /**
   * The table-driven tokenizer and the reference machine agree: the same
   * regex text when the input is consumed, the same remainder and state
   * when no rule applies.
   */
  lemma {:induction false} TableAgreesWithReference(st: State, s: string)
    ensures Outcome(Lex(st, s)) == Reference(In(st), s)
    decreases |s|, 2
  {
    if s != [] {
      match st {
        case Start => StartAgrees(s);
        case Escape => EscapeAgrees(s);
        case CharacterClass => CharacterClassAgrees(s);
        case CharacterClassEscape => CharacterClassEscapeAgrees(s);
        case CharacterClassEnd => CharacterClassEndAgrees(s);
      }
    }
  }

  lemma {:induction false} StartAgrees(s: string)
    requires s != []
    ensures Outcome(Lex(Start, s)) == Reference(In(Start), s)
    decreases |s|, 1
  {
    var c := s[0];
    if c == '!' || c == '^' {
      StartReserved(s);
    } else if c == '\\' {
      StartEscapeAgrees(s);
    } else if |s| >= 2 && c == '*' && s[1] == '*' && (|s| == 2 || s[2] == '/') {
      StartSegmentsAgrees(s);
    } else if c == '*' {
      StartStarAgrees(s);
    } else if c == '?' {
      StartQuestionAgrees(s);
    } else if c == '[' {
      StartClassAgrees(s);
    } else if c == '/' {
      StartSlashAgrees(s);
    } else {
      StartLiteralAgrees(s);
    }
  }

  lemma {:induction false} EscapeAgrees(s: string)
    requires s != []
    ensures Outcome(Lex(Escape, s)) == Reference(In(Escape), s)
    decreases |s|, 1
  {
    if s[0] == '\n' {
      EscapeRule(s);
    } else {
      EscapeCharAgrees(s);
    }
  }

  lemma {:induction false} CharacterClassAgrees(s: string)
    requires s != []
    ensures Outcome(Lex(CharacterClass, s)) == Reference(In(CharacterClass), s)
    decreases |s|, 1
  {
    var c := s[0];
    if c == '\\' {
      ClassBackslashAgrees(s);
    } else if c == ']' {
      ClassCloseAgrees(s);
    } else if c == '!' {
      ClassBangAgrees(s);
    } else if c == '\n' {
      ClassNewline(s);
    } else {
      ClassCopyAgrees(s);
    }
  }

  lemma {:induction false} CharacterClassEscapeAgrees(s: string)
    requires s != []
    ensures Outcome(Lex(CharacterClassEscape, s)) == Reference(In(CharacterClassEscape), s)
    decreases |s|, 1
  {
    if s[0] == '\n' {
      CharacterClassEscapeRule(s);
    } else {
      ClassEscapeCharAgrees(s);
    }
  }

  lemma {:induction false} CharacterClassEndAgrees(s: string)
    requires s != []
    ensures Outcome(Lex(CharacterClassEnd, s)) == Reference(In(CharacterClassEnd), s)
    decreases |s|, 1
  {
    if s[0] == '*' {
      ClassEndStarAgrees(s);
    } else if s[0] == '/' {
      ClassEndSlashAgrees(s);
    } else {
      ClassEndRunAgrees(s);
    }
  }

  lemma {:induction false} StartEscapeAgrees(s: string)
    requires s != [] && s[0] == '\\'
    ensures Outcome(Lex(Start, s)) == Reference(In(Start), s)
    decreases |s|, 0
  {
    TableStartEscape(s);
    ReferenceStartEscape(s);
    TableAgreesWithReference(Escape, s[1..]);
  }

  lemma {:induction false} StartSegmentsAgrees(s: string)
    requires |s| >= 2 && s[0] == '*' && s[1] == '*' && (|s| == 2 || s[2] == '/')
    ensures Outcome(Lex(Start, s)) == Reference(In(Start), s)
    decreases |s|, 0
  {
    TableStartSegments(s);
    ReferenceStartSegments(s);
    TableAgreesWithReference(Start, s[(if |s| == 2 then 2 else 3)..]);
  }

  lemma {:induction false} StartStarAgrees(s: string)
    requires s != [] && s[0] == '*' && !(|s| >= 2 && s[0] == '*' && s[1] == '*' && (|s| == 2 || s[2] == '/'))
    ensures Outcome(Lex(Start, s)) == Reference(In(Start), s)
    decreases |s|, 0
  {
    TableStartStar(s);
    ReferenceStartStar(s);
    TableAgreesWithReference(Start, s[1..]);
  }

  lemma {:induction false} StartQuestionAgrees(s: string)
    requires s != [] && s[0] == '?'
    ensures Outcome(Lex(Start, s)) == Reference(In(Start), s)
    decreases |s|, 0
  {
    TableStartQuestion(s);
    ReferenceStartQuestion(s);
    TableAgreesWithReference(Start, s[1..]);
  }

  lemma {:induction false} StartClassAgrees(s: string)
    requires s != [] && s[0] == '['
    ensures Outcome(Lex(Start, s)) == Reference(In(Start), s)
    decreases |s|, 0
  {
    TableStartClass(s);
    ReferenceStartClass(s);
    TableAgreesWithReference(CharacterClass, s[1..]);
  }

  lemma {:induction false} StartSlashAgrees(s: string)
    requires s != [] && s[0] == '/'
    ensures Outcome(Lex(Start, s)) == Reference(In(Start), s)
    decreases |s|, 0
  {
    TableStartSlash(s);
    ReferenceStartSlash(s);
    TableAgreesWithReference(Start, s[1..]);
  }

  lemma {:induction false} StartLiteralAgrees(s: string)
    requires s != [] && s[0] !in "\\*?[/!^"
    ensures Outcome(Lex(Start, s)) == Reference(In(Start), s)
    decreases |s|, 0
  {
    TableStartLiteral(s);
    ReferenceStartLiteral(s);
    TableAgreesWithReference(Start, s[Span(s, LiteralStop)..]);
  }

  lemma {:induction false} EscapeCharAgrees(s: string)
    requires s != [] && s[0] != '\n'
    ensures Outcome(Lex(Escape, s)) == Reference(In(Escape), s)
    decreases |s|, 0
  {
    TableEscapeChar(s);
    ReferenceEscapeChar(s);
    TableAgreesWithReference(Start, s[1..]);
  }

  lemma {:induction false} ClassBackslashAgrees(s: string)
    requires s != [] && s[0] == '\\'
    ensures Outcome(Lex(CharacterClass, s)) == Reference(In(CharacterClass), s)
    decreases |s|, 0
  {
    TableClassBackslash(s);
    ReferenceClassBackslash(s);
    TableAgreesWithReference(CharacterClassEscape, s[1..]);
  }

  lemma {:induction false} ClassCloseAgrees(s: string)
    requires s != [] && s[0] == ']'
    ensures Outcome(Lex(CharacterClass, s)) == Reference(In(CharacterClass), s)
    decreases |s|, 0
  {
    TableClassClose(s);
    ReferenceClassClose(s);
    TableAgreesWithReference(CharacterClassEnd, s[1..]);
  }

  lemma {:induction false} ClassBangAgrees(s: string)
    requires s != [] && s[0] == '!'
    ensures Outcome(Lex(CharacterClass, s)) == Reference(In(CharacterClass), s)
    decreases |s|, 0
  {
    TableClassBang(s);
    ReferenceClassBang(s);
    TableAgreesWithReference(CharacterClass, s[1..]);
  }

  lemma {:induction false} ClassCopyAgrees(s: string)
    requires s != [] && s[0] !in "\\]!\n"
    ensures Outcome(Lex(CharacterClass, s)) == Reference(In(CharacterClass), s)
    decreases |s|, 0
  {
    TableClassCopy(s);
    ReferenceClassCopy(s);
    TableAgreesWithReference(CharacterClass, s[1..]);
  }

  lemma {:induction false} ClassEscapeCharAgrees(s: string)
    requires s != [] && s[0] != '\n'
    ensures Outcome(Lex(CharacterClassEscape, s)) == Reference(In(CharacterClassEscape), s)
    decreases |s|, 0
  {
    TableClassEscapeChar(s);
    ReferenceClassEscapeChar(s);
    TableAgreesWithReference(CharacterClass, s[1..]);
  }

  lemma {:induction false} ClassEndStarAgrees(s: string)
    requires s != [] && s[0] == '*'
    ensures Outcome(Lex(CharacterClassEnd, s)) == Reference(In(CharacterClassEnd), s)
    decreases |s|, 0
  {
    TableClassEndStar(s);
    ReferenceClassEndStar(s);
    TableAgreesWithReference(Start, s[1..]);
  }

  lemma {:induction false} ClassEndSlashAgrees(s: string)
    requires s != [] && s[0] == '/'
    ensures Outcome(Lex(CharacterClassEnd, s)) == Reference(In(CharacterClassEnd), s)
    decreases |s|, 0
  {
    TableClassEndSlash(s);
    ReferenceClassEndSlash(s);
    TableAgreesWithReference(Start, s[1..]);
  }

  lemma {:induction false} ClassEndRunAgrees(s: string)
    requires s != [] && s[0] != '*' && s[0] != '/'
    ensures Outcome(Lex(CharacterClassEnd, s)) == Reference(In(CharacterClassEnd), s)
    decreases |s|, 0
  {
    TableClassEndRun(s);
    ReferenceClassEndRun(s);
    TableAgreesWithReference(Start, s[Span(s, "/")..]);
  }
}
