/**
 * The glob compiler of glob.go: a table-driven tokenizer that turns a glob
 * into the source text of an anchored regular expression.
 *
 * At every step the first entry of the rule table (`RuleAt`), in order, whose input state
 * is the current state and whose token matches a prefix of the remaining
 * input consumes that prefix, appends the rule's fragment to the output and
 * moves to the rule's next state.  The regular-expression engine that later
 * compiles and matches that text is not modelled: whether a text compiles is
 * the parameter `compiles`, whether it matches a name is `regexMatch`.
 */
module Glob {
  import opened Wrappers
  import opened Quote

  /** tokenizerState */
  datatype State = Start | Escape | CharacterClass | CharacterClassEscape | CharacterClassEnd

  /** The name Go prints for a state in its error message. */
  function StateName(s: State): (r: string)
    ensures |r| > 0
  {
    match s
    case Start => "start"
    case Escape => "escape"
    case CharacterClass => "character_class"
    case CharacterClassEscape => "character_class_escape"
    case CharacterClassEnd => "character_class_end"
  }

  /** The error message tells the states apart: no two names even have the same length. */
  lemma StateNamesDistinct(a: State, b: State)
    ensures StateName(a) == StateName(b) <==> a == b
  {
    var n, m := StateName(a), StateName(b);
    if a != b {
      assert |n| != |m|;
    }
  }

  /** The anchored token patterns of the rule table. */
  datatype Token =
    | Backslash      // ^\\
    | AnyChar        // ^.   (Go's `.` does not match a newline)
    | DoubleStar     // ^\*\*(/|$)
    | Star           // ^\*
    | Question       // ^\?
    | OpenBracket    // ^\[
    | CloseBracket   // ^]
    | Bang           // ^!
    | Slash          // ^/
    | NonSlashRun    // ^[^/]+
    | LiteralRun     // ^[^/*?!^]+

  /** What a rule appends to the output, given the matched text. */
  datatype Transformer = Emit(text: string) | QuoteToken | CopyToken

  datatype Rule = Rule(input: State, token: Token, output: State, transformer: Transformer)

  /** The characters that end a literal run in the start state. */
  const LiteralStop: string := "/*?!^"

  /** Length of the longest prefix of s that has no character of stop. */
  function Span(s: string, stop: string): (n: nat)
    ensures n <= |s|
  {
    if s == [] || s[0] in stop then 0 else 1 + Span(s[1..], stop)
  }

  /**
   * Length of the text the anchored token matches at the head of s, None
   * when it does not match.  Runs are greedy, as Go's leftmost-first
   * matching makes them; `(/|$)` takes the slash when there is one.
   */
  function TokenLength(t: Token, s: string): (r: Option<nat>)
    ensures r.Some? ==> 0 < r.value <= |s|
  {
    match t
    case Backslash => if s != [] && s[0] == '\\' then Some(1) else None
    case AnyChar => if s != [] && s[0] != '\n' then Some(1) else None
    case DoubleStar =>
      if |s| >= 2 && s[0] == '*' && s[1] == '*' then
        (if |s| == 2 then Some(2) else if s[2] == '/' then Some(3) else None)
      else None
    case Star => if s != [] && s[0] == '*' then Some(1) else None
    case Question => if s != [] && s[0] == '?' then Some(1) else None
    case OpenBracket => if s != [] && s[0] == '[' then Some(1) else None
    case CloseBracket => if s != [] && s[0] == ']' then Some(1) else None
    case Bang => if s != [] && s[0] == '!' then Some(1) else None
    case Slash => if s != [] && s[0] == '/' then Some(1) else None
    case NonSlashRun => var n := Span(s, "/"); if n > 0 then Some(n) else None
    case LiteralRun => var n := Span(s, LiteralStop); if n > 0 then Some(n) else None
  }

  function Apply(t: Transformer, token: string): string
  {
    match t
    case Emit(text) => text
    case QuoteToken => QuoteMeta(token)
    case CopyToken => token
  }

  /** The regular expression `**` followed by a slash or the end becomes: any number of whole segments. */
  const AnySegments: string := "([^/]+(/|$))*"

  /** Entry k of tokenizerRules, in table order. */
  function RuleAt(k: nat): Rule
    requires k < RuleCount
  {
    match k
    case 0 => Rule(Start, Backslash, Escape, Emit(""))
    case 1 => Rule(Escape, AnyChar, Start, QuoteToken)
    case 2 => Rule(Start, DoubleStar, Start, Emit(AnySegments))
    case 3 => Rule(Start, Star, Start, Emit("[^/]*"))
    case 4 => Rule(Start, Question, Start, Emit("[^/]"))
    case 5 => Rule(Start, OpenBracket, CharacterClass, Emit("["))
    case 6 => Rule(CharacterClass, Backslash, CharacterClassEscape, Emit("\\"))
    case 7 => Rule(CharacterClassEscape, AnyChar, CharacterClass, CopyToken)
    case 8 => Rule(CharacterClass, CloseBracket, CharacterClassEnd, Emit("]"))
    case 9 => Rule(CharacterClass, Bang, CharacterClass, Emit("^"))
    case 10 => Rule(CharacterClass, AnyChar, CharacterClass, CopyToken)
    case 11 => Rule(CharacterClassEnd, Star, Start, Emit("*"))
    case 12 => Rule(CharacterClassEnd, NonSlashRun, Start, QuoteToken)
    case 13 => Rule(CharacterClassEnd, Slash, Start, QuoteToken)
    case 14 => Rule(Start, LiteralRun, Start, QuoteToken)
    case 15 => Rule(Start, Slash, Start, QuoteToken)
  }

  /** The number of entries in tokenizerRules. */
  const RuleCount: nat := 16

  /** Rule k is one the tokenizer may take in state st on input s. */
  predicate Applies(k: nat, st: State, s: string)
    requires k < RuleCount
  {
    RuleAt(k).input == st && TokenLength(RuleAt(k).token, s).Some?
  }

  /** The rule table entry by entry, for proofs that need several entries at once. */
  lemma RuleTable()
    ensures RuleAt(0) == Rule(Start, Backslash, Escape, Emit(""))
    ensures RuleAt(1) == Rule(Escape, AnyChar, Start, QuoteToken)
    ensures RuleAt(2) == Rule(Start, DoubleStar, Start, Emit(AnySegments))
    ensures RuleAt(3) == Rule(Start, Star, Start, Emit("[^/]*"))
    ensures RuleAt(4) == Rule(Start, Question, Start, Emit("[^/]"))
    ensures RuleAt(5) == Rule(Start, OpenBracket, CharacterClass, Emit("["))
    ensures RuleAt(6) == Rule(CharacterClass, Backslash, CharacterClassEscape, Emit("\\"))
    ensures RuleAt(7) == Rule(CharacterClassEscape, AnyChar, CharacterClass, CopyToken)
    ensures RuleAt(8) == Rule(CharacterClass, CloseBracket, CharacterClassEnd, Emit("]"))
    ensures RuleAt(9) == Rule(CharacterClass, Bang, CharacterClass, Emit("^"))
    ensures RuleAt(10) == Rule(CharacterClass, AnyChar, CharacterClass, CopyToken)
    ensures RuleAt(11) == Rule(CharacterClassEnd, Star, Start, Emit("*"))
    ensures RuleAt(12) == Rule(CharacterClassEnd, NonSlashRun, Start, QuoteToken)
    ensures RuleAt(13) == Rule(CharacterClassEnd, Slash, Start, QuoteToken)
    ensures RuleAt(14) == Rule(Start, LiteralRun, Start, QuoteToken)
    ensures RuleAt(15) == Rule(Start, Slash, Start, QuoteToken)
  {
  }

  /**
   * The table as a state machine: an escape is entered only on a backslash
   * in the start state and goes back to the start state; a class escape
   * goes back to the class; only `]` ends a class; and every rule after a
   * class goes back to the start state.
   */
  lemma RuleTransitions(k: nat)
    requires k < RuleCount
    ensures var r := RuleAt(k);
      (r.output == Escape <==> r.input == Start && r.token == Backslash) &&
      (r.input == Escape ==> r.output == Start) &&
      (r.input == CharacterClassEscape ==> r.output == CharacterClass) &&
      (r.output == CharacterClassEnd <==> r.token == CloseBracket) &&
      (r.input == CharacterClassEnd ==> r.output == Start)
  {
    RuleTable();
  }

  /** The first rule at index k or later that applies. */
  function FirstRuleFrom(st: State, s: string, k: nat): (r: Option<nat>)
    requires k <= RuleCount
    ensures r.Some? ==> k <= r.value < RuleCount && Applies(r.value, st, s)
    decreases RuleCount - k
  {
    if k == RuleCount then None
    else if Applies(k, st, s) then Some(k)
    else FirstRuleFrom(st, s, k + 1)
  }

  lemma FirstRuleFromUnfold(st: State, s: string, k: nat, rule: Rule)
    requires k < RuleCount && rule == RuleAt(k)
    ensures FirstRuleFrom(st, s, k) ==
      if rule.input == st && TokenLength(rule.token, s).Some? then Some(k) else FirstRuleFrom(st, s, k + 1)
  {
  }

  /** The rule the tokenizer takes: the first one in table order that applies. */
  function FirstRule(st: State, s: string): Option<nat>
  {
    FirstRuleFrom(st, s, 0)
  }

  /** One step of the tokenizer: the rule taken and the text it consumed. */
  datatype Step = Step(rule: Rule, token: string)

  /** The fragment a step appends to the output. */
  function Fragment(step: Step): string
  {
    Apply(step.rule.transformer, step.token)
  }

  /** The concatenation of the fragments of the steps, in order. */
  function Emitted(steps: seq<Step>): string
  {
    if steps == [] then "" else Fragment(steps[0]) + Emitted(steps[1..])
  }

  /** The concatenation of the texts the steps consumed. */
  function Consumed(steps: seq<Step>): string
  {
    if steps == [] then "" else steps[0].token + Consumed(steps[1..])
  }

  /**
   * The run of the tokenizer: either it consumed the whole input, or it
   * stopped at `rest` in state `state` because no rule applied there.
   */
  datatype Lexing =
    | Lexed(steps: seq<Step>)
    | Stuck(steps: seq<Step>, rest: string, state: State)

  function Prepend(done: seq<Step>, l: Lexing): (r: Lexing)
    ensures r.steps == done + l.steps
    ensures r.Lexed? == l.Lexed?
    ensures r.Stuck? ==> r.rest == l.rest && r.state == l.state
  {
    match l
    case Lexed(steps) => Lexed(done + steps)
    case Stuck(steps, rest, st) => Stuck(done + steps, rest, st)
  }

  /**
   * The tokenizer from state st on input s.  Every token is non-empty, so
   * the remaining input shrinks at each step; the consumed texts put
   * together give back the input, up to the remainder where it stopped.
   */
  function Lex(st: State, s: string): (r: Lexing)
    ensures |r.steps| <= |s|
    ensures r.Stuck? ==> r.rest != [] && |r.rest| <= |s| - |r.steps|
    decreases |s|
  {
    if s == [] then Lexed([])
    else
      match FirstRule(st, s)
      case None => Stuck([], s, st)
      case Some(k) =>
        var n := TokenLength(RuleAt(k).token, s).value;
        Prepend([Step(RuleAt(k), s[..n])], Lex(RuleAt(k).output, s[n..]))
  }

  /** The regular-expression source text, or the syntax error of the tokenizer. */
  datatype CompileError =
    | GlobSyntaxError(remaining: string, state: State)    // "failed to match remaining string ..."
    | RegexError(regex: string, pattern: string)          // "failed to compile regexp ..."

  /** patternImpl: a compiled pattern, known here by its regular-expression source. */
  datatype Pattern = Pattern(source: string)

  /** The tokenizer's output for a glob: `^`, the emitted fragments, `$`. */
  function Translate(glob: string): (r: Result<string, CompileError>)
    ensures r.Success? ==> |r.value| >= 2 && r.value[0] == '^' && r.value[|r.value| - 1] == '$'
    ensures r.Failure? ==> r.error.GlobSyntaxError? && r.error.remaining != [] && |r.error.remaining| <= |glob|
  {
    match Lex(Start, glob)
    case Lexed(steps) => Success("^" + Emitted(steps) + "$")
    case Stuck(_, rest, st) => Failure(GlobSyntaxError(rest, st))
  }

  /** compile: Translate, then hand the text to the regular-expression engine. */
  function CompileSpec(glob: string, compiles: string -> bool): (r: Result<Pattern, CompileError>)
    ensures r.Success? ==> compiles(r.value.source) && |r.value.source| >= 2 && r.value.source[0] == '^' && r.value.source[|r.value.source| - 1] == '$'
    ensures r.Failure? && r.error.RegexError? ==> r.error.pattern == glob && !compiles(r.error.regex)
    ensures r.Failure? && r.error.GlobSyntaxError? ==> Translate(glob) == Failure(r.error)
  {
    match Translate(glob)
    case Success(src) => if compiles(src) then Success(Pattern(src)) else Failure(RegexError(src, glob))
    case Failure(e) => Failure(e)
  }

  /** patternImpl.match, with filepath.ToSlash taken as the identity. */
  function Match(p: Pattern, name: string, regexMatch: (string, string) -> bool): bool
  {
    regexMatch(p.source, name)
  }

  /**
   * The inner loop of compile: scans the rule table in order for the first
   * rule of state st whose token matches the head of s.
   */
  method FindRule(st: State, s: string) returns (found: bool, k: nat, rule: Rule, n: nat)
    ensures found <==> FirstRule(st, s).Some?
    ensures found ==> FirstRule(st, s) == Some(k) && rule == RuleAt(k)
    ensures found ==> TokenLength(rule.token, s) == Some(n)
  {
    found := false;
    k := 0;
    n := 0;
    rule := RuleAt(0);
    while k < RuleCount
      invariant 0 <= k <= RuleCount
      invariant FirstRule(st, s) == FirstRuleFrom(st, s, k)
    {
      rule := RuleAt(k);
      FirstRuleFromUnfold(st, s, k, rule);
      if rule.input != st {
        k := k + 1;
        continue;
      }
      var m := TokenLength(rule.token, s);
      if m.Some? {
        found := true;
        n := m.value;
        return;
      }
      k := k + 1;
    }
  }

  /**
   * compile, as the loop of glob.go runs it: each iteration takes the first
   * applicable rule, consumes its token, appends its fragment and moves to
   * its next state.
   */
  method Compile(glob: string, compiles: string -> bool) returns (r: Result<Pattern, CompileError>)
    ensures r == CompileSpec(glob, compiles)
  {
    var output := "^";
    var state := Start;
    var input := glob;
    ghost var done: seq<Step> := [];
    assert Emitted(done) == "";
    while true
      invariant Lex(Start, glob) == Prepend(done, Lex(state, input))
      invariant output == "^" + Emitted(done)
      decreases |input|
    {
      if |input| == 0 {
        break;
      }
      var found, k, rule, n := FindRule(state, input);
      if !found {
        return Failure(GlobSyntaxError(input, state));
      }
      var token := input[..n];
      var fragment := Apply(rule.transformer, token);
      LexAdvance(state, input, k, rule, n, done, output);
      state := rule.output;
      input := input[n..];
      output := output + fragment;
      done := done + [Step(rule, token)];
    }
    assert done + [] == done;
    assert Lex(Start, glob) == Lexed(done);
    assert Translate(glob) == Success(output + "$");
    output := output + "$";
    if !compiles(output) {
      return Failure(RegexError(output, glob));
    }
    return Success(Pattern(output));
  }

  /** One step of Lex: the first applicable rule consumes its token. */
  lemma LexStep(st: State, s: string, k: nat)
    requires s != [] && FirstRule(st, s) == Some(k)
    ensures TokenLength(RuleAt(k).token, s).Some?
    ensures var n := TokenLength(RuleAt(k).token, s).value;
      Lex(st, s) == Prepend([Step(RuleAt(k), s[..n])], Lex(RuleAt(k).output, s[n..]))
  {
  }

  /** Taking one step keeps the run of Lex and the output of compile in step with each other. */
  lemma LexAdvance(st: State, s: string, k: nat, rule: Rule, n: nat, done: seq<Step>, output: string)
    requires s != [] && FirstRule(st, s) == Some(k) && rule == RuleAt(k)
    requires TokenLength(rule.token, s) == Some(n)
    requires output == "^" + Emitted(done)
    ensures Prepend(done, Lex(st, s)) == Prepend(done + [Step(rule, s[..n])], Lex(rule.output, s[n..]))
    ensures output + Apply(rule.transformer, s[..n]) == "^" + Emitted(done + [Step(rule, s[..n])])
  {
    var step := Step(rule, s[..n]);
    LexStep(st, s, k);
    PrependAppend(done, [step], Lex(rule.output, s[n..]));
    EmittedStep(done, step, output);
  }

  lemma EmittedStep(done: seq<Step>, step: Step, output: string)
    requires output == "^" + Emitted(done)
    ensures output + Fragment(step) == "^" + Emitted(done + [step])
  {
    EmittedAppend(done, [step]);
    assert Emitted([step]) == Fragment(step) by {
      assert Emitted([step][1..]) == "";
    }
  }

  lemma PrependAppend(a: seq<Step>, b: seq<Step>, l: Lexing)
    ensures Prepend(a, Prepend(b, l)) == Prepend(a + b, l)
  {
  }

  lemma {:induction false} EmittedAppend(a: seq<Step>, b: seq<Step>)
    ensures Emitted(a + b) == Emitted(a) + Emitted(b)
  {
    if a == [] {
      assert a + b == b;
    } else {
      assert (a + b)[1..] == a[1..] + b;
      EmittedAppend(a[1..], b);
    }
  }
}

