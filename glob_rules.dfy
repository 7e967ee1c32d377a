/**
 * Which rule the tokenizer takes in each state, by the head of the input:
 * the rule table of glob.go read in order, one case at a time.
 */
module GlobRules {
  import opened Wrappers
  import opened Glob

  /** Rule k exists and does not apply. */
  predicate Skippable(k: nat, st: State, s: string)
  {
    k < RuleCount && !Applies(k, st, s)
  }

  lemma Skip(st: State, s: string, k: nat)
    requires Skippable(k, st, s)
    ensures FirstRuleFrom(st, s, k) == FirstRuleFrom(st, s, k + 1)
  {
  }

  lemma Take(st: State, s: string, k: nat)
    requires k < RuleCount && Applies(k, st, s)
    ensures FirstRuleFrom(st, s, k) == Some(k)
  {
  }

  /** Rules 6 to 13 belong to the class states and never apply in the start state. */
  lemma StartPastClassRules(s: string)
    ensures FirstRuleFrom(Start, s, 6) == FirstRuleFrom(Start, s, 14)
  {
    RuleTable();
    Skip(Start, s, 6);
    Skip(Start, s, 7);
    Skip(Start, s, 8);
    Skip(Start, s, 9);
    Skip(Start, s, 10);
    Skip(Start, s, 11);
    Skip(Start, s, 12);
    Skip(Start, s, 13);
  }

  lemma StartBackslash(s: string)
    requires s != [] && s[0] == '\\'
    ensures FirstRule(Start, s) == Some(0)
  {
    RuleTable();
    Take(Start, s, 0);
  }

  lemma StartSegments(s: string)
    requires |s| >= 2 && s[0] == '*' && s[1] == '*' && (|s| == 2 || s[2] == '/')
    ensures FirstRule(Start, s) == Some(2)
  {
    RuleTable();
    Skip(Start, s, 0);
    Skip(Start, s, 1);
    Take(Start, s, 2);
  }

  lemma StartStar(s: string)
    requires s != [] && s[0] == '*' && !(|s| >= 2 && s[0] == '*' && s[1] == '*' && (|s| == 2 || s[2] == '/'))
    ensures FirstRule(Start, s) == Some(3)
  {
    RuleTable();
    Skip(Start, s, 0);
    Skip(Start, s, 1);
    Skip(Start, s, 2);
    Take(Start, s, 3);
  }

  lemma StartQuestion(s: string)
    requires s != [] && s[0] == '?'
    ensures FirstRule(Start, s) == Some(4)
  {
    RuleTable();
    Skip(Start, s, 0);
    Skip(Start, s, 1);
    Skip(Start, s, 2);
    Skip(Start, s, 3);
    Take(Start, s, 4);
  }

  lemma StartOpen(s: string)
    requires s != [] && s[0] == '['
    ensures FirstRule(Start, s) == Some(5)
  {
    RuleTable();
    Skip(Start, s, 0);
    Skip(Start, s, 1);
    Skip(Start, s, 2);
    Skip(Start, s, 3);
    Skip(Start, s, 4);
    Take(Start, s, 5);
  }

  lemma StartPastWildcards(s: string)
    requires s != [] && s[0] !in "\\*?["
    ensures FirstRule(Start, s) == FirstRuleFrom(Start, s, 14)
  {
    RuleTable();
    Skip(Start, s, 0);
    Skip(Start, s, 1);
    Skip(Start, s, 2);
    Skip(Start, s, 3);
    Skip(Start, s, 4);
    Skip(Start, s, 5);
    StartPastClassRules(s);
  }

  lemma StartSlash(s: string)
    requires s != [] && s[0] == '/'
    ensures FirstRule(Start, s) == Some(15)
  {
    RuleTable();
    StartPastWildcards(s);
    Skip(Start, s, 14);
    Take(Start, s, 15);
  }

  lemma StartReserved(s: string)
    requires s != [] && (s[0] == '!' || s[0] == '^')
    ensures FirstRule(Start, s) == None
  {
    RuleTable();
    StartPastWildcards(s);
    Skip(Start, s, 14);
    Skip(Start, s, 15);
  }

  lemma StartLiteral(s: string)
    requires s != [] && s[0] !in "\\*?[/!^"
    ensures FirstRule(Start, s) == Some(14)
  {
    RuleTable();
    StartPastWildcards(s);
    assert Span(s, LiteralStop) > 0;
    Take(Start, s, 14);
  }

  /**
   * In the start state `\\` opens an escape, `**` before a slash or the end
   * beats a single `*`, then come `*`, `?` and `[`; a slash is copied; `!`
   * and `^` match no rule; any other character begins a literal run.
   */
  lemma StartRule(s: string)
    requires s != []
    ensures FirstRule(Start, s) ==
      if s[0] == '\\' then Some(0)
      else if |s| >= 2 && s[0] == '*' && s[1] == '*' && (|s| == 2 || s[2] == '/') then Some(2)
      else if s[0] == '*' then Some(3)
      else if s[0] == '?' then Some(4)
      else if s[0] == '[' then Some(5)
      else if s[0] == '/' then Some(15)
      else if s[0] == '!' || s[0] == '^' then None
      else Some(14)
  {
    var c := s[0];
    if c == '\\' {
      StartBackslash(s);
    } else if |s| >= 2 && s[0] == '*' && s[1] == '*' && (|s| == 2 || s[2] == '/') {
      StartSegments(s);
    } else if c == '*' {
      StartStar(s);
    } else if c == '?' {
      StartQuestion(s);
    } else if c == '[' {
      StartOpen(s);
    } else if c == '/' {
      StartSlash(s);
    } else if c == '!' || c == '^' {
      StartReserved(s);
    } else {
      StartLiteral(s);
    }
  }

  /** In the escape state any character but a newline is taken by the one escape rule. */
  lemma EscapeRule(s: string)
    requires s != []
    ensures FirstRule(Escape, s) == if s[0] == '\n' then None else Some(1)
  {
    RuleTable();
    Skip(Escape, s, 0);
    if s[0] == '\n' {
      EscapePastRules(s);
    } else {
      Take(Escape, s, 1);
    }
  }

  /** Only rule 1 serves the escape state, and it refuses a newline. */
  lemma EscapePastRules(s: string)
    requires s != [] && s[0] == '\n'
    ensures FirstRuleFrom(Escape, s, 1) == None
  {
    RuleTable();
    Skip(Escape, s, 1);
    Skip(Escape, s, 2);
    Skip(Escape, s, 3);
    Skip(Escape, s, 4);
    Skip(Escape, s, 5);
    Skip(Escape, s, 6);
    Skip(Escape, s, 7);
    Skip(Escape, s, 8);
    Skip(Escape, s, 9);
    Skip(Escape, s, 10);
    Skip(Escape, s, 11);
    Skip(Escape, s, 12);
    Skip(Escape, s, 13);
    Skip(Escape, s, 14);
    Skip(Escape, s, 15);
  }

  lemma ClassBackslash(s: string)
    requires s != [] && s[0] == '\\'
    ensures FirstRule(CharacterClass, s) == Some(6)
  {
    RuleTable();
    Skip(CharacterClass, s, 0);
    Skip(CharacterClass, s, 1);
    Skip(CharacterClass, s, 2);
    Skip(CharacterClass, s, 3);
    Skip(CharacterClass, s, 4);
    Skip(CharacterClass, s, 5);
    Take(CharacterClass, s, 6);
  }

  lemma ClassPastEscape(s: string)
    requires s != [] && s[0] != '\\'
    ensures FirstRule(CharacterClass, s) == FirstRuleFrom(CharacterClass, s, 8)
  {
    RuleTable();
    Skip(CharacterClass, s, 0);
    Skip(CharacterClass, s, 1);
    Skip(CharacterClass, s, 2);
    Skip(CharacterClass, s, 3);
    Skip(CharacterClass, s, 4);
    Skip(CharacterClass, s, 5);
    Skip(CharacterClass, s, 6);
    Skip(CharacterClass, s, 7);
  }

  lemma ClassClose(s: string)
    requires s != [] && s[0] == ']'
    ensures FirstRule(CharacterClass, s) == Some(8)
  {
    RuleTable();
    ClassPastEscape(s);
    Take(CharacterClass, s, 8);
  }

  lemma ClassBang(s: string)
    requires s != [] && s[0] == '!'
    ensures FirstRule(CharacterClass, s) == Some(9)
  {
    RuleTable();
    ClassPastEscape(s);
    Skip(CharacterClass, s, 8);
    Take(CharacterClass, s, 9);
  }

  lemma ClassCopy(s: string)
    requires s != [] && s[0] !in "\\]!\n"
    ensures FirstRule(CharacterClass, s) == Some(10)
  {
    RuleTable();
    ClassPastEscape(s);
    Skip(CharacterClass, s, 8);
    Skip(CharacterClass, s, 9);
    Take(CharacterClass, s, 10);
  }

  lemma ClassNewline(s: string)
    requires s != [] && s[0] == '\n'
    ensures FirstRule(CharacterClass, s) == None
  {
    RuleTable();
    ClassPastEscape(s);
    Skip(CharacterClass, s, 8);
    Skip(CharacterClass, s, 9);
    Skip(CharacterClass, s, 10);
    Skip(CharacterClass, s, 11);
    Skip(CharacterClass, s, 12);
    Skip(CharacterClass, s, 13);
    Skip(CharacterClass, s, 14);
    Skip(CharacterClass, s, 15);
  }

  /**
   * Inside a class `\\` starts a class escape, `]` closes the class, `!`
   * negates, a newline matches no rule, and anything else is copied.
   */
  lemma CharacterClassRule(s: string)
    requires s != []
    ensures FirstRule(CharacterClass, s) ==
      if s[0] == '\\' then Some(6)
      else if s[0] == ']' then Some(8)
      else if s[0] == '!' then Some(9)
      else if s[0] == '\n' then None
      else Some(10)
  {
    var c := s[0];
    if c == '\\' {
      ClassBackslash(s);
    } else if c == ']' {
      ClassClose(s);
    } else if c == '!' {
      ClassBang(s);
    } else if c == '\n' {
      ClassNewline(s);
    } else {
      ClassCopy(s);
    }
  }

  lemma ClassEscapePast(s: string)
    requires s != []
    ensures FirstRule(CharacterClassEscape, s) == FirstRuleFrom(CharacterClassEscape, s, 7)
  {
    RuleTable();
    Skip(CharacterClassEscape, s, 0);
    Skip(CharacterClassEscape, s, 1);
    Skip(CharacterClassEscape, s, 2);
    Skip(CharacterClassEscape, s, 3);
    Skip(CharacterClassEscape, s, 4);
    Skip(CharacterClassEscape, s, 5);
    Skip(CharacterClassEscape, s, 6);
  }

  lemma ClassEscapeNewline(s: string)
    requires s != [] && s[0] == '\n'
    ensures FirstRuleFrom(CharacterClassEscape, s, 7) == None
  {
    RuleTable();
    Skip(CharacterClassEscape, s, 7);
    Skip(CharacterClassEscape, s, 8);
    Skip(CharacterClassEscape, s, 9);
    Skip(CharacterClassEscape, s, 10);
    Skip(CharacterClassEscape, s, 11);
    Skip(CharacterClassEscape, s, 12);
    Skip(CharacterClassEscape, s, 13);
    Skip(CharacterClassEscape, s, 14);
    Skip(CharacterClassEscape, s, 15);
  }

  /** After `\\` inside a class any character but a newline is taken. */
  lemma CharacterClassEscapeRule(s: string)
    requires s != []
    ensures FirstRule(CharacterClassEscape, s) == if s[0] == '\n' then None else Some(7)
  {
    RuleTable();
    ClassEscapePast(s);
    if s[0] == '\n' {
      ClassEscapeNewline(s);
    } else {
      Take(CharacterClassEscape, s, 7);
    }
  }

  lemma ClassEndPast(s: string)
    requires s != []
    ensures FirstRule(CharacterClassEnd, s) == FirstRuleFrom(CharacterClassEnd, s, 11)
  {
    RuleTable();
    Skip(CharacterClassEnd, s, 0);
    Skip(CharacterClassEnd, s, 1);
    Skip(CharacterClassEnd, s, 2);
    Skip(CharacterClassEnd, s, 3);
    Skip(CharacterClassEnd, s, 4);
    Skip(CharacterClassEnd, s, 5);
    Skip(CharacterClassEnd, s, 6);
    Skip(CharacterClassEnd, s, 7);
    Skip(CharacterClassEnd, s, 8);
    Skip(CharacterClassEnd, s, 9);
    Skip(CharacterClassEnd, s, 10);
  }

  /** After a class `*` repeats it, a slash is copied, and anything else starts a run up to the next slash. */
  lemma CharacterClassEndRule(s: string)
    requires s != []
    ensures FirstRule(CharacterClassEnd, s) ==
      if s[0] == '*' then Some(11)
      else if s[0] == '/' then Some(13)
      else Some(12)
  {
    RuleTable();
    ClassEndPast(s);
    if s[0] == '*' {
      Take(CharacterClassEnd, s, 11);
    } else {
      Skip(CharacterClassEnd, s, 11);
      if s[0] == '/' {
        Skip(CharacterClassEnd, s, 12);
        Take(CharacterClassEnd, s, 13);
      } else {
        assert Span(s, "/") > 0;
        Take(CharacterClassEnd, s, 12);
      }
    }
  }
}
