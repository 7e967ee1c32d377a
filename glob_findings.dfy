/**
 * compile as glob.go writes its last error: the message that should name
 * the glob quotes `input`, which the tokenizer loop has consumed entirely
 * by the time the regular expression is compiled.
 */
module GlobFindings {
  import opened Wrappers
  import opened Glob
  import opened GlobRules
  import opened GlobProperties

  /** What is left of `input` when the tokenizer loop of compile exits normally: nothing. */
  function InputAfterLoop(glob: string): (r: string)
    requires Lex(Start, glob).Lexed?
    ensures r == []
  {
    LexConsumes(Start, glob);
    var c := Consumed(Lex(Start, glob).steps);
    glob[|c|..]
  }

  /** compile with the error of glob.go: RegexError carries the consumed `input`. */
  function CompileAsWritten(glob: string, compiles: string -> bool): (r: Result<Pattern, CompileError>)
    ensures r.Success? <==> CompileSpec(glob, compiles).Success?
    ensures r.Failure? && r.error.RegexError? ==> r.error.pattern == []
  {
    match Lex(Start, glob)
    case Stuck(_, rest, st) => Failure(GlobSyntaxError(rest, st))
    case Lexed(steps) =>
      var src := "^" + Emitted(steps) + "$";
      if compiles(src) then Success(Pattern(src)) else Failure(RegexError(src, InputAfterLoop(glob)))
  }

  /** The one-character glob `[` is accepted by the tokenizer and becomes `^[$`. */
  lemma LoneBracket()
    ensures Translate("[") == Success("^[$")
  {
    var s := "[";
    var rule := Rule(Start, OpenBracket, CharacterClass, Emit("["));
    StartOpen(s);
    LexStep(Start, s, 5);
    assert RuleAt(5) == rule;
    assert TokenLength(OpenBracket, s) == Some(1);
    assert s[..1] == "[" && s[1..] == [];
    assert Lex(CharacterClass, []) == Lexed([]);
    var steps := [Step(rule, "[")];
    assert Lex(Start, s) == Lexed(steps);
    assert Emitted(steps) == "[" by {
      assert steps[1..] == [];
      assert Fragment(steps[0]) == "[";
    }
    assert "^" + "[" + "$" == "^[$";
  }

  /**
   * When the engine refuses `^[$`, the error of glob.go names the pattern
   * '' where the corrected compile names `[`.
   */
  lemma AsWrittenLosesPattern(compiles: string -> bool)
    requires !compiles("^[$")
    ensures CompileAsWritten("[", compiles) == Failure(RegexError("^[$", ""))
    ensures CompileSpec("[", compiles) == Failure(RegexError("^[$", "["))
  {
    LoneBracket();
  }

  /**
   * The corrected compile: a glob the tokenizer accepts compiles exactly
   * when the engine accepts its translation, and a refusal names both the
   * translation and the glob it came from.
   */
  lemma CompileReportsGlob(glob: string, compiles: string -> bool)
    ensures CompileSpec(glob, compiles).Success? <==> Translate(glob).Success? && compiles(Translate(glob).value)
    ensures CompileSpec(glob, compiles).Success? ==> CompileSpec(glob, compiles).value.source == Translate(glob).value
    ensures var r := CompileSpec(glob, compiles);
      r.Failure? && r.error.RegexError? ==>
        r.error.pattern == glob && Translate(glob) == Success(r.error.regex) && !compiles(r.error.regex)
  {
  }
}
