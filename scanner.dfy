/** The scanning loop that drives the token rules over a source text: the lexer's
    position and line counter advance step by step until the text is used up. */
module Scanner {
  import opened Lexer

  /** What one step does to the lexer: the tokens it returns, the reports it makes,
      and the position and line number it leaves the lexer at. */
  datatype StepEffect = StepEffect(tokens: seq<Token>, diagnostics: seq<Diagnostic>, pos: nat, line: nat)

  /** The effect of `step` taken at `pos` on line `line`. A newline run advances the
      line number by its length; `t_error` reports the character and skips exactly one
      position. */
  function Effect(src: string, pos: nat, line: nat, step: Step): (e: StepEffect)
    requires pos < |src|
    requires step.Emit? ==> 0 < step.length <= |src| - pos
    requires step.NewlineRun? ==> 0 < step.count <= |src| - pos
    ensures pos < e.pos <= |src|
  {
    match step
    case Ignore => StepEffect([], [], pos + 1, line)
    case NewlineRun(n) => StepEffect([], [], pos + n, line + n)
    case Emit(kind, value, length) => StepEffect([Token(kind, value, line)], [], pos + length, line)
    case Illegal => StepEffect([], [IllegalCharacter(src[pos], line)], pos + 1, line)
  }

  /** The scan once a step is known is the effect of that step followed by the scan
      from where the step leaves the lexer. */
  lemma LexAfterEffect(src: string, pos: nat, line: nat, step: Step)
    requires pos < |src|
    requires step.Emit? ==> 0 < step.length <= |src| - pos
    requires step.NewlineRun? ==> 0 < step.count <= |src| - pos
    ensures var e := Effect(src, pos, line, step);
      LexAfter(src, pos, line, step) == LexResult(e.tokens + LexFrom(src, e.pos, e.line).tokens,
                                                  e.diagnostics + LexFrom(src, e.pos, e.line).diagnostics)
  {
    match step
    case Ignore =>
    case NewlineRun(_) =>
    case Emit(_, _, _) =>
    case Illegal =>
  }

  /** One iteration of the scanning loop: the effect of the step at `pos`, which
      leaves the rest of the scan to be done from the new position and line. */
  method ScanStep(src: string, pos: nat, line: nat) returns (e: StepEffect)
    requires pos < |src|
    ensures pos < e.pos <= |src|
    ensures LexFrom(src, pos, line) == LexResult(e.tokens + LexFrom(src, e.pos, e.line).tokens,
                                                 e.diagnostics + LexFrom(src, e.pos, e.line).diagnostics)
  {
    var step := Next(src, pos);
    e := Effect(src, pos, line, step);
    LexAfterEffect(src, pos, line, step);
  }

  /** The scanning loop, with the position and the line counter as its state: each
      iteration applies the first rule that matches and moves on. */
  method Tokenize(src: string) returns (tokens: seq<Token>, diagnostics: seq<Diagnostic>)
    ensures tokens == Lex(src).tokens
    ensures diagnostics == Lex(src).diagnostics
  {
    var pos: nat, line: nat := 0, 1;
    tokens, diagnostics := [], [];
    while pos < |src|
      invariant pos <= |src|
      invariant Lex(src).tokens == tokens + LexFrom(src, pos, line).tokens
      invariant Lex(src).diagnostics == diagnostics + LexFrom(src, pos, line).diagnostics
      decreases |src| - pos
    {
      var e := ScanStep(src, pos, line);
      tokens, diagnostics := tokens + e.tokens, diagnostics + e.diagnostics;
      pos, line := e.pos, e.line;
    }
  }
}
