/** The tokenizer: the token rules, the reserved-word table and the scanning loop
    that drives them (transpiler.py lines 5-84).

    At each position the scanner first skips an ignored character, then tries the
    rules that are functions in the order they are defined (`<<`, `>>`, identifiers,
    numbers, string literals, newlines), then the rules that are plain strings,
    longest regular expression first. A character that no rule matches is reported
    and skipped, and scanning goes on. */
module Lexer {
  import opened Wrappers
  import opened Decimal

  /** The token kinds, in the order of the `tokens` tuple. */
  datatype Kind =
    | Include | Iostream | StringLiteral
    | Int | Float | String | Void
    | Identifier | Number
    | Plus | Minus | Times | Divide
    | LParen | RParen | LBrace | RBrace
    | Semicolon | Equals | Comma
    | Cout | Cin | LeftShift | RightShift
    | If | Else | While | For | Return
    | Less | Greater | LessEqual | GreaterEqual
    | Using | Namespace | Std

  /** The value of a NUMBER token: int(lexeme), or a float kept as its lexeme. */
  datatype Number = IntNum(value: nat) | FloatNum(lexeme: string)

  /** A token's value: the matched text, or the converted number. */
  datatype Value = Lexeme(text: string) | NumberValue(number: Number)

  datatype Token = Token(kind: Kind, value: Value, line: nat)

  /** The report made for a character that no rule matches. */
  datatype Diagnostic = IllegalCharacter(ch: char, line: nat)

  datatype LexResult = LexResult(tokens: seq<Token>, diagnostics: seq<Diagnostic>)

  /** The reserved-word table. */
  const Reserved: map<string, Kind> := map[
    "include" := Include, "iostream" := Iostream,
    "int" := Int, "float" := Float, "string" := String, "void" := Void,
    "cout" := Cout, "cin" := Cin,
    "if" := If, "else" := Else, "while" := While, "for" := For, "return" := Return,
    "using" := Using, "namespace" := Namespace, "std" := Std
  ]

  /** The kind of an identifier lexeme: its reserved kind, else IDENTIFIER. */
  function Classify(word: string): Kind {
    if word in Reserved then Reserved[word] else Identifier
  }

  predicate IsKeyword(k: Kind) {
    k in {Include, Iostream, Int, Float, String, Void, Cout, Cin,
          If, Else, While, For, Return, Using, Namespace, Std}
  }

  /** How each keyword is spelled in the source. */
  function KeywordSpelling(k: Kind): string
    requires IsKeyword(k)
  {
    match k
    case Include => "include"
    case Iostream => "iostream"
    case Int => "int"
    case Float => "float"
    case String => "string"
    case Void => "void"
    case Cout => "cout"
    case Cin => "cin"
    case If => "if"
    case Else => "else"
    case While => "while"
    case For => "for"
    case Return => "return"
    case Using => "using"
    case Namespace => "namespace"
    case Std => "std"
  }

  /** A word becomes a given keyword exactly when it is that keyword's whole,
      case-sensitive spelling. */
  lemma KeywordExactly(word: string, k: Kind)
    requires IsKeyword(k)
    ensures Classify(word) == k <==> word == KeywordSpelling(k)
  {
    SpellingReserved(k);
    if Classify(word) == k {
      ReservedSpelling(word);
    }
  }

  /** Every keyword's spelling is in the table under that keyword. */
  lemma SpellingReserved(k: Kind)
    requires IsKeyword(k)
    ensures KeywordSpelling(k) in Reserved && Reserved[KeywordSpelling(k)] == k
  {
  }

  /** Every entry of the table is its keyword's spelling. */
  lemma ReservedSpelling(word: string)
    requires word in Reserved
    ensures IsKeyword(Reserved[word]) && KeywordSpelling(Reserved[word]) == word
  {
  }

  /** A word is an IDENTIFIER exactly when it spells no keyword. */
  lemma IdentifierExactly(word: string)
    ensures Classify(word) == Identifier <==> forall k :: IsKeyword(k) ==> word != KeywordSpelling(k)
  {
    if Classify(word) != Identifier {
      ReservedSpelling(word);
    } else {
      forall k | IsKeyword(k) ensures word != KeywordSpelling(k) {
        SpellingReserved(k);
      }
    }
  }

  /** `intx` and `Int` are identifiers, while `int` is the INT keyword. */
  lemma ClassifyExamples()
    ensures Classify("intx") == Identifier
    ensures Classify("Int") == Identifier
    ensures Classify("int") == Int
  {
    IdentifierExactly("intx");
    IdentifierExactly("Int");
  }

  predicate IsIdentStart(c: char) {
    'a' <= c <= 'z' || 'A' <= c <= 'Z' || c == '_'
  }

  predicate IsIdentChar(c: char) {
    IsIdentStart(c) || IsDigit(c)
  }

  /** A lexeme the identifier rule matches in full. */
  predicate IsWord(s: string) {
    |s| > 0 && IsIdentStart(s[0]) && forall k :: 0 < k < |s| ==> IsIdentChar(s[k])
  }

  /** Characters in `t_ignore`. */
  predicate IsIgnored(c: char) {
    c == ' ' || c == '\t' || c == '\r'
  }

  datatype CharClass = IdentChars | Digits | Newlines

  predicate InClass(c: char, cls: CharClass) {
    match cls
    case IdentChars => IsIdentChar(c)
    case Digits => IsDigit(c)
    case Newlines => c == '\n'
  }

  /** The end of the longest run of `cls` characters starting at `i`. */
  function SpanEnd(src: string, i: nat, cls: CharClass): (j: nat)
    requires i <= |src|
    ensures i <= j <= |src|
    ensures forall k :: i <= k < j ==> InClass(src[k], cls)
    ensures j == |src| || !InClass(src[j], cls)
    decreases |src| - i
  {
    if i < |src| && InClass(src[i], cls) then SpanEnd(src, i + 1, cls) else i
  }

  /** Digits, a point and digits: the `\d+\.\d+` form of a NUMBER lexeme. */
  predicate IsDecimalFraction(s: string) {
    exists p :: 0 < p < |s| - 1 && s[p] == '.' && IsDigits(s[..p]) && IsDigits(s[p + 1..])
  }

  /** The end of the match of `\d+(\.\d+)?` at `i`. The match is a digit run or a
      decimal fraction; it stops before a digit never; and it is a plain digit run only
      when no point followed by a digit comes after it, so the fraction is taken
      exactly when a digit follows the point. These three facts pin `j` down. */
  function NumberEnd(src: string, i: nat): (j: nat)
    requires i < |src| && IsDigit(src[i])
    ensures i < j <= |src|
    ensures IsDigits(src[i..j]) || IsDecimalFraction(src[i..j])
    ensures j == |src| || !IsDigit(src[j])
    ensures IsDigits(src[i..j]) ==> !(j + 1 < |src| && src[j] == '.' && IsDigit(src[j + 1]))
  {
    var d := SpanEnd(src, i, Digits);
    if d + 1 < |src| && src[d] == '.' && IsDigit(src[d + 1]) then
      var e := SpanEnd(src, d + 1, Digits);
      var lexeme := src[i..e];
      assert lexeme[d - i] == '.';
      assert lexeme[..d - i] == src[i..d];
      assert lexeme[d - i + 1..] == src[d + 1..e];
      assert IsDecimalFraction(lexeme);
      e
    else d
  }

  /** The index of the first `"` at or after `i`, if there is one. */
  function ClosingQuote(src: string, i: nat): (r: Option<nat>)
    requires i <= |src|
    ensures r.Some? ==> i <= r.value < |src| && src[r.value] == '"'
    ensures r.Some? ==> forall k :: i <= k < r.value ==> src[k] != '"'
    ensures r.None? ==> forall k :: i <= k < |src| ==> src[k] != '"'
    decreases |src| - i
  {
    if i == |src| then None
    else if src[i] == '"' then Some(i)
    else ClosingQuote(src, i + 1)
  }

  /** The text `lit` occurs in `src` at `pos`. */
  predicate StartsWithAt(src: string, pos: nat, lit: string)
    ensures StartsWithAt(src, pos, lit) && |lit| > 0 ==> pos + |lit| <= |src|
    decreases |lit|
  {
    |lit| == 0 || (pos < |src| && src[pos] == lit[0] && StartsWithAt(src, pos + 1, lit[1..]))
  }

  /** What the scanner does at one position. */
  datatype Step =
    | Ignore                                         // a character of `t_ignore`
    | NewlineRun(count: nat)                         // `t_newline`: no token, the line count grows
    | Emit(kind: Kind, value: Value, length: nat)    // a token of `length` characters
    | Illegal                                        // `t_error`: reported and skipped

  /** A token rule: one of the rules written as functions, or a rule written as a
      plain string, given by the literal text its regular expression matches. */
  datatype Rule =
    | LeftShiftRule | RightShiftRule | IdentifierRule | NumberRule | StringLiteralRule | NewlineRule
    | Literal(text: string, kind: Kind)

  /** The number of token rules. */
  const RuleCount: nat := 21

  /** The rules in the order they are tried: the function rules in the order they are
      defined, then the string rules longest regular expression first (`\+` and `<=`
      are two characters long, `-` and `<` one; equally long ones keep their order). */
  function RuleAt(i: nat): Rule
    requires i < RuleCount
  {
    match i
    case 0 => LeftShiftRule
    case 1 => RightShiftRule
    case 2 => IdentifierRule
    case 3 => NumberRule
    case 4 => StringLiteralRule
    case 5 => NewlineRule
    case 6 => Literal("+", Plus)
    case 7 => Literal("*", Times)
    case 8 => Literal("(", LParen)
    case 9 => Literal(")", RParen)
    case 10 => Literal("{", LBrace)
    case 11 => Literal("}", RBrace)
    case 12 => Literal("<=", LessEqual)
    case 13 => Literal(">=", GreaterEqual)
    case 14 => Literal("-", Minus)
    case 15 => Literal("/", Divide)
    case 16 => Literal(";", Semicolon)
    case 17 => Literal("=", Equals)
    case 18 => Literal(",", Comma)
    case 19 => Literal("<", Less)
    case _ => Literal(">", Greater)
  }

  /** The length of the text a rule's regular expression matches at `pos`, or None
      when it does not match. */
  function MatchLength(src: string, pos: nat, rule: Rule): (r: Option<nat>)
    requires pos < |src|
    ensures r.Some? ==> 0 < r.value <= |src| - pos
    ensures r.Some? && rule.NumberRule? ==> IsDigit(src[pos]) && r.value == NumberEnd(src, pos) - pos
  {
    var c := src[pos];
    match rule
    case LeftShiftRule => if StartsWithAt(src, pos, "<<") then Some(2) else None
    case RightShiftRule => if StartsWithAt(src, pos, ">>") then Some(2) else None
    case IdentifierRule => if IsIdentStart(c) then Some(SpanEnd(src, pos, IdentChars) - pos) else None
    case NumberRule => if IsDigit(c) then Some(NumberEnd(src, pos) - pos) else None
    case StringLiteralRule =>
      if c == '"' && ClosingQuote(src, pos + 1).Some? then Some(ClosingQuote(src, pos + 1).value + 1 - pos)
      else None
    case NewlineRule => if c == '\n' then Some(SpanEnd(src, pos, Newlines) - pos) else None
    case Literal(text, _) => if |text| > 0 && StartsWithAt(src, pos, text) then Some(|text|) else None
  }

  /** The outcome of the search through the rule table. */
  datatype Match = NoMatch | Matched(rule: Rule, length: nat)

  /** The first rule, from index `i` of the table on, that matches at `pos`. */
  function FirstMatch(src: string, pos: nat, i: nat): (m: Match)
    requires pos < |src| && i <= RuleCount
    ensures m.Matched? ==> MatchLength(src, pos, m.rule) == Some(m.length)
    decreases RuleCount - i
  {
    if i == RuleCount then NoMatch
    else match MatchLength(src, pos, RuleAt(i))
      case Some(n) => Matched(RuleAt(i), n)
      case None => FirstMatch(src, pos, i + 1)
  }

  /** A NUMBER lexeme as `\d+(\.\d+)?` matches it: digits, or a decimal fraction. */
  predicate NumberLexeme(lexeme: string) {
    IsDigits(lexeme) || IsDecimalFraction(lexeme)
  }

  /** The action of the rule that matched `lexeme`: the token it makes, or the line
      count a newline run adds. */
  function Action(rule: Rule, lexeme: string): (st: Step)
    requires rule.NumberRule? ==> NumberLexeme(lexeme)
    ensures st.Emit? ==> st.length == |lexeme|
    ensures st.NewlineRun? ==> st.count == |lexeme|
  {
    match rule
    case LeftShiftRule => Emit(LeftShift, Lexeme(lexeme), |lexeme|)
    case RightShiftRule => Emit(RightShift, Lexeme(lexeme), |lexeme|)
    case IdentifierRule => Emit(Classify(lexeme), Lexeme(lexeme), |lexeme|)
    case NumberRule =>
      Emit(Number, NumberValue(if '.' in lexeme then FloatNum(lexeme) else IntNum(DigitsValue(lexeme))), |lexeme|)
    case StringLiteralRule => Emit(StringLiteral, Lexeme(lexeme), |lexeme|)
    case NewlineRule => NewlineRun(|lexeme|)
    case Literal(_, kind) => Emit(kind, Lexeme(lexeme), |lexeme|)
  }

  /** The step at `pos`: an ignored character is skipped before any rule is tried, and
      a character no rule matches goes to `t_error`. */
  function Next(src: string, pos: nat): (st: Step)
    requires pos < |src|
    ensures st.Emit? ==> 0 < st.length <= |src| - pos
    ensures st.NewlineRun? ==> 0 < st.count <= |src| - pos
  {
    if IsIgnored(src[pos]) then Ignore
    else match FirstMatch(src, pos, 0)
      case NoMatch => Illegal
      case Matched(rule, n) => Action(rule, src[pos..pos + n])
  }

  /** The scan from `pos` on, with `line` the current line number. */
  function LexFrom(src: string, pos: nat, line: nat): LexResult
    requires pos <= |src|
    decreases |src| - pos, 1
  {
    if pos == |src| then LexResult([], []) else LexAfter(src, pos, line, Next(src, pos))
  }

  /** The scan once the step at `pos` is known: the step's token or report, followed
      by the scan from where the step leaves off. */
  function LexAfter(src: string, pos: nat, line: nat, step: Step): LexResult
    requires pos < |src|
    requires step.Emit? ==> 0 < step.length <= |src| - pos
    requires step.NewlineRun? ==> 0 < step.count <= |src| - pos
    decreases |src| - pos, 0
  {
    match step
    case Ignore => LexFrom(src, pos + 1, line)
    case NewlineRun(n) => LexFrom(src, pos + n, line + n)
    case Emit(kind, value, length) =>
      var rest := LexFrom(src, pos + length, line);
      LexResult([Token(kind, value, line)] + rest.tokens, rest.diagnostics)
    case Illegal =>
      var rest := LexFrom(src, pos + 1, line);
      LexResult(rest.tokens, [IllegalCharacter(src[pos], line)] + rest.diagnostics)
  }

  /** The whole scan of a source text; a fresh lexer starts on line 1. */
  function Lex(src: string): LexResult {
    LexFrom(src, 0, 1)
  }
}
