/** Properties of the token rules: which rule wins at a position, the two-character
    operators, the characters no rule accepts, and what a whole scan produces. */
module LexerFacts {
  import opened Wrappers
  import opened Decimal
  import opened Lexer
  import opened Scanner

  /** The characters a rule's match can start with. */
  predicate CanStart(rule: Rule, c: char) {
    match rule
    case LeftShiftRule => c == '<'
    case RightShiftRule => c == '>'
    case IdentifierRule => IsIdentStart(c)
    case NumberRule => IsDigit(c)
    case StringLiteralRule => c == '"'
    case NewlineRule => c == '\n'
    case Literal(text, _) => |text| > 0 && text[0] == c
  }

  lemma MatchNeedsStart(src: string, pos: nat, rule: Rule)
    requires pos < |src|
    requires MatchLength(src, pos, rule).Some?
    ensures CanStart(rule, src[pos])
  {
  }

  /** One step of the search through the table: a failing rule is passed over. */
  lemma FirstMatchPast(src: string, pos: nat, i: nat)
    requires pos < |src| && i < RuleCount && MatchLength(src, pos, RuleAt(i)).None?
    ensures FirstMatch(src, pos, i) == FirstMatch(src, pos, i + 1)
  {
  }

  /** One step of the search through the table: a matching rule decides the outcome. */
  lemma FirstMatchAt(src: string, pos: nat, i: nat)
    requires pos < |src| && i < RuleCount && MatchLength(src, pos, RuleAt(i)).Some?
    ensures FirstMatch(src, pos, i) == Matched(RuleAt(i), MatchLength(src, pos, RuleAt(i)).value)
  {
  }

  /** When every rule from `i` on fails, the search ends without a match. */
  lemma {:induction false} FirstMatchAllFail(src: string, pos: nat, i: nat)
    requires pos < |src| && i <= RuleCount
    requires forall k :: i <= k < RuleCount ==> MatchLength(src, pos, RuleAt(k)).None?
    ensures FirstMatch(src, pos, i) == NoMatch
    decreases RuleCount - i
  {
    if i < RuleCount {
      FirstMatchPast(src, pos, i);
      FirstMatchAllFail(src, pos, i + 1);
    }
  }

  /** The search reports the first rule that matches: the rule at some index `j`,
      every rule before `j` having failed. */
  lemma {:induction false} FirstMatchIsFirst(src: string, pos: nat, i: nat)
    requires pos < |src| && i <= RuleCount
    ensures var m := FirstMatch(src, pos, i);
      m.Matched? ==> exists j :: i <= j < RuleCount && RuleAt(j) == m.rule
                                 && forall k :: i <= k < j ==> MatchLength(src, pos, RuleAt(k)).None?
    decreases RuleCount - i
  {
    if i < RuleCount {
      if MatchLength(src, pos, RuleAt(i)).Some? {
        FirstMatchAt(src, pos, i);
        assert RuleAt(i) == FirstMatch(src, pos, i).rule;
      } else {
        FirstMatchPast(src, pos, i);
        FirstMatchIsFirst(src, pos, i + 1);
        var m := FirstMatch(src, pos, i + 1);
        if m.Matched? {
          var j :| i + 1 <= j < RuleCount && RuleAt(j) == m.rule
                   && forall k :: i + 1 <= k < j ==> MatchLength(src, pos, RuleAt(k)).None?;
          assert forall k :: i <= k < j ==> MatchLength(src, pos, RuleAt(k)).None?;
        }
      }
    }
  }

  /** When the search ends without a match, every rule from `i` on failed. */
  lemma {:induction false} FirstMatchNone(src: string, pos: nat, i: nat)
    requires pos < |src| && i <= RuleCount
    requires FirstMatch(src, pos, i) == NoMatch
    ensures forall k :: i <= k < RuleCount ==> MatchLength(src, pos, RuleAt(k)).None?
    decreases RuleCount - i
  {
    if i < RuleCount {
      if MatchLength(src, pos, RuleAt(i)).Some? {
        FirstMatchAt(src, pos, i);
      }
      FirstMatchPast(src, pos, i);
      FirstMatchNone(src, pos, i + 1);
    }
  }

  /** No rule from `i` to `j` can start with `c`. */
  predicate NoRuleStarts(c: char, i: nat, j: nat)
    requires i <= j <= RuleCount
    decreases j - i
  {
    i == j || (!CanStart(RuleAt(i), c) && NoRuleStarts(c, i + 1, j))
  }

  /** Rules that cannot start with the character at `pos` are passed over. */
  lemma {:induction false} SkipRules(src: string, pos: nat, i: nat, j: nat)
    requires pos < |src| && i <= j <= RuleCount
    requires NoRuleStarts(src[pos], i, j)
    ensures FirstMatch(src, pos, i) == FirstMatch(src, pos, j)
    decreases j - i
  {
    if i < j {
      if MatchLength(src, pos, RuleAt(i)).Some? {
        MatchNeedsStart(src, pos, RuleAt(i));
      }
      FirstMatchPast(src, pos, i);
      SkipRules(src, pos, i + 1, j);
    }
  }

  /** The characters that begin a match of a string rule. */
  predicate IsPunctuation(c: char) {
    c in "+-*/(){};=,<>"
  }

  /** The index of the one-character string rule for a punctuation character. */
  function PunctuationRule(c: char): (i: nat)
    requires IsPunctuation(c)
    ensures i < RuleCount && RuleAt(i).Literal? && RuleAt(i).text == [c]
  {
    match c
    case '+' => 6 case '*' => 7 case '(' => 8 case ')' => 9 case '{' => 10 case '}' => 11
    case '-' => 14 case '/' => 15 case ';' => 16 case '=' => 17 case ',' => 18 case '<' => 19
    case '>' => 20
  }

  /** Every rule of the table fails at `pos`. */
  predicate NoRuleMatches(src: string, pos: nat)
    requires pos < |src|
  {
    forall k :: 0 <= k < RuleCount ==> MatchLength(src, pos, RuleAt(k)).None?
  }

  /** The character at `pos` starts no rule: a `"` counts only when a later `"` closes it. */
  predicate StartsNoRule(src: string, pos: nat)
    requires pos < |src|
  {
    var c := src[pos];
    && !IsIdentStart(c) && !IsDigit(c) && c != '\n' && !IsPunctuation(c)
    && (c == '"' ==> forall k :: pos < k < |src| ==> src[k] != '"')
  }

  /** When every rule fails, the character starts none of them. */
  lemma NoRuleMatchesStartsNone(src: string, pos: nat)
    requires pos < |src| && NoRuleMatches(src, pos)
    ensures StartsNoRule(src, pos)
  {
    assert MatchLength(src, pos, RuleAt(2)).None? && MatchLength(src, pos, RuleAt(3)).None?;
    assert MatchLength(src, pos, RuleAt(4)).None? && MatchLength(src, pos, RuleAt(5)).None?;
    if IsPunctuation(src[pos]) {
      PunctuationMatches(src, pos);
      assert false;
    }
  }

  /** A punctuation character is matched by its one-character string rule. */
  lemma PunctuationMatches(src: string, pos: nat)
    requires pos < |src| && IsPunctuation(src[pos])
    ensures MatchLength(src, pos, RuleAt(PunctuationRule(src[pos]))) == Some(1)
  {
    OneCharacterAt(src, pos, src[pos]);
  }

  /** The token kind of each one-character string rule. */
  function PunctuationKind(c: char): Kind
    requires IsPunctuation(c)
  {
    match c
    case '+' => Plus case '-' => Minus case '*' => Times case '/' => Divide
    case '(' => LParen case ')' => RParen case '{' => LBrace case '}' => RBrace
    case ';' => Semicolon case '=' => Equals case ',' => Comma
    case '<' => Less case '>' => Greater
  }

  /** No rule but its own one-character rule can start with a punctuation character
      other than `<` and `>` (which also begin `<<`, `<=`, `>>` and `>=`). */
  lemma OnlyOwnRuleStarts(c: char, k: nat)
    requires IsPunctuation(c) && c != '<' && c != '>'
    requires k < RuleCount && CanStart(RuleAt(k), c)
    ensures k == PunctuationRule(c)
  {
  }

  lemma PunctuationRuleKind(c: char)
    requires IsPunctuation(c)
    ensures RuleAt(PunctuationRule(c)) == Literal([c], PunctuationKind(c))
  {
  }

  /** At a punctuation character other than `<` and `>` the first rule that matches
      is the character's own rule, one character long. */
  lemma PunctuationFirst(src: string, pos: nat)
    requires pos < |src| && IsPunctuation(src[pos]) && src[pos] != '<' && src[pos] != '>'
    ensures FirstMatch(src, pos, 0) == Matched(RuleAt(PunctuationRule(src[pos])), 1)
  {
    PunctuationMatches(src, pos);
    FirstMatchIsFirst(src, pos, 0);
    var m := FirstMatch(src, pos, 0);
    if m == NoMatch {
      FirstMatchNone(src, pos, 0);
      assert false;
    }
    var j :| 0 <= j < RuleCount && RuleAt(j) == m.rule
             && forall k :: 0 <= k < j ==> MatchLength(src, pos, RuleAt(k)).None?;
    MatchNeedsStart(src, pos, m.rule);
    OnlyOwnRuleStarts(src[pos], j);
  }

  /** Each of `+ - * / ( ) { } ; = ,` is a one-character token of its own kind. */
  lemma PunctuationToken(src: string, pos: nat)
    requires pos < |src| && IsPunctuation(src[pos]) && src[pos] != '<' && src[pos] != '>'
    ensures Next(src, pos) == Emit(PunctuationKind(src[pos]), Lexeme([src[pos]]), 1)
  {
    var c := src[pos];
    PunctuationFirst(src, pos);
    PunctuationRuleKind(c);
    OneCharacterAt(src, pos, c);
    assert !IsIgnored(c);
  }

  /** A character that starts no rule makes every rule fail. */
  lemma StartsNoneNoRuleMatches(src: string, pos: nat)
    requires pos < |src| && StartsNoRule(src, pos)
    ensures NoRuleMatches(src, pos)
  {
    forall k | 0 <= k < RuleCount ensures MatchLength(src, pos, RuleAt(k)).None? {
      if MatchLength(src, pos, RuleAt(k)).Some? {
        MatchNeedsStart(src, pos, RuleAt(k));
      }
    }
  }

  /** `t_error` is called exactly for a character that is not ignored and starts no
      rule, a `"` that no later `"` closes included. */
  lemma IllegalExactly(src: string, pos: nat)
    requires pos < |src|
    ensures Next(src, pos) == Illegal <==> !IsIgnored(src[pos]) && StartsNoRule(src, pos)
  {
    if !IsIgnored(src[pos]) {
      if FirstMatch(src, pos, 0) == NoMatch {
        FirstMatchNone(src, pos, 0);
        NoRuleMatchesStartsNone(src, pos);
      }
      if StartsNoRule(src, pos) {
        StartsNoneNoRuleMatches(src, pos);
        FirstMatchAllFail(src, pos, 0);
      }
    }
  }

  /** An illegal character is skipped by exactly one position: it is reported with
      the current line, and the scan goes on from the next character. */
  lemma IllegalSkipsOne(src: string, pos: nat, line: nat)
    requires pos < |src| && Next(src, pos) == Illegal
    ensures LexFrom(src, pos, line).tokens == LexFrom(src, pos + 1, line).tokens
    ensures LexFrom(src, pos, line).diagnostics
         == [IllegalCharacter(src[pos], line)] + LexFrom(src, pos + 1, line).diagnostics
  {
  }

  lemma LessSkips()
    ensures NoRuleStarts('<', 1, 12) && NoRuleStarts('<', 13, 19)
  {
  }

  lemma GreaterSkips()
    ensures NoRuleStarts('>', 0, 1) && NoRuleStarts('>', 2, 13) && NoRuleStarts('>', 14, 20)
  {
  }

  /** The kind of each two-character operator. */
  function OperatorKind(op: string): Kind
    requires op in ["<<", ">>", "<=", ">="]
  {
    if op == "<<" then LeftShift
    else if op == ">>" then RightShift
    else if op == "<=" then LessEqual
    else GreaterEqual
  }

  /** The two characters at `pos` are `op`. */
  lemma TwoCharactersAt(src: string, pos: nat, op: string)
    requires |op| == 2 && pos + 1 < |src| && src[pos] == op[0] && src[pos + 1] == op[1]
    ensures StartsWithAt(src, pos, op) && src[pos..pos + 2] == op
  {
    assert StartsWithAt(src, pos + 2, []);
    assert op[1..][1..] == [];
  }

  /** The character at `pos` is `c`. */
  lemma OneCharacterAt(src: string, pos: nat, c: char)
    requires pos < |src| && src[pos] == c
    ensures StartsWithAt(src, pos, [c]) && src[pos..pos + 1] == [c]
  {
    assert StartsWithAt(src, pos + 1, []);
    assert [c][1..] == [];
  }

  lemma LeftShiftToken(src: string, pos: nat)
    requires pos + 1 < |src| && src[pos] == '<' && src[pos + 1] == '<'
    ensures Next(src, pos) == Emit(LeftShift, Lexeme("<<"), 2)
  {
    TwoCharactersAt(src, pos, "<<");
    FirstMatchAt(src, pos, 0);
  }

  lemma RightShiftToken(src: string, pos: nat)
    requires pos + 1 < |src| && src[pos] == '>' && src[pos + 1] == '>'
    ensures Next(src, pos) == Emit(RightShift, Lexeme(">>"), 2)
  {
    TwoCharactersAt(src, pos, ">>");
    GreaterSkips();
    SkipRules(src, pos, 0, 1);
    FirstMatchAt(src, pos, 1);
  }

  lemma LessEqualToken(src: string, pos: nat)
    requires pos + 1 < |src| && src[pos] == '<' && src[pos + 1] == '='
    ensures Next(src, pos) == Emit(LessEqual, Lexeme("<="), 2)
  {
    TwoCharactersAt(src, pos, "<=");
    FirstMatchPast(src, pos, 0);
    LessSkips();
    SkipRules(src, pos, 1, 12);
    FirstMatchAt(src, pos, 12);
  }

  lemma GreaterEqualToken(src: string, pos: nat)
    requires pos + 1 < |src| && src[pos] == '>' && src[pos + 1] == '='
    ensures Next(src, pos) == Emit(GreaterEqual, Lexeme(">="), 2)
  {
    TwoCharactersAt(src, pos, ">=");
    GreaterSkips();
    SkipRules(src, pos, 0, 1);
    FirstMatchPast(src, pos, 1);
    SkipRules(src, pos, 2, 13);
    FirstMatchAt(src, pos, 13);
  }

  /** `<<`, `>>`, `<=` and `>=` are each one token, never two one-character tokens. */
  lemma TwoCharacterOperators(src: string, pos: nat, op: string)
    requires op in ["<<", ">>", "<=", ">="]
    requires pos + 1 < |src| && src[pos] == op[0] && src[pos + 1] == op[1]
    ensures Next(src, pos) == Emit(OperatorKind(op), Lexeme(op), 2)
  {
    if op == "<<" {
      LeftShiftToken(src, pos);
    } else if op == ">>" {
      RightShiftToken(src, pos);
    } else if op == "<=" {
      LessEqualToken(src, pos);
    } else {
      GreaterEqualToken(src, pos);
    }
  }

  /** A two-character operator does not occur where its second character is missing. */
  lemma PairAbsent(src: string, pos: nat, pair: string)
    requires pos < |src| && |pair| == 2
    requires pos + 1 == |src| || src[pos + 1] != pair[1]
    ensures !StartsWithAt(src, pos, pair)
  {
  }

  /** A `<` followed by neither `<` nor `=` is the one-character comparison. */
  lemma LessToken(src: string, pos: nat)
    requires pos < |src| && src[pos] == '<'
    requires pos + 1 == |src| || src[pos + 1] !in "<="
    ensures Next(src, pos) == Emit(Less, Lexeme("<"), 1)
  {
    OneCharacterAt(src, pos, '<');
    PairAbsent(src, pos, "<<");
    PairAbsent(src, pos, "<=");
    FirstMatchPast(src, pos, 0);
    LessSkips();
    SkipRules(src, pos, 1, 12);
    FirstMatchPast(src, pos, 12);
    SkipRules(src, pos, 13, 19);
    FirstMatchAt(src, pos, 19);
  }

  /** A `>` followed by neither `>` nor `=` is the one-character comparison. */
  lemma GreaterToken(src: string, pos: nat)
    requires pos < |src| && src[pos] == '>'
    requires pos + 1 == |src| || src[pos + 1] !in ">="
    ensures Next(src, pos) == Emit(Greater, Lexeme(">"), 1)
  {
    OneCharacterAt(src, pos, '>');
    PairAbsent(src, pos, ">>");
    PairAbsent(src, pos, ">=");
    GreaterSkips();
    SkipRules(src, pos, 0, 1);
    FirstMatchPast(src, pos, 1);
    SkipRules(src, pos, 2, 13);
    FirstMatchPast(src, pos, 13);
    SkipRules(src, pos, 14, 20);
    FirstMatchAt(src, pos, 20);
  }

  /** At an identifier-start character the identifier rule is the first that matches. */
  lemma WordMatch(src: string, pos: nat)
    requires pos < |src| && IsIdentStart(src[pos])
    ensures FirstMatch(src, pos, 0) == Matched(IdentifierRule, SpanEnd(src, pos, IdentChars) - pos)
  {
    FirstMatchPast(src, pos, 0);
    FirstMatchPast(src, pos, 1);
    FirstMatchAt(src, pos, 2);
  }

  /** An identifier-start character begins the longest run of identifier characters,
      classified as a whole against the reserved words. */
  lemma WordToken(src: string, pos: nat)
    requires pos < |src| && IsIdentStart(src[pos])
    ensures var e := SpanEnd(src, pos, IdentChars);
      && IsWord(src[pos..e])
      && (e == |src| || !IsIdentChar(src[e]))
      && Next(src, pos) == Emit(Classify(src[pos..e]), Lexeme(src[pos..e]), e - pos)
  {
    var e := SpanEnd(src, pos, IdentChars);
    WordStep(src, pos);
    assert Action(IdentifierRule, src[pos..e]) == Emit(Classify(src[pos..e]), Lexeme(src[pos..e]), e - pos);
    forall k | 0 < k < e - pos ensures IsIdentChar(src[pos..e][k]) {
      assert InClass(src[pos + k], IdentChars);
    }
  }

  lemma WordStep(src: string, pos: nat)
    requires pos < |src| && IsIdentStart(src[pos])
    ensures Next(src, pos) == Action(IdentifierRule, src[pos..SpanEnd(src, pos, IdentChars)])
  {
    var e := SpanEnd(src, pos, IdentChars);
    WordMatch(src, pos);
    assert !IsIgnored(src[pos]);
    assert FirstMatch(src, pos, 0) == Matched(IdentifierRule, e - pos);
  }

  /** A digit begins a NUMBER: an int when its lexeme has no point, else a float. */
  lemma NumberToken(src: string, pos: nat)
    requires pos < |src| && IsDigit(src[pos])
    ensures var e := NumberEnd(src, pos); var lexeme := src[pos..e];
      && Next(src, pos).Emit? && Next(src, pos).kind == Number && Next(src, pos).length == e - pos
      && ('.' !in lexeme ==> Next(src, pos).value == NumberValue(IntNum(DigitsValue(lexeme))))
      && ('.' in lexeme ==> Next(src, pos).value == NumberValue(FloatNum(lexeme)))
      && ('.' in lexeme ==> IsDecimalFraction(lexeme))
  {
    FirstMatchPast(src, pos, 0);
    FirstMatchPast(src, pos, 1);
    FirstMatchPast(src, pos, 2);
    FirstMatchAt(src, pos, 3);
  }

  /** A `"` that a later `"` closes begins a STRING_LITERAL whose value keeps both quotes. */
  lemma StringToken(src: string, pos: nat)
    requires pos < |src| && src[pos] == '"'
    requires exists k :: pos < k < |src| && src[k] == '"'
    ensures var q := ClosingQuote(src, pos + 1);
      && q.Some?
      && Next(src, pos) == Emit(StringLiteral, Lexeme(src[pos..q.value + 1]), q.value + 1 - pos)
      && src[pos..q.value + 1][0] == '"' && src[pos..q.value + 1][q.value - pos] == '"'
  {
    FirstMatchPast(src, pos, 0);
    FirstMatchPast(src, pos, 1);
    FirstMatchPast(src, pos, 2);
    FirstMatchPast(src, pos, 3);
    FirstMatchAt(src, pos, 4);
  }

  /** A run of newlines is consumed at once and advances the line number by its length. */
  lemma NewlineRunStep(src: string, pos: nat)
    requires pos < |src| && src[pos] == '\n'
    ensures var e := SpanEnd(src, pos, Newlines);
      && Next(src, pos) == NewlineRun(e - pos)
      && (forall k :: pos <= k < e ==> src[k] == '\n')
      && (e == |src| || src[e] != '\n')
  {
    FirstMatchPast(src, pos, 0);
    FirstMatchPast(src, pos, 1);
    FirstMatchPast(src, pos, 2);
    FirstMatchPast(src, pos, 3);
    FirstMatchPast(src, pos, 4);
    FirstMatchAt(src, pos, 5);
  }

  /** Every token line is at least `line`, and consecutive lines never decrease. */
  predicate LinesFrom(ts: seq<Token>, line: nat) {
    forall i :: 0 <= i < |ts| ==> line <= ts[i].line && (i + 1 < |ts| ==> ts[i].line <= ts[i + 1].line)
  }

  lemma LinesCons(t: Token, rest: seq<Token>, line: nat)
    requires t.line == line && LinesFrom(rest, line)
    ensures LinesFrom([t] + rest, line)
  {
    var ts := [t] + rest;
    forall i | 0 < i < |ts| ensures ts[i] == rest[i - 1] { }
  }

  /** One step keeps the line order, given that the rest of the scan keeps it. */
  lemma LinesAfter(src: string, pos: nat, line: nat, step: Step)
    requires pos < |src|
    requires step.Emit? ==> 0 < step.length <= |src| - pos
    requires step.NewlineRun? ==> 0 < step.count <= |src| - pos
    requires var e := Effect(src, pos, line, step); LinesFrom(LexFrom(src, e.pos, e.line).tokens, e.line)
    ensures LinesFrom(LexAfter(src, pos, line, step).tokens, line)
  {
    match step
    case Emit(kind, value, length) =>
      LinesCons(Token(kind, value, line), LexFrom(src, pos + length, line).tokens, line);
    case _ =>
  }

  /** The token lines are never below the starting line and never decrease. */
  lemma {:induction false} LinesNondecreasing(src: string, pos: nat, line: nat)
    requires pos <= |src|
    ensures LinesFrom(LexFrom(src, pos, line).tokens, line)
    decreases |src| - pos
  {
    if pos < |src| {
      var step := Next(src, pos);
      var e := Effect(src, pos, line, step);
      LinesNondecreasing(src, e.pos, e.line);
      LinesAfter(src, pos, line, step);
    }
  }

  function Kinds(ts: seq<Token>): (ks: seq<Kind>)
    ensures |ks| == |ts| && forall i :: 0 <= i < |ts| ==> ks[i] == ts[i].kind
  {
    seq(|ts|, i requires 0 <= i < |ts| => ts[i].kind)
  }

  /** The scan at a position where a token is made. */
  lemma EmitStep(src: string, pos: nat, line: nat)
    requires pos < |src| && Next(src, pos).Emit?
    ensures var st := Next(src, pos); var rest := LexFrom(src, pos + st.length, line);
      LexFrom(src, pos, line) == LexResult([Token(st.kind, st.value, line)] + rest.tokens, rest.diagnostics)
  {
  }

  /** The directive line every C++ program of the subset starts with. */
  const IncludeLine: string := "#include <iostream>"

  /** `#include <iostream>` reaches the parser as INCLUDE LESS IOSTREAM GREATER, the `#`
      being reported and skipped. */
  lemma IncludeDirectiveTokens()
    ensures Kinds(Lex(IncludeLine).tokens) == [Include, Less, Iostream, Greater]
    ensures Lex(IncludeLine).diagnostics == [IllegalCharacter('#', 1)]
  {
    IncludeFrom18();
    IncludeFrom10();
    IncludeFrom9();
    IncludeFrom8();
    IncludeFrom1();
    IncludeFrom0();
  }

  lemma IncludeFrom0()
    ensures LexFrom(IncludeLine, 0, 1)
         == LexResult(LexFrom(IncludeLine, 1, 1).tokens, [IllegalCharacter('#', 1)] + LexFrom(IncludeLine, 1, 1).diagnostics)
  {
    IllegalExactly(IncludeLine, 0);
    IllegalSkipsOne(IncludeLine, 0, 1);
  }

  lemma IncludeFrom1()
    ensures LexFrom(IncludeLine, 1, 1)
         == LexResult([Token(Include, Lexeme("include"), 1)] + LexFrom(IncludeLine, 8, 1).tokens, LexFrom(IncludeLine, 8, 1).diagnostics)
  {
    IncludeWordAt1();
    EmitStep(IncludeLine, 1, 1);
  }

  lemma IncludeWordAt1()
    ensures Next(IncludeLine, 1) == Emit(Include, Lexeme("include"), 7)
  {
    SpanEndAt(IncludeLine, 1, 8, IdentChars);
    assert IncludeLine[1..8] == "include";
    WordAt(IncludeLine, 1, 8, "include");
    ClassifyInclude();
  }

  lemma IncludeWordAt10()
    ensures Next(IncludeLine, 10) == Emit(Iostream, Lexeme("iostream"), 8)
  {
    SpanEndAt(IncludeLine, 10, 18, IdentChars);
    assert IncludeLine[10..18] == "iostream";
    WordAt(IncludeLine, 10, 18, "iostream");
    ClassifyInclude();
  }

  /** The end of a run known character by character. */
  lemma {:induction false} SpanEndAt(src: string, i: nat, j: nat, cls: CharClass)
    requires i <= j <= |src|
    requires forall k :: i <= k < j ==> InClass(src[k], cls)
    requires j == |src| || !InClass(src[j], cls)
    ensures SpanEnd(src, i, cls) == j
    decreases j - i
  {
    if i < j {
      SpanEndAt(src, i + 1, j, cls);
    }
  }

  lemma ClassifyInclude()
    ensures Classify("include") == Include && Classify("iostream") == Iostream
  {
  }

  /** The identifier token of a word whose extent is known. */
  lemma WordAt(src: string, pos: nat, e: nat, w: string)
    requires pos < |src| && IsIdentStart(src[pos])
    requires SpanEnd(src, pos, IdentChars) == e && src[pos..e] == w
    ensures Next(src, pos) == Emit(Classify(w), Lexeme(w), |w|)
  {
    WordToken(src, pos);
  }

  lemma IncludeFrom8()
    ensures LexFrom(IncludeLine, 8, 1) == LexFrom(IncludeLine, 9, 1)
  {
    assert Next(IncludeLine, 8) == Ignore;
  }

  lemma IncludeFrom9()
    ensures LexFrom(IncludeLine, 9, 1)
         == LexResult([Token(Less, Lexeme("<"), 1)] + LexFrom(IncludeLine, 10, 1).tokens, LexFrom(IncludeLine, 10, 1).diagnostics)
  {
    LessToken(IncludeLine, 9);
    EmitStep(IncludeLine, 9, 1);
  }

  lemma IncludeFrom10()
    ensures LexFrom(IncludeLine, 10, 1)
         == LexResult([Token(Iostream, Lexeme("iostream"), 1)] + LexFrom(IncludeLine, 18, 1).tokens, LexFrom(IncludeLine, 18, 1).diagnostics)
  {
    IncludeWordAt10();
    EmitStep(IncludeLine, 10, 1);
  }

  lemma IncludeFrom18()
    ensures LexFrom(IncludeLine, 18, 1) == LexResult([Token(Greater, Lexeme(">"), 1)], [])
  {
    GreaterToken(IncludeLine, 18);
    EmitStep(IncludeLine, 18, 1);
  }
}
