# C++-subset to Python translator, modelled in Dafny

`transpiler.py` translates a small subset of C++ into Python source text in one pass.
It has three parts:

- A first-match lexer. It reads keywords, identifiers, numbers, string literals, operators and punctuation. It skips spaces, tabs and carriage returns, counts newlines, and skips each illegal character by one position.
- A set of syntax-directed translation actions, one per grammar production. Each action builds its Python text only from the texts of its children.
- A small indentation emitter, used for `{ … }` blocks and for the bodies of desugared `for` loops.

A wrapper turns an empty parse result into a fixed fallback comment.

The model has these modules:

- `Strings` models the Python string operations the actions use: `str.split`, `str.join`, `str.rstrip()`, `str.rstrip('\n')` and `str.strip()` as an emptiness test, with Python's whitespace set.
- `Decimal` models `int(...)` of a digit run and `str(...)` of the resulting integer.
- `Lexer` models the reserved-word table and the rule table in the order the lexer tries it. Function rules come first, in definition order (`<<`, `>>`, identifier, number, string literal, newline). String rules follow, longest regular expression first. `Next` is one scanning step; `LexFrom` and `Lex` give the token and diagnostic sequences of a whole input.
- `Scanner` models the scanning loop as a method over a position and a line counter, proved equal to `Lex`.
- `LexerFacts` holds what the lexer promises: keyword classification, the two-character operators, illegal characters, number and string tokens, line numbers, and the `#include <iostream>` line.
- `Syntax` holds one datatype per group of productions (expressions, declarations, parameter and argument lists, statements, blocks). It also says which derivations the grammar can build.
- `Indentation` models `indent` and the body of `p_compound_statement`.
- `Translation` holds the `p_*` actions as functions over derivations, the declaration loop as a method, the conversion fallback, and the properties of the produced text.

## Model

| member | source | states |
|---|---|---|
| Lexer.KeywordExactly | transpiler.py:42-64 | an identifier lexeme is classified as keyword `k` exactly when it equals `k`'s spelling in the reserved table, in both directions |
| Lexer.IdentifierExactly | transpiler.py:42-64 | a lexeme is an IDENTIFIER exactly when it equals no reserved word |
| Lexer.ClassifyExamples | transpiler.py:42-64 | the match is case-sensitive and over the whole lexeme: `intx` and `Int` are identifiers, `int` is INT |
| Lexer.SpellingReserved | transpiler.py:42-59 | every keyword kind's spelling is a key of the reserved table that maps back to that kind |
| Lexer.ReservedSpelling | transpiler.py:42-59 | every key of the reserved table maps to a keyword kind whose spelling is that key |
| Lexer.SpanEnd | transpiler.py:62 | a character-class run ends at the first character outside the class, so it is the longest run |
| Lexer.NumberEnd | transpiler.py:67 | the `\d+(\.\d+)?` match: a digit run or digits, a point and digits; it is followed by no further digit, and a digit run is returned only when no point followed by a digit comes after it, so the fraction is taken exactly when it is there |
| Lexer.ClosingQuote | transpiler.py:72 | finds the first double quote at or after a position, or reports that there is none |
| Lexer.MatchLength | transpiler.py:18-79 | a rule that matches consumes at least one character and no more than remain; a NUMBER match starts at a digit and ends where the number ends |
| Lexer.FirstMatch | transpiler.py:18-79 | the rule reported is one that matches, with the length it matches |
| Lexer.IsIgnored | transpiler.py:76 | defines `t_ignore`: space, tab and carriage return |
| Lexer.Classify | transpiler.py:63 | defines the kind of an identifier lexeme: its entry in the reserved table, else IDENTIFIER; its properties are `KeywordExactly` and `IdentifierExactly` |
| Lexer.RuleAt | transpiler.py:18-79 | defines the order rules are tried in: `<<`, `>>`, identifier, number, string literal, newline, then the string rules longest regular expression first |
| Lexer.LexFrom | transpiler.py:76-84 | defines the scan from a position and line: nothing at the end of the input, otherwise the step at the position followed by the rest |
| Lexer.LexAfter | transpiler.py:76-84 | defines the scan after one step: an ignored character is dropped, a newline run adds its length to the line, a token is put in front of the rest, an illegal character adds a diagnostic |
| Lexer.Lex | transpiler.py:76-84 | defines the scan of a whole input, starting at position 0 on line 1 |
| Lexer.Action | transpiler.py:34-80 | the token built from a lexeme has that lexeme's length; a newline run advances by its length |
| Lexer.Next | transpiler.py:18-84 | each step that emits a token or consumes newlines advances by at least one character and stays inside the input |
| Scanner.Effect | transpiler.py:78-84 | every scanning step moves the position forward |
| Scanner.LexAfterEffect | transpiler.py:78-84 | the scan after a step is that step's tokens and diagnostics followed by the scan from the new position and line |
| Scanner.ScanStep | transpiler.py:78-84 | one step of the scanning loop advances and splits the remaining scan into its output and the rest |
| Scanner.Tokenize | transpiler.py:78-84 | the scanning loop over the whole input returns exactly the tokens and diagnostics of `Lex` |
| LexerFacts.MatchNeedsStart | transpiler.py:18-79 | a rule matches only at a character it can start with |
| LexerFacts.FirstMatchAllFail | transpiler.py:18-79 | when every remaining rule fails, the search finds no match |
| LexerFacts.FirstMatchNone | transpiler.py:18-79 | a search that finds no match means every remaining rule fails |
| LexerFacts.SkipRules | transpiler.py:18-79 | rules that cannot start with the current character are passed over |
| LexerFacts.FirstMatchIsFirst | transpiler.py:18-79 | the rule reported is the first that matches: it sits at some index of the table, and every rule before that index fails |
| LexerFacts.PunctuationMatches | transpiler.py:18-28 | each one-character operator and punctuation character is matched by its own rule, one character long |
| LexerFacts.PunctuationToken | transpiler.py:18-28 | each of `+ - * / ( ) { } ; = ,` is one token of its own kind, with the character as its value, and the scan advances by one |
| LexerFacts.NoRuleMatchesStartsNone | transpiler.py:18-84 | if no rule matches, the character starts no rule (a quote has no closing quote) |
| LexerFacts.StartsNoneNoRuleMatches | transpiler.py:18-84 | if the character starts no rule, no rule matches |
| LexerFacts.IllegalExactly | transpiler.py:76-84 | a step is an illegal character exactly when the character is not ignored and starts no rule |
| LexerFacts.IllegalSkipsOne | transpiler.py:82-84 | an illegal character is skipped by exactly one position; the scan goes on and records one diagnostic with the character and line |
| LexerFacts.LeftShiftToken | transpiler.py:34-36 | `<<` is one LEFTSHIFT token of length 2 |
| LexerFacts.RightShiftToken | transpiler.py:38-40 | `>>` is one RIGHTSHIFT token of length 2 |
| LexerFacts.LessEqualToken | transpiler.py:31 | `<=` is one LESSEQUAL token, not LESS then EQUALS |
| LexerFacts.GreaterEqualToken | transpiler.py:32 | `>=` is one GREATEREQUAL token, not GREATER then EQUALS |
| LexerFacts.TwoCharacterOperators | transpiler.py:29-40 | each of `<<`, `>>`, `<=`, `>=` lexes as a single token of its own kind |
| LexerFacts.LessToken | transpiler.py:29 | a `<` followed by neither `<` nor `=` is a single LESS token |
| LexerFacts.GreaterToken | transpiler.py:30 | a `>` followed by neither `>` nor `=` is a single GREATER token |
| LexerFacts.WordMatch | transpiler.py:61-62 | at an identifier-start character the identifier rule is the first that matches, and it takes the longest identifier run |
| LexerFacts.WordToken | transpiler.py:61-64 | an identifier run is taken whole, stops before the next non-identifier character, and is classified against the reserved words |
| LexerFacts.WordStep | transpiler.py:61-64 | the step at an identifier-start character is the identifier action on the longest run |
| LexerFacts.NumberToken | transpiler.py:66-69 | a digit starts a NUMBER; its value is an int when the lexeme has no point, and otherwise a float whose lexeme is digits, a point and digits |
| LexerFacts.StringToken | transpiler.py:71-74 | a quote with a later quote gives a STRING_LITERAL up to the first closing quote, both quotes kept |
| LexerFacts.NewlineRunStep | transpiler.py:78-80 | a run of newlines is consumed whole and its length is the line increment |
| LexerFacts.LinesNondecreasing | transpiler.py:78-80 | token line numbers never decrease and never fall below the starting line |
| LexerFacts.IncludeDirectiveTokens | transpiler.py:18-84 | `#include <iostream>` lexes as INCLUDE LESS IOSTREAM GREATER, with one illegal-character diagnostic for `#` on line 1 |
| LexerFacts.EmitStep | transpiler.py:78-84 | an emitted token is followed by the scan from after its lexeme |
| Decimal.DigitsValue | transpiler.py:68 | defines `int(...)` of a digit run: the decimal value of its digits, most significant first |
| Decimal.NatToDecimal | transpiler.py:266 | `str` of an int is canonical, with a leading zero only for zero |
| Decimal.StripLeadingZeros | transpiler.py:68 | removing leading zeros leaves a canonical suffix, and everything removed is a zero |
| Decimal.DecimalRoundTrip | transpiler.py:68 | reading back the decimal text of a number gives that number |
| Decimal.CanonicalRoundTrip | transpiler.py:68 | rendering the value of a canonical digit string gives the same string |
| Decimal.StripLeadingZerosValue | transpiler.py:68 | leading zeros do not change a digit run's value |
| Decimal.IntLiteralRendering | transpiler.py:265-266 | an int literal is emitted as its digits without leading zeros |
| Decimal.LeadingZerosExample | transpiler.py:66-69 | the literal `007` is emitted as `7` |
| Strings.IsSpace | transpiler.py:210-211 | defines Python's whitespace characters, the ones `strip()` and `rstrip()` remove |
| Strings.HasContent | transpiler.py:281 | defines the truth of `line.strip()`: the line holds a non-whitespace character |
| Strings.Join | transpiler.py:281 | defines `sep.join(parts)`: the parts with the separator between neighbours |
| Strings.Split | transpiler.py:280 | `split` gives at least one part, and no part holds the separator |
| Strings.RStrip | transpiler.py:211 | `rstrip()` removes exactly the trailing whitespace, leaving a prefix |
| Strings.RStripChar | transpiler.py:280 | `rstrip('\n')` removes exactly the trailing newlines, leaving a prefix |
| Strings.JoinSplit | transpiler.py:280-281 | joining the parts of a split with the separator gives the original text |
| Strings.SplitJoin | transpiler.py:209-210 | splitting a join of separator-free parts gives the parts back |
| Indentation.IndentLine | transpiler.py:281 | defines one output line: four spaces and the line when it has content, and the empty string otherwise |
| Indentation.IndentLines | transpiler.py:281 | the line map indents or blanks each line in place, keeping the line count |
| Indentation.Indent | transpiler.py:279-281 | `indent` always ends in a newline |
| Indentation.CompoundBlock | transpiler.py:207-211 | a block always ends in exactly one newline, with no whitespace before it |
| Indentation.Dedent | transpiler.py:279-281 | dedenting removes one four-space level or leaves the line unchanged |
| Indentation.IndentedLines | transpiler.py:279-281 | output line k is input line k with four spaces in front when it has content, and empty otherwise |
| Indentation.IndentDedent | transpiler.py:279-281 | dedenting output line k gives input line k, with a whitespace-only line emptied |
| Indentation.IndentRoundTrip | transpiler.py:279-281 | without whitespace-only lines, dedenting the output gives the input with trailing newlines removed |
| Indentation.IndentEndsOnce | transpiler.py:279-281 | when the text before the trailing newlines ends in a non-whitespace character, `indent` ends in that character and exactly one newline |
| Indentation.IndentBlankLastLine | transpiler.py:279-281 | a whitespace-only line after the last line with content is emptied but keeps its newline: `indent("a\n \n")` is `"    a\n\n"`, two newlines where `indent("a\n")` gives one |
| Indentation.LevelContent | transpiler.py:281 | adding four spaces neither gives nor takes away content |
| Indentation.SplitIndented | transpiler.py:281 | the indented text splits back into the indented lines |
| Indentation.IndentLinesTwice | transpiler.py:281 | indenting the lines twice puts eight spaces before each line with content |
| Indentation.IndentTwice | transpiler.py:279-281 | `indent` is not idempotent: for text that ends in a non-whitespace character followed only by newlines, applying it twice puts eight spaces before every line with content |
| Indentation.IndentLineTwice | transpiler.py:279-281 | one line with content becomes four spaces plus the line, and eight after two applications |
| Indentation.IndentTrailingNewlines | transpiler.py:279-281 | the trailing newlines of the input only add empty lines to the joined output |
| Indentation.CompoundIsIndent | transpiler.py:207-281 | for text that ends in a non-whitespace character followed only by newlines, the block indentation and `indent` agree |
| Indentation.IndentOneLine | transpiler.py:279-281 | a single line with content becomes four spaces, the line and a newline |
| Indentation.CompoundIndentedAgain | transpiler.py:205-211 | indenting an already-indented block puts eight spaces before each of its lines with content |
| Translation.ExprText | transpiler.py:252-271 | the text of a derived expression is never empty |
| Translation.TypeText | transpiler.py:149-154 | defines `p_type`: the spelling of the type keyword |
| Translation.OpText | transpiler.py:252-271 | defines the spelling of each binary operator token, as placed between the operands |
| Translation.NumberText | transpiler.py:266 | defines a number's text: `str` of an int value, and the lexeme of a float |
| Translation.ExprTextShape | transpiler.py:252-271 | an expression's text has content, and has no line break when no literal in it spans one |
| Translation.ExprTextEnds | transpiler.py:252-271 | an expression's text ends in a non-whitespace character |
| Translation.ExprTextFringe | transpiler.py:252-271 | an expression's text is the text of its left-to-right token fringe, with single spaces around binary operators and parentheses kept |
| Translation.SameFringeSameText | transpiler.py:252-271 | two derivations of the same token sequence have the same text, so the grammar's ambiguous association is not observable |
| Translation.DeclarationLines | transpiler.py:123-147 | a declaration has one line per declarator, in source order, each line being `name = value  # type in C++` or `name = None  # type in C++` |
| Translation.DeclarationText | transpiler.py:123-131 | a declaration's text ends in a newline |
| Translation.DeclarationAction | transpiler.py:123-131 | the loop that appends one line per declarator returns the declaration's text |
| Translation.InitText | transpiler.py:127-130 | defines the value part of a declarator line: `None` without an initialiser, else the initialiser's text |
| Translation.DeclaratorLine | transpiler.py:127-130 | defines one declarator's line: `name = value  # type in C++`, with `None` when there is no initialiser |
| Translation.DeclaratorLineShape | transpiler.py:127-130 | a declarator line holds no line break when its initialiser has none |
| Translation.DeclarationLineCount | transpiler.py:123-147 | a declaration with n declarators yields exactly its n lines, in order, followed by a final newline |
| Translation.CoutArgsText | transpiler.py:164-170 | defines the `cout_args` text: the first operand, then each further operand after `", "` |
| Translation.CoutArgsJoin | transpiler.py:164-170 | the `cout_args` text is the operand texts joined by `", "`, left to right |
| Translation.CoutStatementText | transpiler.py:160-170 | `cout << e1 << … << en;` gives `print(e1, …, en)` and a newline |
| Translation.ReadLine | transpiler.py:178 | defines one `cin` target's line, `name = input()`, before the newline that joins it to the next |
| Translation.CinText | transpiler.py:172-182 | a `cin` chain's text ends in a newline |
| Translation.CinJoin | transpiler.py:172-182 | a `cin` chain's text is its `x = input()` lines joined by newlines, with a final newline |
| Translation.ReadLineShape | transpiler.py:178 | an input line holds no line break |
| Translation.ReadLinesShape | transpiler.py:178-182 | none of a chain's input lines holds a line break |
| Translation.CinLineCount | transpiler.py:172-182 | `cin >> x1 >> … >> xn;` gives exactly n lines, in source order |
| Translation.ListText | transpiler.py:220-246 | defines a comma list's text: the items' texts separated by `", "`, with a trailing `", "` for a trailing comma |
| Translation.ParamsText | transpiler.py:220-230 | defines a parameter list's text: the list text of the parameter names |
| Translation.ArgsText | transpiler.py:236-246 | defines an argument list's text: the list text of the argument expressions |
| Translation.ListTextJoin | transpiler.py:220-246 | a parameter or argument list's text is its item texts joined by `", "`, plus `", "` when the list ends in a comma |
| Translation.StatementText | transpiler.py:99-250 | every derived statement's text is non-empty, and ends in a newline unless it is the bare `expression ;` form |
| Translation.StatementsText | transpiler.py:91-97 | a derived statement sequence has a non-empty text |
| Translation.ProgramIsConcat | transpiler.py:87-97 | the program text is the concatenation of the statement texts in source order |
| Translation.ExpressionStatementRunsOn | transpiler.py:99-113 | the bare `expression ;` form adds no newline, so `x; y = 1;` gives `xy = 1` and a newline |
| Translation.FunctionDefinitionText | transpiler.py:213-230 | `main` gives the `__main__` guard and the body, with its parameters dropped; any other function gives `def name(params):` and the body |
| Translation.StatementEnds | transpiler.py:99-250 | every derived statement's text ends in a non-whitespace character followed only by newlines |
| Translation.StatementsShape | transpiler.py:91-97 | every derived statement list's text is a text ending in a non-whitespace character followed by a run of newlines |
| Translation.BlockText | transpiler.py:207-211 | defines a block's text: `p_compound_statement` over the text of its statements |
| Translation.BlockIsIndent | transpiler.py:207-211 | every derived block's text is `indent` of the text of its statements |
| Translation.BlockLines | transpiler.py:207-211 | in every derived block, output line k is the statements' line k with four spaces in front when it has content, and empty otherwise |
| Translation.LoopText | transpiler.py:196-205 | defines a desugared loop's text: `while cond:`, the body block indented again, the step indented, and a newline |
| Translation.BodyIndentedTwice | transpiler.py:196-211 | in every derived loop, the body is indented again, so its lines with content carry eight spaces |
| Translation.StepIndented | transpiler.py:205 | a loop step whose text has no line break becomes one line with four spaces in front |
| Translation.LoopShape | transpiler.py:196-205 | every desugared loop with a one-line step is `while cond:`, the twice-indented body lines, the four-space step line, and an extra newline |
| Translation.ConvertResult | transpiler.py:289 | the result is the fallback comment exactly when the parse gave nothing, an empty text or the fallback text itself; otherwise it is the parse result |
| Translation.ProgramNeverFallsBack | transpiler.py:289 | a derived program is never replaced by the fallback comment |

## Left out

- The LALR parser: table generation, the default shift/reduce resolution for the precedence-free expression grammar, and error recovery (transpiler.py:1-2, 273-277, 286-288). These belong to the parser library. Translation takes a derivation tree instead. `Translation.SameFringeSameText` shows that the choice of tree for an ambiguous operator chain does not change the output.
- The messages printed by `t_error` and `p_error` (transpiler.py:83, 275-277), which are console output. The lexer model records each illegal character and its line as a diagnostic instead.
- The exception-to-message mapping (transpiler.py:290-291). Its text comes from arbitrary Python exceptions.
- `lexpos` and other bookkeeping beyond the newline count. They only feed the messages.
- NumberText: a float literal is emitted as its own lexeme, not as Python's `str(float(...))` rendering, because that is floating-point formatting. An int literal is rendered exactly, through `Decimal`.
- IsName: it does not exclude reserved words. The lexer's `Classify` already makes that decision, and no translation depends on it.
- NumberToken and IntLiteralRendering: they do not model the 4300-digit limit of `int()` on a digit string (Python 3.11 and later, and the security releases of 3.7 to 3.10). Beyond it `t_NUMBER` raises, and the conversion returns the error text instead. The model gives an int token and its rendering for a digit run of any length.
- The `\d` class is taken to be the ASCII digits. Python's `re` also accepts other Unicode decimal digits.
- `app.py`, the web request and response shell. It is pure I/O.
- Assignment as a `for` step: the `expression` grammar has no assignment form, so the model has none either.
- IndentEndsOnce: it requires the last character before the trailing newlines to be non-whitespace. A whitespace-only trailing line gives one extra newline per such line: `indent("a\n \n \n")` is `"    a\n\n\n"`, as `Indentation.IndentBlankLastLine` shows for one line.
- IndentTwice: it requires the last character before the trailing newlines to be non-whitespace. Otherwise the second `indent` drops the empty line the first one left: `indent(indent("a\n \n"))` is `"        a\n"`, one newline fewer than the formula gives. Every block and loop body the grammar derives has the required shape, as `Translation.StatementsShape` shows.
- FirstMatch: its own contract says only that the reported rule matches. That every earlier rule fails is `LexerFacts.FirstMatchIsFirst`, a separate lemma, so that the many proofs that unfold `FirstMatch` stay small.
- StepIndented, DeclarationLineCount and LoopShape: the line-count statements require expressions without line breaks. A string literal in this grammar may span a newline, and then the line count changes.
