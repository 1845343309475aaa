/** The syntax-directed translation: each grammar action builds the Python text of
    its node from the texts of its children, and the conversion wraps the parse
    result. */
module Translation {
  import opened Wrappers
  import opened Strings
  import opened Decimal
  import opened Lexer
  import opened Syntax
  import opened Indentation

  /** `p_type`: the keyword's lexeme. */
  function TypeText(t: CppType): string {
    match t
    case IntType => "int"
    case FloatType => "float"
    case StringType => "string"
    case VoidType => "void"
  }

  /** The operator token's lexeme. */
  function OpText(op: BinOp): string {
    match op
    case Add => "+"
    case Sub => "-"
    case Mul => "*"
    case Div => "/"
    case Lt => "<"
    case Gt => ">"
    case Le => "<="
    case Ge => ">="
  }

  /** `str` of a NUMBER token's value; a float keeps its lexeme. */
  function NumberText(n: Number): string {
    match n
    case IntNum(v) => NatToDecimal(v)
    case FloatNum(lexeme) => lexeme
  }

  /** `p_expression`: an atom is `str` of its token value, a binary form is
      `l op r` with single spaces, and parentheses are kept. */
  function ExprText(e: Expr): (r: string)
    ensures WellFormedExpr(e) ==> |r| > 0
  {
    match e
    case Name(id) => id
    case Num(n) => NumberText(n)
    case Str(s) => s
    case Binary(l, op, rt) => ExprText(l) + " " + OpText(op) + " " + ExprText(rt)
    case Paren(inner) => "(" + ExprText(inner) + ")"
  }

  lemma ContentAppend(a: string, b: string)
    ensures HasContent(a) || HasContent(b) ==> HasContent(a + b)
  {
    if HasContent(a) {
      var i :| 0 <= i < |a| && !IsSpace(a[i]);
      assert (a + b)[i] == a[i];
    } else if HasContent(b) {
      var i :| 0 <= i < |b| && !IsSpace(b[i]);
      assert (a + b)[|a| + i] == b[i];
    }
  }

  lemma NoNewlineAppend(a: string, b: string)
    requires '\n' !in a && '\n' !in b
    ensures '\n' !in a + b
  {
    assert forall k :: 0 <= k < |a + b| ==> (a + b)[k] in a || (a + b)[k] in b;
  }

  lemma WordShape(w: string)
    requires IsWord(w)
    ensures HasContent(w) && '\n' !in w
  {
    assert !IsSpace(w[0]);
    assert forall k :: 0 <= k < |w| ==> IsIdentChar(w[k]);
  }

  lemma DigitsShape(s: string)
    requires IsDigits(s)
    ensures HasContent(s) && '\n' !in s
  {
    assert !IsSpace(s[0]);
  }

  /** A decimal fraction has content, no line break, and ends in a digit. */
  lemma FractionShape(s: string)
    requires IsDecimalFraction(s)
    ensures HasContent(s) && '\n' !in s && EndsInContent(s)
  {
    var p :| 0 < p < |s| - 1 && s[p] == '.' && IsDigits(s[..p]) && IsDigits(s[p + 1..]);
    forall k | 0 <= k < |s| ensures s[k] != '\n' {
      if k < p {
        assert s[k] == s[..p][k];
      } else if k > p {
        assert s[k] == s[p + 1..][k - p - 1];
      }
    }
    assert s[|s| - 1] == s[p + 1..][|s| - p - 2];
    assert !IsSpace(s[p]);
  }

  /** The text of a derived expression ends in a non-whitespace character: the last
      character of an identifier, a number, a closing quote or a closing parenthesis. */
  lemma {:induction false} ExprTextEnds(e: Expr)
    requires WellFormedExpr(e)
    ensures EndsInContent(ExprText(e))
  {
    match e
    case Name(id) =>
      if |id| > 1 {
        assert IsIdentChar(id[|id| - 1]);
      }
    case Num(n) =>
      if n.IntNum? {
        var r := NatToDecimal(n.value);
        assert IsDigit(r[|r| - 1]);
      } else {
        FractionShape(n.lexeme);
      }
    case Str(_) =>
    case Binary(l, op, rt) =>
      ExprTextEnds(rt);
      assert ExprText(e) == (ExprText(l) + " " + OpText(op) + " ") + ExprText(rt);
    case Paren(_) =>
  }

  /** The text of a derived expression has a non-whitespace character, and has no
      line break unless a string literal in it spans one. */
  lemma {:induction false} ExprTextShape(e: Expr)
    requires WellFormedExpr(e)
    ensures HasContent(ExprText(e))
    ensures SingleLineExpr(e) ==> '\n' !in ExprText(e)
  {
    match e
    case Name(id) => WordShape(id);
    case Num(n) =>
      if n.IntNum? {
        DigitsShape(NatToDecimal(n.value));
      } else {
        FractionShape(n.lexeme);
      }
    case Str(s) => assert !IsSpace(s[0]);
    case Binary(l, op, rt) =>
      ExprTextShape(l);
      ExprTextShape(rt);
      BinaryShape(l, op, rt);
    case Paren(inner) =>
      ExprTextShape(inner);
      ParenShape(inner);
  }

  lemma BinaryShape(l: Expr, op: BinOp, rt: Expr)
    requires HasContent(ExprText(l)) && HasContent(ExprText(rt))
    requires SingleLineExpr(Binary(l, op, rt)) ==> '\n' !in ExprText(l) && '\n' !in ExprText(rt)
    ensures HasContent(ExprText(Binary(l, op, rt)))
    ensures SingleLineExpr(Binary(l, op, rt)) ==> '\n' !in ExprText(Binary(l, op, rt))
  {
    var a := ExprText(l) + " " + OpText(op) + " ";
    ContentAppend(ExprText(l), " " + OpText(op) + " ");
    ContentAppend(a, ExprText(rt));
    assert ExprText(Binary(l, op, rt)) == a + ExprText(rt);
    if SingleLineExpr(Binary(l, op, rt)) {
      NoNewlineAppend(ExprText(l), " " + OpText(op) + " ");
      NoNewlineAppend(a, ExprText(rt));
    }
  }

  lemma ParenShape(inner: Expr)
    requires HasContent(ExprText(inner))
    requires SingleLineExpr(Paren(inner)) ==> '\n' !in ExprText(inner)
    ensures HasContent(ExprText(Paren(inner)))
    ensures SingleLineExpr(Paren(inner)) ==> '\n' !in ExprText(Paren(inner))
  {
    ContentAppend("(", ExprText(inner));
    ContentAppend("(" + ExprText(inner), ")");
    if SingleLineExpr(Paren(inner)) {
      NoNewlineAppend("(", ExprText(inner));
      NoNewlineAppend("(" + ExprText(inner), ")");
    }
  }

  /** The tokens of an expression in source order, with each atom already rendered. */
  datatype Piece = Atom(text: string) | Operator(op: BinOp) | Open | Close

  function Fringe(e: Expr): seq<Piece> {
    match e
    case Name(id) => [Atom(id)]
    case Num(n) => [Atom(NumberText(n))]
    case Str(s) => [Atom(s)]
    case Binary(l, op, rt) => Fringe(l) + [Operator(op)] + Fringe(rt)
    case Paren(inner) => [Open] + Fringe(inner) + [Close]
  }

  /** A token's text: an atom as rendered, an operator with one space on each side. */
  function PieceText(p: Piece): string {
    match p
    case Atom(t) => t
    case Operator(op) => " " + OpText(op) + " "
    case Open => "("
    case Close => ")"
  }

  function PiecesText(ps: seq<Piece>): string
    decreases |ps|
  {
    if |ps| == 0 then "" else PieceText(ps[0]) + PiecesText(ps[1..])
  }

  lemma {:induction false} PiecesTextAppend(a: seq<Piece>, b: seq<Piece>)
    ensures PiecesText(a + b) == PiecesText(a) + PiecesText(b)
    decreases |a|
  {
    if |a| == 0 {
      assert a + b == b;
    } else {
      assert (a + b)[1..] == a[1..] + b;
      PiecesTextAppend(a[1..], b);
    }
  }

  /** The text of an expression is the text of its tokens in order: the tree shape
      adds nothing. */
  lemma {:induction false} ExprTextFringe(e: Expr)
    ensures ExprText(e) == PiecesText(Fringe(e))
  {
    match e
    case Name(_) =>
    case Num(_) =>
    case Str(_) =>
    case Binary(l, op, rt) =>
      ExprTextFringe(l);
      ExprTextFringe(rt);
      PiecesTextAround(Fringe(l), [Operator(op)], Fringe(rt));
      PiecesTextSingle(Operator(op));
    case Paren(inner) =>
      ExprTextFringe(inner);
      PiecesTextAround([Open], Fringe(inner), [Close]);
      PiecesTextSingle(Open);
      PiecesTextSingle(Close);
  }

  lemma PiecesTextSingle(p: Piece)
    ensures PiecesText([p]) == PieceText(p)
  {
    assert [p][1..] == [];
  }

  lemma PiecesTextAround(a: seq<Piece>, b: seq<Piece>, c: seq<Piece>)
    ensures PiecesText(a + b + c) == PiecesText(a) + PiecesText(b) + PiecesText(c)
  {
    PiecesTextAppend(a + b, c);
    PiecesTextAppend(a, b);
  }

  /** Two derivations of the same token sequence, such as the two ways to group
      `a - b - c` under the precedence-free grammar, have the same text. */
  lemma SameFringeSameText(e1: Expr, e2: Expr)
    requires Fringe(e1) == Fringe(e2)
    ensures ExprText(e1) == ExprText(e2)
  {
    ExprTextFringe(e1);
    ExprTextFringe(e2);
  }

  /** The texts of a sequence of expressions. */
  function ExprTexts(es: seq<Expr>): (r: seq<string>)
    ensures |r| == |es| && forall k :: 0 <= k < |es| ==> r[k] == ExprText(es[k])
  {
    seq(|es|, k requires 0 <= k < |es| => ExprText(es[k]))
  }

  // Declarations

  function InitText(init: Option<Expr>): string {
    match init
    case None => "None"
    case Some(e) => ExprText(e)
  }

  /** One line of `p_declaration`: the name, its initialiser or `None`, and a comment
      naming the C++ type. */
  function DeclaratorLine(ty: CppType, d: Declarator): string {
    d.name + " = " + InitText(d.init) + "  # " + TypeText(ty) + " in C++"
  }

  function DeclarationLines(d: Declaration): (r: seq<string>)
    ensures |r| == |d.declarators|
    ensures forall k :: 0 <= k < |r| ==> r[k] == DeclaratorLine(d.ty, d.declarators[k])
  {
    seq(|d.declarators|, k requires 0 <= k < |d.declarators| => DeclaratorLine(d.ty, d.declarators[k]))
  }

  /** The text of a declaration: its lines joined by newlines, and a final newline. */
  function DeclarationText(d: Declaration): (r: string)
    ensures |r| > 0 && r[|r| - 1] == '\n'
  {
    Join("\n", DeclarationLines(d)) + "\n"
  }

  /** `p_declaration`: the loop over the declarators that appends one line per
      declarator, then the join. */
  method DeclarationAction(d: Declaration) returns (text: string)
    ensures text == DeclarationText(d)
  {
    var decls: seq<string> := [];
    for k := 0 to |d.declarators|
      invariant |decls| == k
      invariant forall i :: 0 <= i < k ==> decls[i] == DeclaratorLine(d.ty, d.declarators[i])
    {
      var name := d.declarators[k].name;
      var value := d.declarators[k].init;
      if value.None? {
        decls := decls + [name + " = None  # " + TypeText(d.ty) + " in C++"];
      } else {
        decls := decls + [name + " = " + ExprText(value.value) + "  # " + TypeText(d.ty) + " in C++"];
      }
    }
    assert decls == DeclarationLines(d);
    text := Join("\n", decls) + "\n";
  }

  /** A declaration line holds no line break when no initialiser spans one. */
  lemma DeclaratorLineShape(ty: CppType, d: Declarator)
    requires WellFormedDeclarator(d)
    requires d.init.Some? ==> SingleLineExpr(d.init.value)
    ensures '\n' !in DeclaratorLine(ty, d)
  {
    WordShape(d.name);
    if d.init.Some? {
      ExprTextShape(d.init.value);
    }
    var a := d.name + " = ";
    NoNewlineAppend(d.name, " = ");
    NoNewlineAppend(a, InitText(d.init));
    NoNewlineAppend(a + InitText(d.init), "  # ");
    NoNewlineAppend(a + InitText(d.init) + "  # ", TypeText(ty));
    NoNewlineAppend(a + InitText(d.init) + "  # " + TypeText(ty), " in C++");
  }

  /** A declaration with n declarators is exactly n lines, in source order, each
      ended by a newline. */
  lemma DeclarationLineCount(d: Declaration)
    requires WellFormedDeclaration(d)
    requires forall k :: 0 <= k < |d.declarators| && d.declarators[k].init.Some? ==> SingleLineExpr(d.declarators[k].init.value)
    ensures Split(DeclarationText(d), '\n') == DeclarationLines(d) + [""]
  {
    var lines := DeclarationLines(d);
    forall k | 0 <= k < |lines| ensures '\n' !in lines[k] {
      DeclaratorLineShape(d.ty, d.declarators[k]);
    }
    SplitTerminated(lines);
  }

  // Output and input

  /** `cout_args`, left-recursive: the operands so far, a comma and a space, and the
      next operand. */
  function CoutArgsText(es: seq<Expr>): string
    decreases |es|
  {
    if |es| == 0 then ""
    else if |es| == 1 then ExprText(es[0])
    else CoutArgsText(es[..|es| - 1]) + ", " + ExprText(es[|es| - 1])
  }

  /** The operands of `cout` are printed in source order, separated by ", ". */
  lemma {:induction false} CoutArgsJoin(es: seq<Expr>)
    ensures CoutArgsText(es) == Join(", ", ExprTexts(es))
    decreases |es|
  {
    if |es| > 1 {
      var init := es[..|es| - 1];
      CoutArgsJoin(init);
      assert ExprTexts(es) == ExprTexts(init) + [ExprText(es[|es| - 1])];
      JoinSnoc(", ", ExprTexts(init), ExprText(es[|es| - 1]));
    }
  }

  /** The line that reads one `cin` target. */
  function ReadLine(name: string): string {
    name + " = input()"
  }

  function ReadLines(names: seq<string>): (r: seq<string>)
    ensures |r| == |names| && forall k :: 0 <= k < |names| ==> r[k] == ReadLine(names[k])
  {
    seq(|names|, k requires 0 <= k < |names| => ReadLine(names[k]))
  }

  /** `cin_args`, right-recursive: a read line for the first target, then the rest. */
  function CinText(names: seq<string>): (r: string)
    ensures |names| >= 1 ==> |r| > 0 && r[|r| - 1] == '\n'
    decreases |names|
  {
    if |names| == 0 then ""
    else if |names| == 1 then ReadLine(names[0]) + "\n"
    else ReadLine(names[0]) + "\n" + CinText(names[1..])
  }

  /** The `cin` text is the read lines, joined by newlines, with a final newline. */
  lemma {:induction false} CinJoin(names: seq<string>)
    requires |names| >= 1
    ensures CinText(names) == Join("\n", ReadLines(names)) + "\n"
    decreases |names|
  {
    if |names| > 1 {
      CinJoin(names[1..]);
      assert ReadLines(names)[1..] == ReadLines(names[1..]);
    }
  }

  lemma ReadLineShape(name: string)
    requires IsName(name)
    ensures '\n' !in ReadLine(name)
  {
    WordShape(name);
    NoNewlineAppend(name, " = input()");
  }

  lemma ReadLinesShape(names: seq<string>)
    requires forall k :: 0 <= k < |names| ==> IsName(names[k])
    ensures forall k :: 0 <= k < |names| ==> '\n' !in ReadLines(names)[k]
  {
    forall k | 0 <= k < |names| ensures '\n' !in ReadLines(names)[k] {
      ReadLineShape(names[k]);
    }
  }

  /** `cin >> x1 >> ... >> xn;` is exactly n lines `xi = input()`, in source order. */
  lemma CinLineCount(names: seq<string>)
    requires |names| >= 1 && forall k :: 0 <= k < |names| ==> IsName(names[k])
    ensures Split(CinText(names), '\n') == ReadLines(names) + [""]
  {
    var lines := ReadLines(names);
    CinJoin(names);
    ReadLinesShape(names);
    SplitTerminated(lines);
    assert CinText(names) == Join("\n", lines) + "\n";
  }

  // Parameters and arguments

  /** `parameters` and `arguments`: the item, a comma and a space, and the rest. */
  function ListText<T>(l: CommaList<T>, text: T -> string): string {
    match l
    case Empty => ""
    case Last(x) => text(x)
    case More(x, rest) => text(x) + ", " + ListText(rest, text)
  }

  function ItemTexts<T>(items: seq<T>, text: T -> string): (r: seq<string>)
    ensures |r| == |items| && forall k :: 0 <= k < |items| ==> r[k] == text(items[k])
  {
    seq(|items|, k requires 0 <= k < |items| => text(items[k]))
  }

  /** A comma list's text is its items joined by ", ", followed by one more ", "
      when the list ends in a comma. */
  lemma {:induction false} ListTextJoin<T>(l: CommaList<T>, text: T -> string)
    ensures ListText(l, text) == Join(", ", ItemTexts(Items(l), text)) + (if TrailingComma(l) then ", " else "")
  {
    match l
    case Empty =>
    case Last(x) =>
    case More(x, rest) =>
      ListTextJoin(rest, text);
      var ts := ItemTexts(Items(l), text);
      assert ts[1..] == ItemTexts(Items(rest), text);
      if rest.Empty? {
        assert ts == [text(x)];
      }
  }

  function ParamName(p: Param): string {
    p.name
  }

  /** The parameter list keeps the names and drops the types. */
  function ParamsText(ps: CommaList<Param>): string {
    ListText(ps, ParamName)
  }

  function ArgsText(args: CommaList<Expr>): string {
    ListText(args, ExprText)
  }

  // Statements

  const IncludeText: string := "# C++ iostream included\n"
  const UsingText: string := "# using namespace std; (ignored in Python)\n"
  const MainGuard: string := "if __name__ == \"__main__\":\n"

  /** The part both for-loop forms share: the `while` header, the body indented once
      more, the step indented, and an empty line. */
  function LoopText(cond: Expr, step: Expr, body: Block): string
    decreases body, 3
  {
    "while " + ExprText(cond) + ":\n" + Indent(BlockText(body)) + Indent(ExprText(step)) + "\n"
  }

  /** The text of each statement form. Every derived statement's text is non-empty,
      and ends in a newline except the bare `expression ;` form. */
  function StatementText(s: Statement): (r: string)
    ensures WellFormedStatement(s) ==> |r| > 0
    ensures WellFormedStatement(s) && !s.ExprStmt? ==> r[|r| - 1] == '\n'
    decreases s, 1
  {
    match s
    case IncludeIostream => IncludeText
    case UsingStd => UsingText
    case Decl(d) => DeclarationText(d)
    case Assignment(t, v) => t + " = " + ExprText(v) + "\n"
    case Cout(es) => "print(" + CoutArgsText(es) + ")\n"
    case Cin(names) => CinText(names)
    case If(c, t, e) =>
      if e.None? then "if " + ExprText(c) + ":\n" + BlockText(t)
      else "if " + ExprText(c) + ":\n" + BlockText(t) + "else:\n" + BlockText(e.value)
    case While(c, b) => "while " + ExprText(c) + ":\n" + BlockText(b)
    case ForExpr(i, c, st, b) => ExprText(i) + "\n" + LoopText(c, st, b)
    case ForDecl(d, c, st, b) => DeclarationText(d) + LoopText(c, st, b)
    case FunctionDef(_, n, ps, b) =>
      if n == "main" then MainGuard + BlockText(b)
      else "def " + n + "(" + ParamsText(ps) + "):\n" + BlockText(b)
    case Call(n, args) => n + "(" + ArgsText(args) + ")\n"
    case Return(v) => "return " + ExprText(v) + "\n"
    case ExprStmt(e) => ExprText(e)
  }

  /** `p_compound_statement` over the text of the statements inside the braces. */
  function BlockText(b: Block): string
    decreases b, 2
  {
    CompoundBlock(StatementsText(b.body))
  }

  /** `statements`, left-recursive: the statements so far, then the next one. */
  function StatementsText(ss: seq<Statement>): (r: string)
    ensures WellFormedStatements(ss) ==> |r| > 0
    decreases ss, 0
  {
    if |ss| == 0 then ""
    else StatementsText(ss[..|ss| - 1]) + StatementText(ss[|ss| - 1])
  }

  function StatementTexts(ss: seq<Statement>): (r: seq<string>)
    ensures |r| == |ss| && forall k :: 0 <= k < |ss| ==> r[k] == StatementText(ss[k])
  {
    seq(|ss|, k requires 0 <= k < |ss| => StatementText(ss[k]))
  }

  /** The program text is the statement texts concatenated in source order. */
  lemma {:induction false} ProgramIsConcat(ss: seq<Statement>)
    ensures StatementsText(ss) == Concat(StatementTexts(ss))
    decreases |ss|
  {
    if |ss| > 0 {
      var init := ss[..|ss| - 1];
      ProgramIsConcat(init);
      assert StatementTexts(ss) == StatementTexts(init) + [StatementText(ss[|ss| - 1])];
      ConcatAppend(StatementTexts(init), [StatementText(ss[|ss| - 1])]);
    }
  }

  /** A bare expression statement adds no newline, so the next statement's text
      continues its line: `x; y = 1;` becomes the single line `xy = 1`. */
  lemma ExpressionStatementRunsOn()
    ensures StatementsText([ExprStmt(Name("x")), Assignment("y", Num(IntNum(1)))]) == "xy = 1\n"
  {
    var ss := [ExprStmt(Name("x")), Assignment("y", Num(IntNum(1)))];
    assert ss[..1] == [ExprStmt(Name("x"))];
    assert [ExprStmt(Name("x"))][..0] == [];
    assert NatToDecimal(1) == "1";
  }

  /** `cout << e1 << ... << en;` prints the operands in order, separated by ", ". */
  lemma CoutStatementText(es: seq<Expr>)
    ensures StatementText(Statement.Cout(es)) == "print(" + Join(", ", ExprTexts(es)) + ")\n"
  {
    CoutArgsJoin(es);
  }

  /** A function named `main` becomes the `__main__` guard over its body, whatever
      its type and parameters; any other function becomes a `def` with the
      parameter names, types dropped. */
  lemma FunctionDefinitionText(ty: CppType, n: string, ps: CommaList<Param>, b: Block)
    ensures n == "main" ==> StatementText(FunctionDef(ty, n, ps, b)) == MainGuard + BlockText(b)
    ensures n != "main" ==>
      (StatementText(FunctionDef(ty, n, ps, b))
       == "def " + n + "(" + Join(", ", ItemTexts(Items(ps), ParamName)) + (if TrailingComma(ps) then ", " else "")
          + "):\n" + BlockText(b))
  {
    ListTextJoin(ps, ParamName);
  }

  /** A text ending in content and newlines, followed by a compound statement, still
      ends in content and newlines: the block either adds its own last line with
      content, or is a single newline. */
  lemma BlockAfter(h: string, body: string)
    requires EndsInContentLine(h)
    ensures EndsInContentLine(h + CompoundBlock(body))
  {
    var r := CompoundBlock(body);
    if |r| == 1 {
      assert r == Repeat('\n', 1);
      ContentLineNewlines(h, 1);
    } else {
      var x := r[..|r| - 1];
      assert r == x + "\n";
      ContentThenNewline(x);
      ContentLineAfter(h, r);
    }
  }

  lemma DeclarationEnds(d: Declaration)
    requires WellFormedDeclaration(d)
    ensures EndsInContentLine(DeclarationText(d))
  {
    var lines := DeclarationLines(d);
    var last := lines[|lines| - 1];
    assert last == DeclaratorLine(d.ty, d.declarators[|lines| - 1]);
    assert last[|last| - 1] == '+';
    JoinLastChar("\n", lines);
    ContentThenNewline(Join("\n", lines));
  }

  lemma CinEnds(names: seq<string>)
    requires |names| >= 1
    ensures EndsInContentLine(CinText(names))
  {
    CinJoin(names);
    var lines := ReadLines(names);
    var last := lines[|lines| - 1];
    assert last[|last| - 1] == ')';
    JoinLastChar("\n", lines);
    ContentThenNewline(Join("\n", lines));
  }

  /** A loop ends with the step line, which has content, and one more newline. */
  lemma LoopEnds(cond: Expr, step: Expr, body: Block)
    requires WellFormedExpr(step)
    ensures EndsInContentLine(LoopText(cond, step, body))
  {
    var code := ExprText(step);
    ExprTextEnds(step);
    ContentThenNewline(code);
    IndentEndsOnce(code);
    var t := LoopText(cond, step, body);
    var u := t[..|t| - 1];
    assert t == u + Repeat('\n', 1);
    ContentNewline(u);
    ContentLineNewlines(u, 1);
  }

  /** A header line ending in a colon, then a block. */
  lemma HeaderThenBlock(h: string, body: seq<Statement>)
    requires |h| >= 2 && h[|h| - 2] == ':' && h[|h| - 1] == '\n'
    ensures EndsInContentLine(h + CompoundBlock(StatementsText(body)))
  {
    ContentNewline(h);
    BlockAfter(h, StatementsText(body));
  }

  lemma ForEnds(head: string, cond: Expr, step: Expr, body: Block)
    requires WellFormedExpr(step)
    ensures EndsInContentLine(head + LoopText(cond, step, body))
  {
    LoopEnds(cond, step, body);
    ContentLineAfter(head, LoopText(cond, step, body));
  }

  lemma CompoundEnds(s: Statement)
    requires (s.If? || s.While? || s.FunctionDef?) && WellFormedStatement(s)
    ensures EndsInContentLine(StatementText(s))
  {
    match s
    case If(c, t, e) =>
      HeaderThenBlock("if " + ExprText(c) + ":\n", t.body);
      if e.Some? {
        var h := "if " + ExprText(c) + ":\n" + BlockText(t) + "else:\n";
        HeaderThenBlock(h, e.value.body);
      }
    case While(c, b) => HeaderThenBlock("while " + ExprText(c) + ":\n", b.body);
    case FunctionDef(_, n, ps, b) =>
      if n == "main" {
        HeaderThenBlock(MainGuard, b.body);
      } else {
        HeaderThenBlock("def " + n + "(" + ParamsText(ps) + "):\n", b.body);
      }
  }

  /** The text of every derived statement ends in a non-whitespace character followed
      by newlines only. */
  lemma StatementEnds(s: Statement)
    requires WellFormedStatement(s)
    ensures EndsInContentLine(StatementText(s))
  {
    match s
    case IncludeIostream => ContentNewline(IncludeText);
    case UsingStd => ContentNewline(UsingText);
    case Decl(d) => DeclarationEnds(d);
    case Assignment(t, v) =>
      ExprTextEnds(v);
      ContentNewline(StatementText(s));
    case Cout(es) => ContentNewline(StatementText(s));
    case Cin(names) => CinEnds(names);
    case If(_, _, _) => CompoundEnds(s);
    case While(_, _) => CompoundEnds(s);
    case ForExpr(i, c, st, b) => ForEnds(ExprText(i) + "\n", c, st, b);
    case ForDecl(d, c, st, b) => ForEnds(DeclarationText(d), c, st, b);
    case FunctionDef(_, _, _, _) => CompoundEnds(s);
    case Call(_, _) => ContentNewline(StatementText(s));
    case Return(v) =>
      ExprTextEnds(v);
      ContentNewline(StatementText(s));
    case ExprStmt(e) =>
      ExprTextEnds(e);
      ContentThenNewline(ExprText(e));
  }

  /** The text of every derived statement list is content followed by a run of
      newlines, the shape the block and loop lemmas below rely on. */
  lemma StatementsShape(ss: seq<Statement>)
    requires WellFormedStatements(ss)
    ensures var t := StatementsText(ss); var x := RStripChar(t, '\n');
      EndsInContent(x) && t == x + Repeat('\n', |t| - |x|)
  {
    StatementEnds(ss[|ss| - 1]);
    ContentLineAfter(StatementsText(ss[..|ss| - 1]), StatementText(ss[|ss| - 1]));
    RStripCharParts(StatementsText(ss), '\n');
  }

  /** The text of every derived block is `indent` of the text of its statements. */
  lemma BlockIsIndent(b: Block)
    requires WellFormedBlock(b)
    ensures BlockText(b) == Indent(StatementsText(b.body))
  {
    var t := StatementsText(b.body);
    StatementsShape(b.body);
    var x := RStripChar(t, '\n');
    var n := |t| - |x|;
    CompoundIsIndent(x, n);
    calc {
      BlockText(b);
      CompoundBlock(t);
      { assert t == x + Repeat('\n', n); }
      CompoundBlock(x + Repeat('\n', n));
      Indent(x + Repeat('\n', n));
      { assert t == x + Repeat('\n', n); }
      Indent(t);
    }
  }

  /** `p_compound_statement` on every derived block: output line k is the statements'
      line k with four spaces in front when it has content, and empty otherwise. */
  lemma BlockLines(b: Block)
    requires WellFormedBlock(b)
    ensures var ins := InputLines(StatementsText(b.body)); var outs := OutputLines(BlockText(b));
      && |outs| == |ins|
      && (forall k :: 0 <= k < |ins| && HasContent(ins[k]) ==> outs[k] == Level + ins[k])
      && (forall k :: 0 <= k < |ins| && !HasContent(ins[k]) ==> outs[k] == "")
  {
    BlockIsIndent(b);
    IndentedLines(StatementsText(b.body));
  }

  /** The body of a for loop is indented once more, so its lines with content carry
      eight spaces. */
  lemma BodyIndentedTwice(body: Block)
    requires WellFormedBlock(body)
    ensures Indent(BlockText(body)) == Join("\n", TwiceIndented(InputLines(StatementsText(body.body)))) + "\n"
  {
    var t := StatementsText(body.body);
    StatementsShape(body.body);
    var x := RStripChar(t, '\n');
    var n := |t| - |x|;
    CompoundIndentedAgain(x, n);
    calc {
      Indent(BlockText(body));
      Indent(CompoundBlock(t));
      { assert t == x + Repeat('\n', n); }
      Indent(CompoundBlock(x + Repeat('\n', n)));
      Join("\n", TwiceIndented(Split(x, '\n'))) + "\n";
      Join("\n", TwiceIndented(InputLines(t))) + "\n";
    }
  }

  lemma StepIndented(step: Expr)
    requires WellFormedExpr(step) && SingleLineExpr(step)
    ensures Indent(ExprText(step)) == Level + ExprText(step) + "\n"
  {
    ExprTextShape(step);
    IndentOneLine(ExprText(step));
  }

  /** A for loop: the `while` header, the body lines with two indentation levels, the
      step line with one, and an empty line. */
  lemma LoopShape(cond: Expr, step: Expr, body: Block)
    requires WellFormedExpr(step) && SingleLineExpr(step) && WellFormedBlock(body)
    ensures LoopText(cond, step, body)
      == "while " + ExprText(cond) + ":\n" + Join("\n", TwiceIndented(InputLines(StatementsText(body.body)))) + "\n"
         + Level + ExprText(step) + "\n" + "\n"
  {
    BodyIndentedTwice(body);
    StepIndented(step);
    LoopConcat("while " + ExprText(cond) + ":\n", Indent(BlockText(body)), Indent(ExprText(step)),
               Join("\n", TwiceIndented(InputLines(StatementsText(body.body)))), ExprText(step));
  }

  lemma LoopConcat(head: string, a: string, b: string, j: string, t: string)
    requires a == j + "\n" && b == Level + t + "\n"
    ensures head + a + b + "\n" == head + j + "\n" + Level + t + "\n" + "\n"
  {
  }

  // The conversion result

  const Fallback: string := "# Unable to convert C++ code."

  /** `result if result else "# Unable to convert C++ code."`: a parse that yields
      nothing, or the empty text, is replaced by the fallback comment. */
  function ConvertResult(result: Option<string>): (r: string)
    ensures r == Fallback <==> result.None? || result.value == "" || result.value == Fallback
    ensures result.Some? && result.value != "" ==> r == result.value
  {
    if result.Some? && result.value != "" then result.value else Fallback
  }

  /** The text of every derived program is non-empty, so a successful parse is
      never replaced by the fallback comment. */
  lemma ProgramNeverFallsBack(ss: seq<Statement>)
    requires WellFormedStatements(ss)
    ensures ConvertResult(Some(StatementsText(ss))) == StatementsText(ss)
  {
  }
}
