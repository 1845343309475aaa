/** The derivations the grammar of the C++ subset builds, one datatype per group of
    productions. The translation actions run over these trees; the LALR automaton
    that would produce them from the tokens is not part of this model. */
module Syntax {
  import opened Wrappers
  import opened Lexer

  /** `type : INT | FLOAT | STRING | VOID` */
  datatype CppType = IntType | FloatType | StringType | VoidType

  /** The operators of the binary `expression` productions. */
  datatype BinOp = Add | Sub | Mul | Div | Lt | Gt | Le | Ge

  /** `expression`: an identifier, a number or a string literal token, a binary
      form, or a parenthesised expression. */
  datatype Expr =
    | Name(id: string)
    | Num(n: Number)
    | Str(lexeme: string)
    | Binary(left: Expr, op: BinOp, right: Expr)
    | Paren(inner: Expr)

  /** `declarator : IDENTIFIER | IDENTIFIER EQUALS expression` */
  datatype Declarator = Declarator(name: string, init: Option<Expr>)

  /** `declaration : type declarator_list SEMICOLON`; the right-recursive
      `declarator_list` is the sequence of its declarators, in source order. */
  datatype Declaration = Declaration(ty: CppType, declarators: seq<Declarator>)

  /** The shape shared by `parameters` and `arguments`: empty, a single item, or an
      item, a comma and the rest. An item followed by a comma and an empty rest is
      derivable, so a list can end in a comma. */
  datatype CommaList<T> = Empty | Last(item: T) | More(item: T, rest: CommaList<T>)

  /** `type IDENTIFIER` in a parameter list. */
  datatype Param = Param(ty: CppType, name: string)

  /** `statement`, one alternative per statement form. `cout_args` and `cin_args`
      are the sequences of their operands, in source order. */
  datatype Statement =
    | IncludeIostream
    | UsingStd
    | Decl(decl: Declaration)
    | Assignment(target: string, value: Expr)
    | Cout(operands: seq<Expr>)
    | Cin(targets: seq<string>)
    | If(cond: Expr, thenBody: Block, elseBody: Option<Block>)
    | While(cond: Expr, body: Block)
    | ForExpr(init: Expr, cond: Expr, step: Expr, body: Block)
    | ForDecl(initDecl: Declaration, cond: Expr, step: Expr, body: Block)
    | FunctionDef(result: CppType, name: string, params: CommaList<Param>, body: Block)
    | Call(callee: string, args: CommaList<Expr>)
    | Return(value: Expr)
    | ExprStmt(expr: Expr)

  /** `compound_statement : LBRACE statements RBRACE` */
  datatype Block = Block(body: seq<Statement>)

  /** The items of a comma list, in order. */
  function Items<T>(l: CommaList<T>): seq<T> {
    match l
    case Empty => []
    case Last(x) => [x]
    case More(x, rest) => [x] + Items(rest)
  }

  /** The list ends in a comma followed by nothing. */
  predicate TrailingComma<T>(l: CommaList<T>) {
    match l
    case Empty => false
    case Last(_) => false
    case More(_, rest) => rest.Empty? || TrailingComma(rest)
  }

  /** An IDENTIFIER token's lexeme is a word. (That it is not a reserved word is
      settled by `Classify` in the lexer; no translation depends on it.) */
  predicate IsName(s: string) {
    IsWord(s)
  }

  /** A STRING_LITERAL token's lexeme: double quotes around characters that are not
      double quotes. */
  predicate IsStringLexeme(s: string) {
    |s| >= 2 && s[0] == '"' && s[|s| - 1] == '"' && '"' !in s[1..|s| - 1]
  }

  /** A NUMBER token's value: any int, or a float whose lexeme is digits, a point and
      digits, as `\d+(\.\d+)?` matches it. */
  predicate IsNumberValue(n: Number) {
    n.FloatNum? ==> IsDecimalFraction(n.lexeme)
  }

  /** The expression trees the grammar derives from tokens. */
  predicate WellFormedExpr(e: Expr) {
    match e
    case Name(id) => IsName(id)
    case Num(n) => IsNumberValue(n)
    case Str(s) => IsStringLexeme(s)
    case Binary(l, _, r) => WellFormedExpr(l) && WellFormedExpr(r)
    case Paren(inner) => WellFormedExpr(inner)
  }

  /** No string literal in the expression spans a line break. */
  predicate SingleLineExpr(e: Expr) {
    match e
    case Name(_) => true
    case Num(_) => true
    case Str(s) => '\n' !in s
    case Binary(l, _, r) => SingleLineExpr(l) && SingleLineExpr(r)
    case Paren(inner) => SingleLineExpr(inner)
  }

  predicate WellFormedDeclarator(d: Declarator) {
    IsName(d.name) && (d.init.Some? ==> WellFormedExpr(d.init.value))
  }

  /** A declaration has at least one declarator. */
  predicate WellFormedDeclaration(d: Declaration) {
    |d.declarators| >= 1 && forall k :: 0 <= k < |d.declarators| ==> WellFormedDeclarator(d.declarators[k])
  }

  predicate WellFormedList<T>(l: CommaList<T>, ok: T -> bool) {
    match l
    case Empty => true
    case Last(x) => ok(x)
    case More(x, rest) => ok(x) && WellFormedList(rest, ok)
  }

  /** The derivations of `statement`: the lists the grammar makes non-empty are
      non-empty, and every token in the tree is one the lexer produces. */
  predicate WellFormedStatement(s: Statement)
    decreases s, 1
  {
    match s
    case IncludeIostream => true
    case UsingStd => true
    case Decl(d) => WellFormedDeclaration(d)
    case Assignment(t, v) => IsName(t) && WellFormedExpr(v)
    case Cout(es) => |es| >= 1 && forall k :: 0 <= k < |es| ==> WellFormedExpr(es[k])
    case Cin(ts) => |ts| >= 1 && forall k :: 0 <= k < |ts| ==> IsName(ts[k])
    case If(c, t, e) =>
      WellFormedExpr(c) && WellFormedBlock(t) && (e.Some? ==> WellFormedBlock(e.value))
    case While(c, b) => WellFormedExpr(c) && WellFormedBlock(b)
    case ForExpr(i, c, st, b) =>
      WellFormedExpr(i) && WellFormedExpr(c) && WellFormedExpr(st) && WellFormedBlock(b)
    case ForDecl(d, c, st, b) =>
      WellFormedDeclaration(d) && WellFormedExpr(c) && WellFormedExpr(st) && WellFormedBlock(b)
    case FunctionDef(_, n, ps, b) =>
      IsName(n) && WellFormedList(ps, (p: Param) => IsName(p.name)) && WellFormedBlock(b)
    case Call(n, args) => IsName(n) && WellFormedList(args, WellFormedExpr)
    case Return(v) => WellFormedExpr(v)
    case ExprStmt(e) => WellFormedExpr(e)
  }

  predicate WellFormedBlock(b: Block)
    decreases b, 2
  {
    WellFormedStatements(b.body)
  }

  /** `statements` derives one or more statements. */
  predicate WellFormedStatements(ss: seq<Statement>)
    decreases ss, 0
  {
    |ss| >= 1 && forall k :: 0 <= k < |ss| ==> WellFormedStatement(ss[k])
  }
}
