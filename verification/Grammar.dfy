/** The expression grammar, the infix tokens an expression is written with, and its post-order. */
module Grammar {
  import opened Wrappers
  import opened Tokens
  import opened FnTable
  import opened ShuntingYard

  datatype Expr =
    | Atom(tok: Token)
    | Unary(op: Token, operand: Expr)
    | Binary(op: Token, left: Expr, right: Expr)
    | Call(name: string, args: seq<Expr>)
    | IfThenElse(cond: Expr, thn: Expr, els: Expr)
    | Paren(inner: Expr)

  predicate IsReserved(name: string) {
    name == "if" || name == "then" || name == "else"
  }

  /** An expression written so that its tokens group the way the tree does: an operand that is itself
      a binary operation must bind tighter than the operator it stands under, or as tight when it is
      the left operand; anything else stands in parentheses. */
  ghost predicate WellWritten(table: Table, e: Expr)
    decreases e
  {
    match e
    case Atom(tok) => IsOperand(tok.kind)
    case Unary(op, x) => IsUnaryOperator(table, op) && !IsReserved(op.text) && WellWritten(table, x) && !x.Binary?
    case Binary(op, l, r) =>
      && IsBinaryOperator(table, op) && !IsReserved(op.text)
      && WellWritten(table, l) && (l.Binary? ==> Precedence(table, l.op) <= Precedence(table, op))
      && WellWritten(table, r) && (r.Binary? ==> Precedence(table, r.op) < Precedence(table, op))
    case Call(name, args) => !IsReserved(name) && forall a <- args :: WellWritten(table, a)
    case IfThenElse(c, t, f) => WellWritten(table, c) && WellWritten(table, t) && WellWritten(table, f)
    case Paren(x) => WellWritten(table, x)
  }

  /** Every operator and function is called by a name that no internal table entry answers to. */
  ghost predicate CallsOrdinaryOnly(table: Table, e: Expr)
    decreases e
  {
    match e
    case Atom(_) => true
    case Unary(op, x) => IsOrdinaryName(table, op.text) && CallsOrdinaryOnly(table, x)
    case Binary(op, l, r) =>
      IsOrdinaryName(table, op.text) && CallsOrdinaryOnly(table, l) && CallsOrdinaryOnly(table, r)
    case Call(name, args) => IsOrdinaryName(table, name) && forall a <- args :: CallsOrdinaryOnly(table, a)
    case IfThenElse(c, t, f) =>
      CallsOrdinaryOnly(table, c) && CallsOrdinaryOnly(table, t) && CallsOrdinaryOnly(table, f)
    case Paren(x) => CallsOrdinaryOnly(table, x)
  }

  /** The infix tokens of an expression. */
  function Infix(e: Expr): (r: seq<Token>)
    ensures r != []
    decreases e, 0
  {
    match e
    case Atom(tok) => [tok]
    case Unary(op, x) => [op] + Infix(x)
    case Binary(op, l, r) => Infix(l) + ([op] + Infix(r))
    case Call(name, args) => CallTokens(name, InfixArgs(args))
    case IfThenElse(c, t, f) =>
      CallTokens("if", Infix(c)) + (CallTokens("then", Infix(t)) + CallTokens("else", Infix(f)))
    case Paren(x) => [OPEN] + (Infix(x) + [CLOSE])
  }

  function CallTokens(name: string, inner: seq<Token>): seq<Token> {
    [FunctionToken(name)] + ([OPEN] + (inner + [CLOSE]))
  }

  function InfixArgs(args: seq<Expr>): seq<Token>
    decreases args, 1
  {
    if args == [] then []
    else if |args| == 1 then Infix(args[0])
    else Infix(args[0]) + ([COMMA] + InfixArgs(args[1..]))
  }

  /** The post-order of an expression whose first token stands at offset `base`. */
  function PostOrder(e: Expr, base: nat): (r: seq<ParsedToken>)
    ensures r != []
    decreases e, 0
  {
    match e
    case Atom(tok) => [Plain(tok)]
    case Unary(op, x) => PostOrder(x, base) + [ParsedToken(op, 1, -1, -1)]
    case Binary(op, l, r) =>
      var left := PostOrder(l, base);
      left + PostOrder(r, base + |left|) + [ParsedToken(op, 2, -1, -1)]
    case Call(name, args) => AfterArguments(name, |args|, PostOrderArgs(args, base), base)
    case IfThenElse(c, t, f) =>
      var cond := AfterArguments("if", 1, PostOrder(c, base), base);
      var thnAt := base + |cond|;
      var thn := AfterArguments("then", 1, PostOrder(t, thnAt), thnAt);
      var elsAt := thnAt + |thn|;
      cond + thn + AfterArguments("else", 1, PostOrder(f, elsAt), elsAt)
    case Paren(x) => PostOrder(x, base)
  }

  /** A call follows its arguments and knows how many there are and where they begin and end. */
  function AfterArguments(name: string, argCount: nat, inner: seq<ParsedToken>, base: nat): seq<ParsedToken> {
    inner + [ParsedToken(FunctionToken(name), argCount, base, base + |inner|)]
  }

  function PostOrderArgs(args: seq<Expr>, base: nat): (r: seq<ParsedToken>)
    ensures args != [] ==> r != []
    decreases args, 1
  {
    if args == [] then []
    else
      var first := PostOrder(args[0], base);
      first + PostOrderArgs(args[1..], base + |first|)
  }
}
