/** The meaning of an expression: direct evaluation of the tree. Both operands of `and` and `or` are
    always evaluated; of a conditional only the chosen branch is. */
module Evaluation {
  import opened Wrappers
  import opened DataTypes
  import opened Tokens
  import opened FnTable
  import opened Grammar
  import opened CompilerSpec
  import opened Machine

  datatype Context = Context(env: Env, host: Host, thisRecord: Record, otherRecord: Record)

  /** A value and the calls made so far, or `None` if a record lacks a field that is needed. */
  type Outcome = Option<(Value, seq<Event>)>

  function Eval(ctx: Context, e: Expr, history: seq<Event>): Outcome
    decreases e, 0
  {
    match e
    case Atom(tok) =>
      var v :- EvalAtom(ctx, tok);
      Some((v, history))
    case Unary(op, x) =>
      var v :- Eval(ctx, x, history);
      Apply(ctx, op.text, [v.0], v.1)
    case Binary(op, l, r) =>
      var v :- Eval(ctx, l, history);
      var w :- Eval(ctx, r, v.1);
      Apply(ctx, op.text, [v.0, w.0], w.1)
    case Call(name, args) =>
      var vs :- EvalArgs(ctx, args, history);
      Apply(ctx, name, vs.0, vs.1)
    case IfThenElse(c, t, f) =>
      var v :- Eval(ctx, c, history);
      if !v.0.BoolV? then None
      else if v.0.b then Eval(ctx, t, v.1)
      else Eval(ctx, f, v.1)
    case Paren(x) => Eval(ctx, x, history)
  }

  function EvalArgs(ctx: Context, args: seq<Expr>, history: seq<Event>): Option<(seq<Value>, seq<Event>)>
    decreases args, 1
  {
    if args == [] then Some(([], history))
    else
      var v :- Eval(ctx, args[0], history);
      var vs :- EvalArgs(ctx, args[1..], v.1);
      Some(([v.0] + vs.0, vs.1))
  }

  function EvalAtom(ctx: Context, tok: Token): Option<Value> {
    match tok.kind
    case StringLiteral | IntLiteral | UintLiteral | DoubleLiteral =>
      Some(ctx.host.literal(LiteralType(tok.kind).value, tok.text))
    case BoolTrue | BoolFalse => Some(BoolV(tok.kind == BoolTrue))
    case Variable =>
      var v :- ResolveVariable(ctx.env, tok.text);
      var r := if v.isThis then ctx.thisRecord else ctx.otherRecord;
      if v.RowNumber? then Some(UintV(r.number))
      else if v.field < |r.fields| then Some(ctx.host.field(v.t, r.fields[v.field]))
      else None
    case _ => None
  }

  /** Apply the first overload that takes exactly these types. */
  function Apply(ctx: Context, name: string, args: seq<Value>, history: seq<Event>): Outcome {
    var id :- Find(ctx.env.table, name, TypesOf(args), |args|);
    Some((ctx.host.call(id, history, args), history + [Event(id, args)]))
  }
}
