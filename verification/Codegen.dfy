/** A direct, syntax-directed code generator for expression trees: the type, the code, the literals
    and the stack space an expression needs. The token-walking compiler is proved to agree with it. */
module Codegen {
  import opened Wrappers
  import opened DataTypes
  import opened Tokens
  import opened FnTable
  import opened Grammar
  import opened CompilerSpec

  /** `peak` is the most bytes the expression ever has on the stack above what was there before. */
  datatype Generated = Generated(t: DataType, code: seq<Instr>, lits: seq<Literal>, peak: nat, refersToOther: bool)

  datatype GeneratedArgs = GeneratedArgs(
    types: seq<DataType>, code: seq<Instr>, lits: seq<Literal>, peak: nat, refersToOther: bool)

  function Max(a: nat, b: nat): nat {
    if a < b then b else a
  }

  function AsArgs(g: Generated): GeneratedArgs {
    GeneratedArgs([g.t], g.code, g.lits, g.peak, g.refersToOther)
  }

  /** One argument and those after it. */
  function Combine(g: Generated, h: GeneratedArgs): GeneratedArgs {
    GeneratedArgs([g.t] + h.types, g.code + h.code, g.lits + h.lits, Max(g.peak, TypeSize(g.t) + h.peak),
                  g.refersToOther || h.refersToOther)
  }

  /** A conditional: each jump is relative and goes past the code it skips. */
  function GenConditional(gc: Generated, gt: Generated, gf: Generated): Generated {
    Generated(gt.t,
              gc.code + [If(|gt.code| + 2)] + gt.code + [Goto(|gf.code| + 1)] + gf.code,
              gc.lits + gt.lits + gf.lits,
              Max(gc.peak, Max(gt.peak, gf.peak)),
              gc.refersToOther || gt.refersToOther || gf.refersToOther)
  }

  /** `None` if the expression is not well typed. `litBase` literals come before it. */
  function Gen(env: Env, e: Expr, litBase: nat): (r: Option<Generated>)
    ensures r.Some? ==> TypeSize(r.value.t) <= r.value.peak
    decreases e, 0
  {
    match e
    case Atom(tok) => GenAtom(env, tok, litBase)
    case Unary(op, x) =>
      var g :- Gen(env, x, litBase);
      GenCall(env, op.text, AsArgs(g))
    case Binary(op, l, r) =>
      var g :- Gen(env, l, litBase);
      var h :- Gen(env, r, litBase + |g.lits|);
      GenCall(env, op.text, Combine(g, AsArgs(h)))
    case Call(name, args) =>
      var gs :- GenArgs(env, args, litBase);
      GenCall(env, name, gs)
    case IfThenElse(c, t, f) =>
      var gc :- Gen(env, c, litBase);
      var gt :- Gen(env, t, litBase + |gc.lits|);
      var gf :- Gen(env, f, litBase + |gc.lits| + |gt.lits|);
      if gc.t != TBool || gt.t != gf.t then None else Some(GenConditional(gc, gt, gf))
    case Paren(x) => Gen(env, x, litBase)
  }

  function GenAtom(env: Env, tok: Token, litBase: nat): (r: Option<Generated>)
    ensures r.Some? ==> TypeSize(r.value.t) <= r.value.peak
  {
    match tok.kind
    case StringLiteral | IntLiteral | UintLiteral | DoubleLiteral =>
      var t := LiteralType(tok.kind).value;
      Some(Generated(t, [PushLiteral(t, litBase)], [Literal(t, tok.text)], TypeSize(t), false))
    case BoolTrue | BoolFalse => Some(Generated(TBool, [PushBool(tok.kind == BoolTrue)], [], TypeSize(TBool), false))
    case Variable =>
      var v :- ResolveVariable(env, tok.text);
      Some(Generated(VariableType(v), [VariableInstr(v)], [], TypeSize(VariableType(v)), !v.isThis))
    case _ => None
  }

  function GenCall(env: Env, name: string, gs: GeneratedArgs): (r: Option<Generated>)
    ensures r.Some? ==> TypeSize(r.value.t) <= r.value.peak
  {
    var id :- Find(env.table, name, gs.types, |gs.types|);
    var ret := env.table[id].returnType;
    Some(Generated(ret, gs.code + [CallFn(id)], gs.lits, Max(gs.peak, TypeSize(ret)), gs.refersToOther))
  }

  function GenArgs(env: Env, args: seq<Expr>, litBase: nat): (r: Option<GeneratedArgs>)
    ensures r.Some? ==> |r.value.types| == |args|
    decreases args, 1
  {
    if args == [] then Some(GeneratedArgs([], [], [], 0, false))
    else
      var g :- Gen(env, args[0], litBase);
      var gs :- GenArgs(env, args[1..], litBase + |g.lits|);
      Some(Combine(g, gs))
  }

  /** The limits the compiler checks: stack bytes, instructions and literal storage. */
  predicate Fits(u: CompileUnit, peak: nat, code: seq<Instr>, lits: seq<Literal>) {
    && Bytes(u.sim) + peak < MAX_STACK_BYTE_SIZE
    && |u.code| + |code| + 1 <= MAX_NUMBER_FUNCTION_CALLS
    && LiteralsFit(u.lits + lits)
  }

  predicate LiteralsFit(lits: seq<Literal>) {
    |lits| <= MAX_NUMBER_LITERALS && StringBytes(lits) < MAX_LITERAL_STRING_COMBINED_SIZE
  }
}
