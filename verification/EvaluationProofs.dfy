/** Running generated code is evaluating the tree. */
module EvaluationProofs {
  import opened Wrappers
  import opened DataTypes
  import opened Tokens
  import opened FnTable
  import opened Grammar
  import opened CompilerSpec
  import opened Codegen
  import opened Machine
  import opened Evaluation
  import CompilerProofs

  lemma TypesConcat(a: seq<Value>, b: seq<Value>)
    ensures TypesOf(a + b) == TypesOf(a) + TypesOf(b)
    ensures StackBytes(a + b) == StackBytes(a) + Bytes(TypesOf(b))
  {
    assert TypesOf(a + b) == TypesOf(a) + TypesOf(b);
    BytesConcat(TypesOf(a), TypesOf(b));
  }

  lemma StackPush(a: seq<Value>, v: Value)
    ensures StackBytes(a + [v]) == StackBytes(a) + TypeSize(TypeOfValue(v))
  {
    assert TypesOf(a + [v]) == TypesOf(a) + [TypeOfValue(v)];
    BytesPush(TypesOf(a), TypeOfValue(v));
  }

  /** Everything that stays the same while one piece of code runs. */
  datatype Program = Program(ctx: Context, input: Input, code: seq<Instr>)

  ghost predicate GoodProgram(p: Program) {
    && GoodHost(p.ctx.env.table, p.ctx.host)
    && p.input.thisRecord == p.ctx.thisRecord && p.input.otherRecord == p.ctx.otherRecord
  }

  /** The code and the literals of a piece stand in the program where they should. */
  predicate Placed(p: Program, pc: nat, litBase: nat, code: seq<Instr>, lits: seq<Literal>) {
    && pc + |code| < |p.code| && p.code[pc..pc + |code|] == code
    && litBase + |lits| <= |p.input.lits| && p.input.lits[litBase..litBase + |lits|] == lits
  }

  function RunFrom(p: Program, pc: nat, stack: seq<Value>, history: seq<Event>): Option<VmState> {
    Run(p.ctx.env.table, p.ctx.host, p.input, p.code, VmState(pc, stack, history))
  }

  /** Code that leaves the outcome of an evaluation on the stack, and then what comes after it. */
  ghost predicate RunsTo(p: Program, pc: nat, next: nat, stack: seq<Value>, history: seq<Event>, outcome: Outcome,
      t: DataType) {
    match outcome
    case None => RunFrom(p, pc, stack, history).None?
    case Some((v, h)) =>
      TypeOfValue(v) == t && RunFrom(p, pc, stack, history) == RunFrom(p, next, stack + [v], h)
  }

  ghost predicate RunsToAll(p: Program, pc: nat, next: nat, stack: seq<Value>, history: seq<Event>,
                            outcome: Option<(seq<Value>, seq<Event>)>, types: seq<DataType>) {
    match outcome
    case None => RunFrom(p, pc, stack, history).None?
    case Some((vs, h)) =>
      TypesOf(vs) == types && RunFrom(p, pc, stack, history) == RunFrom(p, next, stack + vs, h)
  }

  lemma PlacedSplit(p: Program, pc: nat, litBase: nat, a: seq<Instr>, b: seq<Instr>, k: seq<Literal>, l: seq<Literal>)
    requires Placed(p, pc, litBase, a + b, k + l)
    ensures Placed(p, pc, litBase, a, k) && Placed(p, pc + |a|, litBase + |k|, b, l)
  {
    assert (a + b)[..|a|] == a && (a + b)[|a|..] == b;
    assert (k + l)[..|k|] == k && (k + l)[|k|..] == l;
  }

  lemma PlacedOne(p: Program, pc: nat, litBase: nat, instr: Instr, lits: seq<Literal>)
    requires Placed(p, pc, litBase, [instr], lits)
    ensures pc + 1 < |p.code| && p.code[pc] == instr
  {
    assert p.code[pc] == p.code[pc..pc + 1][0];
  }

  lemma StepOnce(p: Program, pc: nat, stack: seq<Value>, history: seq<Event>)
    requires pc < |p.code| && !p.code[pc].End?
    ensures RunFrom(p, pc, stack, history)
         == match Step(p.ctx.env.table, p.ctx.host, p.input, p.code[pc], VmState(pc, stack, history))
            case None => None
            case Some(next) =>
              if next.pc <= pc then None else RunFrom(p, next.pc, next.stack, next.history)
  {
    hide Step;
  }

  /** The one instruction of an atom pushes the atom's value, or finds no field to push. */
  lemma AtomStep(p: Program, tok: Token, litBase: nat, pc: nat, stack: seq<Value>, history: seq<Event>)
    requires GoodProgram(p)
    requires var g := GenAtom(p.ctx.env, tok, litBase); g.Some? && Placed(p, pc, litBase, g.value.code, g.value.lits)
    ensures var g := GenAtom(p.ctx.env, tok, litBase).value;
      var st := VmState(pc, stack, history);
      && |g.code| == 1 && !g.code[0].End?
      && (EvalAtom(p.ctx, tok).Some? ==> TypeOfValue(EvalAtom(p.ctx, tok).value) == g.t)
      && Step(p.ctx.env.table, p.ctx.host, p.input, g.code[0], st)
         == match EvalAtom(p.ctx, tok) case None => None case Some(v) => Push(st, stack, v)
  {
    hide ResolveVariable, Push;
    var g := GenAtom(p.ctx.env, tok, litBase).value;
    if g.lits != [] {
      assert p.input.lits[litBase] == p.input.lits[litBase..litBase + 1][0];
    }
  }

  lemma RunsAtom(p: Program, tok: Token, litBase: nat, pc: nat, stack: seq<Value>, history: seq<Event>)
    requires GoodProgram(p)
    requires var g := GenAtom(p.ctx.env, tok, litBase);
      g.Some? && Placed(p, pc, litBase, g.value.code, g.value.lits)
      && StackBytes(stack) + g.value.peak < MAX_STACK_BYTE_SIZE
    ensures var g := GenAtom(p.ctx.env, tok, litBase).value;
      RunsTo(p, pc, pc + |g.code|, stack, history, Eval(p.ctx, Atom(tok), history), g.t)
  {
    hide Run, GenAtom, EvalAtom, Step, GoodProgram, StackBytes;
    var g := GenAtom(p.ctx.env, tok, litBase).value;
    AtomStep(p, tok, litBase, pc, stack, history);
    assert g.code == [g.code[0]];
    PlacedOne(p, pc, litBase, g.code[0], g.lits);
    StepOnce(p, pc, stack, history);
    var v := EvalAtom(p.ctx, tok);
    if v.Some? {
      StackPush(stack, v.value);
    }
  }

  /** A call, its arguments on the stack. */
  lemma RunsCall(p: Program, name: string, vs: seq<Value>, litBase: nat, pc: nat, stack: seq<Value>,
      history: seq<Event>)
    requires GoodProgram(p) && IsOrdinaryName(p.ctx.env.table, name)
    requires var id := Find(p.ctx.env.table, name, TypesOf(vs), |vs|);
      && id.Some? && Placed(p, pc, litBase, [CallFn(id.value)], [])
      && StackBytes(stack) + TypeSize(p.ctx.env.table[id.value].returnType) < MAX_STACK_BYTE_SIZE
    ensures var id := Find(p.ctx.env.table, name, TypesOf(vs), |vs|).value;
      var r := Apply(p.ctx, name, vs, history);
      && r.Some? && TypeOfValue(r.value.0) == p.ctx.env.table[id].returnType
      && RunFrom(p, pc, stack + vs, history) == RunFrom(p, pc + 1, stack + [r.value.0], r.value.1)
  {
    hide Run, FindFrom;
    CompilerProofs.FoundArity(p.ctx.env.table, name, TypesOf(vs));
    var id := Find(p.ctx.env.table, name, TypesOf(vs), |vs|).value;
    PlacedOne(p, pc, litBase, CallFn(id), []);
    StepOnce(p, pc, stack + vs, history);
    assert (stack + vs)[|stack|..] == vs && (stack + vs)[..|stack|] == stack;
    StackPush(stack, p.ctx.host.call(id, history, vs));
  }

  /** Is `g` what the generator made of `e`, standing in the program at `pc`, with room to run? */
  ghost predicate Ready(p: Program, litBase: nat, pc: nat, stack: seq<Value>, code: seq<Instr>, lits: seq<Literal>,
      peak: nat) {
    GoodProgram(p) && Placed(p, pc, litBase, code, lits) && StackBytes(stack) + peak < MAX_STACK_BYTE_SIZE
  }

  /** The code of an expression computes exactly what evaluating the tree gives: the same value, the
      same calls with the same arguments in the same order, and an abort in exactly the same cases. */
  lemma {:induction false} RunsExpr(p: Program, e: Expr, litBase: nat, pc: nat, stack: seq<Value>, history: seq<Event>)
    requires CallsOrdinaryOnly(p.ctx.env.table, e)
    requires var g := Gen(p.ctx.env, e, litBase);
      g.Some? && Ready(p, litBase, pc, stack, g.value.code, g.value.lits, g.value.peak)
    ensures var g := Gen(p.ctx.env, e, litBase).value;
      RunsTo(p, pc, pc + |g.code|, stack, history, Eval(p.ctx, e, history), g.t)
    decreases e, 2
  {
    hide Run, FindFrom, RunsTo, Ready, GenCall, GenConditional, Eval, EvalArgs;
    match e
    case Atom(tok) =>
      RunsAtomExpr(p, e, litBase, pc, stack, history);
    case Unary(op, x) =>
      RunsUnary(p, e, litBase, pc, stack, history);
    case Binary(op, l, r) =>
      RunsBinary(p, e, litBase, pc, stack, history);
    case Call(name, args) =>
      RunsFunction(p, e, litBase, pc, stack, history);
    case IfThenElse(c, t, f) =>
      RunsIf(p, e, litBase, pc, stack, history);
    case Paren(x) =>
      RunsExpr(p, x, litBase, pc, stack, history);
      assert Eval(p.ctx, e, history) == Eval(p.ctx, x, history) by { EvalParen(p.ctx, e, history); }
  }

  lemma EvalParen(ctx: Context, e: Expr, history: seq<Event>)
    requires e.Paren?
    ensures Eval(ctx, e, history) == Eval(ctx, e.inner, history)
  {
  }

  lemma RunsAtomExpr(p: Program, e: Expr, litBase: nat, pc: nat, stack: seq<Value>, history: seq<Event>)
    requires e.Atom?
    requires var g := GenAtom(p.ctx.env, e.tok, litBase);
      g.Some? && Ready(p, litBase, pc, stack, g.value.code, g.value.lits, g.value.peak)
    ensures var g := GenAtom(p.ctx.env, e.tok, litBase).value;
      RunsTo(p, pc, pc + |g.code|, stack, history, Eval(p.ctx, e, history), g.t)
  {
    hide Run, Placed, StackBytes, GoodProgram, RunsTo, EvalAtom, GenAtom;
    RunsAtom(p, e.tok, litBase, pc, stack, history);
  }

  lemma {:induction false} RunsUnary(p: Program, e: Expr, litBase: nat, pc: nat, stack: seq<Value>, history: seq<Event>)
    requires e.Unary? && CallsOrdinaryOnly(p.ctx.env.table, e)
    requires var g := Gen(p.ctx.env, e, litBase);
      g.Some? && Ready(p, litBase, pc, stack, g.value.code, g.value.lits, g.value.peak)
    ensures var g := Gen(p.ctx.env, e, litBase).value;
      RunsTo(p, pc, pc + |g.code|, stack, history, Eval(p.ctx, e, history), g.t)
    decreases e, 1
  {
    hide Run, GoodProgram, Ready, Gen, Eval, RunsTo, GenCall, Apply, CallsOrdinaryOnly, IsOrdinaryName;
    UnaryParts(p.ctx, e, litBase, history);
    var g := Gen(p.ctx.env, e.operand, litBase).value;
    FinishReady(p, e.op.text, AsArgs(g), litBase, pc, stack);
    RunsExpr(p, e.operand, litBase, pc, stack, history);
    var v := Eval(p.ctx, e.operand, history);
    var whole := Gen(p.ctx.env, e, litBase).value;
    RunsToOutcome(p, pc, pc + |g.code|, stack, history, v, g.t);
    if v.None? {
      RunsToNone(p, pc, pc + |whole.code|, stack, history, whole.t);
    } else {
      assert TypesOf([v.value.0]) == [g.t];
      FinishCall(p, e.op.text, AsArgs(g), litBase, pc, stack, history, [v.value.0], v.value.1);
    }
  }

  /** A unary operator's code and meaning in terms of its operand. */
  lemma UnaryParts(ctx: Context, e: Expr, litBase: nat, history: seq<Event>)
    requires e.Unary? && CallsOrdinaryOnly(ctx.env.table, e) && Gen(ctx.env, e, litBase).Some?
    ensures IsOrdinaryName(ctx.env.table, e.op.text) && CallsOrdinaryOnly(ctx.env.table, e.operand)
    ensures Gen(ctx.env, e.operand, litBase).Some?
    ensures Gen(ctx.env, e, litBase) == GenCall(ctx.env, e.op.text, AsArgs(Gen(ctx.env, e.operand, litBase).value))
    ensures Eval(ctx, e, history)
         == match Eval(ctx, e.operand, history) case None => None case Some(v) => Apply(ctx, e.op.text, [v.0], v.1)
  {
    hide GenCall, Apply, IsOrdinaryName;
  }

  /** A binary operator's code and meaning in terms of its operands. */
  lemma BinaryParts(ctx: Context, e: Expr, litBase: nat, history: seq<Event>)
    requires e.Binary? && CallsOrdinaryOnly(ctx.env.table, e) && Gen(ctx.env, e, litBase).Some?
    ensures IsOrdinaryName(ctx.env.table, e.op.text)
    ensures CallsOrdinaryOnly(ctx.env.table, e.left) && CallsOrdinaryOnly(ctx.env.table, e.right)
    ensures var g := Gen(ctx.env, e.left, litBase);
      && g.Some? && Gen(ctx.env, e.right, litBase + |g.value.lits|).Some?
      && Gen(ctx.env, e, litBase)
         == GenCall(ctx.env, e.op.text, Combine(g.value, AsArgs(Gen(ctx.env, e.right, litBase + |g.value.lits|).value)))
    ensures Eval(ctx, e, history)
         == match Eval(ctx, e.left, history)
            case None => None
            case Some(v) =>
              match Eval(ctx, e.right, v.1) case None => None case Some(w) => Apply(ctx, e.op.text, [v.0, w.0], w.1)
  {
    hide GenCall, Apply, IsOrdinaryName;
  }

  lemma RunsToNone(p: Program, pc: nat, next: nat, stack: seq<Value>, history: seq<Event>, t: DataType)
    requires RunFrom(p, pc, stack, history).None?
    ensures RunsTo(p, pc, next, stack, history, None, t)
  {
    hide Run;
  }

  lemma {:induction false} RunsFunction(p: Program, e: Expr, litBase: nat, pc: nat, stack: seq<Value>,
      history: seq<Event>)
    requires e.Call? && CallsOrdinaryOnly(p.ctx.env.table, e)
    requires var g := Gen(p.ctx.env, e, litBase);
      g.Some? && Ready(p, litBase, pc, stack, g.value.code, g.value.lits, g.value.peak)
    ensures var g := Gen(p.ctx.env, e, litBase).value;
      RunsTo(p, pc, pc + |g.code|, stack, history, Eval(p.ctx, e, history), g.t)
    decreases e, 1
  {
    hide Run, Placed, StackBytes, FindFrom, GoodHost, GoodProgram, Ready;
    var gs := GenArgs(p.ctx.env, e.args, litBase).value;
    FinishReady(p, e.name, gs, litBase, pc, stack);
    RunsArgs(p, e.args, litBase, pc, stack, history);
    var vs := EvalArgs(p.ctx, e.args, history);
    if vs.Some? {
      FinishCall(p, e.name, gs, litBase, pc, stack, history, vs.value.0, vs.value.1);
    }
  }

  /** A call that is ready to run has arguments that are ready to run. */
  lemma FinishReady(p: Program, name: string, gs: GeneratedArgs, litBase: nat, pc: nat, stack: seq<Value>)
    requires var g := GenCall(p.ctx.env, name, gs);
      g.Some? && Ready(p, litBase, pc, stack, g.value.code, g.value.lits, g.value.peak)
    ensures Ready(p, litBase, pc, stack, gs.code, gs.lits, gs.peak)
  {
    hide FindFrom, GoodProgram, StackBytes;
    var id := Find(p.ctx.env.table, name, gs.types, |gs.types|).value;
    assert gs.lits + [] == gs.lits;
    PlacedSplit(p, pc, litBase, gs.code, [CallFn(id)], gs.lits, []);
  }

  /** Arguments that have run, and then the call. */
  lemma FinishCall(
    p: Program, name: string, gs: GeneratedArgs, litBase: nat, pc: nat, stack: seq<Value>, history: seq<Event>,
    vs: seq<Value>, h: seq<Event>)
    requires IsOrdinaryName(p.ctx.env.table, name)
    requires var g := GenCall(p.ctx.env, name, gs);
      g.Some? && Ready(p, litBase, pc, stack, g.value.code, g.value.lits, g.value.peak)
    requires TypesOf(vs) == gs.types
    requires RunFrom(p, pc, stack, history) == RunFrom(p, pc + |gs.code|, stack + vs, h)
    ensures var g := GenCall(p.ctx.env, name, gs).value;
      RunsTo(p, pc, pc + |g.code|, stack, history, Apply(p.ctx, name, vs, h), g.t)
  {
    hide FindFrom, GoodProgram, StackBytes, Run;
    var id := Find(p.ctx.env.table, name, gs.types, |gs.types|).value;
    assert gs.lits + [] == gs.lits;
    PlacedSplit(p, pc, litBase, gs.code, [CallFn(id)], gs.lits, []);
    RunsCall(p, name, vs, litBase + |gs.lits|, pc + |gs.code|, stack, h);
  }

  /** A first argument that is ready to run, and the others once its value is on the stack. */
  lemma CombineReady(p: Program, g: Generated, h: GeneratedArgs, litBase: nat, pc: nat, stack: seq<Value>)
    requires var c := Combine(g, h); Ready(p, litBase, pc, stack, c.code, c.lits, c.peak)
    ensures Ready(p, litBase, pc, stack, g.code, g.lits, g.peak)
    ensures forall v :: TypeOfValue(v) == g.t ==>
              Ready(p, litBase + |g.lits|, pc + |g.code|, stack + [v], h.code, h.lits, h.peak)
  {
    hide GoodProgram;
    PlacedSplit(p, pc, litBase, g.code, h.code, g.lits, h.lits);
    forall v | TypeOfValue(v) == g.t
      ensures StackBytes(stack + [v]) == StackBytes(stack) + TypeSize(g.t)
    {
      StackPush(stack, v);
    }
    hide Placed, StackBytes;
  }

  lemma {:induction false} RunsBinary(p: Program, e: Expr, litBase: nat, pc: nat, stack: seq<Value>,
      history: seq<Event>)
    requires e.Binary? && CallsOrdinaryOnly(p.ctx.env.table, e)
    requires var g := Gen(p.ctx.env, e, litBase);
      g.Some? && Ready(p, litBase, pc, stack, g.value.code, g.value.lits, g.value.peak)
    ensures var g := Gen(p.ctx.env, e, litBase).value;
      RunsTo(p, pc, pc + |g.code|, stack, history, Eval(p.ctx, e, history), g.t)
    decreases e, 1
  {
    hide Run, GoodProgram, Ready, Gen, Eval, RunsTo, GenCall, Apply, CallsOrdinaryOnly, IsOrdinaryName;
    BinaryParts(p.ctx, e, litBase, history);
    var g := Gen(p.ctx.env, e.left, litBase).value;
    var h := Gen(p.ctx.env, e.right, litBase + |g.lits|).value;
    var gs := Combine(g, AsArgs(h));
    FinishReady(p, e.op.text, gs, litBase, pc, stack);
    CombineReady(p, g, AsArgs(h), litBase, pc, stack);
    RunsExpr(p, e.left, litBase, pc, stack, history);
    var v := Eval(p.ctx, e.left, history);
    var whole := Gen(p.ctx.env, e, litBase).value;
    RunsToOutcome(p, pc, pc + |g.code|, stack, history, v, g.t);
    if v.None? {
      RunsToNone(p, pc, pc + |whole.code|, stack, history, whole.t);
    } else {
      var mid := pc + |g.code|;
      RunsExpr(p, e.right, litBase + |g.lits|, mid, stack + [v.value.0], v.value.1);
      var w := Eval(p.ctx, e.right, v.value.1);
      RunsToOutcome(p, mid, mid + |h.code|, stack + [v.value.0], v.value.1, w, h.t);
      if w.None? {
        RunsToNone(p, pc, pc + |whole.code|, stack, history, whole.t);
      } else {
        var vs := [v.value.0, w.value.0];
        assert stack + [v.value.0] + [w.value.0] == stack + vs;
        assert TypesOf(vs) == gs.types;
        FinishCall(p, e.op.text, gs, litBase, pc, stack, history, vs, w.value.1);
      }
    }
  }

  lemma {:induction false} RunsArgs(p: Program, args: seq<Expr>, litBase: nat, pc: nat, stack: seq<Value>,
      history: seq<Event>)
    requires forall a <- args :: CallsOrdinaryOnly(p.ctx.env.table, a)
    requires var gs := GenArgs(p.ctx.env, args, litBase);
      gs.Some? && Ready(p, litBase, pc, stack, gs.value.code, gs.value.lits, gs.value.peak)
    ensures var gs := GenArgs(p.ctx.env, args, litBase).value;
      RunsToAll(p, pc, pc + |gs.code|, stack, history, EvalArgs(p.ctx, args, history), gs.types)
    decreases args, 1
  {
    hide Run, GoodProgram, Ready, Gen, GenArgs, Eval, EvalArgs, Combine, RunsTo, RunsToAll, CallsOrdinaryOnly;
    if args == [] {
      RunsNoArgs(p, litBase, pc, stack, history);
    } else {
      GenArgsCons(p.ctx.env, args, litBase);
      EvalArgsCons(p.ctx, args, history);
      var g := Gen(p.ctx.env, args[0], litBase).value;
      var gs := GenArgs(p.ctx.env, args[1..], litBase + |g.lits|).value;
      CombineReady(p, g, gs, litBase, pc, stack);
      RunsExpr(p, args[0], litBase, pc, stack, history);
      var v := Eval(p.ctx, args[0], history);
      RunsToOutcome(p, pc, pc + |g.code|, stack, history, v, g.t);
      if v.Some? {
        RunsArgs(p, args[1..], litBase + |g.lits|, pc + |g.code|, stack + [v.value.0], v.value.1);
        var vs := EvalArgs(p.ctx, args[1..], v.value.1);
        RunsCons(p, pc, pc + |g.code|, pc + |g.code| + |gs.code|, stack, history, v.value.0, v.value.1, vs, g.t,
          gs.types);
      } else {
        RunsNone(p, pc, pc + |g.code| + |gs.code|, stack, history, [g.t] + gs.types);
      }
      CombineShape(g, gs);
    }
  }

  lemma RunsNoArgs(p: Program, litBase: nat, pc: nat, stack: seq<Value>, history: seq<Event>)
    ensures GenArgs(p.ctx.env, [], litBase).Some?
    ensures var gs := GenArgs(p.ctx.env, [], litBase).value;
      RunsToAll(p, pc, pc + |gs.code|, stack, history, EvalArgs(p.ctx, [], history), gs.types)
  {
    hide Run;
    assert stack + [] == stack;
  }

  lemma GenArgsCons(env: Env, args: seq<Expr>, litBase: nat)
    requires args != [] && GenArgs(env, args, litBase).Some?
    ensures var g := Gen(env, args[0], litBase);
      && g.Some? && GenArgs(env, args[1..], litBase + |g.value.lits|).Some?
      && GenArgs(env, args, litBase) == Some(Combine(g.value, GenArgs(env, args[1..], litBase + |g.value.lits|).value))
  {
    hide Gen, Combine;
  }

  lemma EvalArgsCons(ctx: Context, args: seq<Expr>, history: seq<Event>)
    requires args != []
    ensures EvalArgs(ctx, args, history)
         == match Eval(ctx, args[0], history)
            case None => None
            case Some(v) =>
              match EvalArgs(ctx, args[1..], v.1) case None => None case Some(vs) => Some(([v.0] + vs.0, vs.1))
  {
    hide Eval;
  }

  lemma CombineShape(g: Generated, h: GeneratedArgs)
    ensures Combine(g, h).types == [g.t] + h.types && |Combine(g, h).code| == |g.code| + |h.code|
  {
  }

  lemma RunsToOutcome(p: Program, pc: nat, next: nat, stack: seq<Value>, history: seq<Event>, outcome: Outcome,
      t: DataType)
    requires RunsTo(p, pc, next, stack, history, outcome, t)
    ensures outcome.None? ==> RunFrom(p, pc, stack, history).None?
    ensures outcome.Some? ==> TypeOfValue(outcome.value.0) == t
    ensures outcome.Some? ==> RunFrom(p, pc, stack, history) == RunFrom(p, next, stack + [outcome.value.0],
        outcome.value.1)
  {
    hide Run;
  }

  lemma RunsNone(p: Program, pc: nat, next: nat, stack: seq<Value>, history: seq<Event>, types: seq<DataType>)
    requires RunFrom(p, pc, stack, history).None?
    ensures RunsToAll(p, pc, next, stack, history, None, types)
  {
    hide Run;
  }

  /** A first value on the stack, and then the others. */
  lemma RunsCons(p: Program, pc: nat, mid: nat, next: nat, stack: seq<Value>, history: seq<Event>, v: Value,
      h: seq<Event>,
                 rest: Option<(seq<Value>, seq<Event>)>, t: DataType, types: seq<DataType>)
    requires TypeOfValue(v) == t && RunFrom(p, pc, stack, history) == RunFrom(p, mid, stack + [v], h)
    requires RunsToAll(p, mid, next, stack + [v], h, rest, types)
    ensures RunsToAll(p, pc, next, stack, history,
                      match rest case None => None case Some(vs) => Some(([v] + vs.0, vs.1)), [t] + types)
  {
    hide Run;
    if rest.Some? {
      assert stack + [v] + rest.value.0 == stack + ([v] + rest.value.0);
      TypesConcat([v], rest.value.0);
      assert TypesOf([v]) == [t];
    }
  }

  /** The pieces of a conditional that is ready to run. */
  lemma ConditionalReady(
    p: Program, gc: Generated, gt: Generated, gf: Generated, litBase: nat, pc: nat, stack: seq<Value>)
    requires var g := GenConditional(gc, gt, gf); Ready(p, litBase, pc, stack, g.code, g.lits, g.peak)
    ensures var ifAt := pc + |gc.code|;
      var gotoAt := ifAt + 1 + |gt.code|;
      && Ready(p, litBase, pc, stack, gc.code, gc.lits, gc.peak)
      && ifAt < |p.code| && p.code[ifAt] == If(|gt.code| + 2)
      && Ready(p, litBase + |gc.lits|, ifAt + 1, stack, gt.code, gt.lits, gt.peak)
      && gotoAt < |p.code| && p.code[gotoAt] == Goto(|gf.code| + 1)
      && Ready(p, litBase + |gc.lits| + |gt.lits|, gotoAt + 1, stack, gf.code, gf.lits, gf.peak)
  {
    hide GoodProgram, StackBytes, Placed;
    var a, b := gc.code, [If(|gt.code| + 2)];
    var c, d, e := gt.code, [Goto(|gf.code| + 1)], gf.code;
    var noLits: seq<Literal> := [];
    assert gc.lits + noLits == gc.lits && gc.lits + gt.lits + noLits == gc.lits + gt.lits;
    PlacedSplit(p, pc, litBase, a + b + c + d, e, gc.lits + gt.lits, gf.lits);
    PlacedSplit(p, pc, litBase, a + b + c, d, gc.lits + gt.lits, noLits);
    PlacedSplit(p, pc, litBase, a + b, c, gc.lits, gt.lits);
    PlacedSplit(p, pc, litBase, a, b, gc.lits, noLits);
    PlacedOne(p, pc + |a|, litBase + |gc.lits|, b[0], noLits);
    PlacedOne(p, pc + |a + b + c|, litBase + |gc.lits + gt.lits|, d[0], noLits);
  }

  lemma RunsBranch(p: Program, pc: nat, stack: seq<Value>, history: seq<Event>, b: bool, offset: nat)
    requires pc < |p.code| && p.code[pc] == If(offset) && offset > 0
    ensures RunFrom(p, pc, stack + [BoolV(b)], history) == RunFrom(p, pc + if b then 1 else offset, stack, history)
  {
    hide Run;
    StepOnce(p, pc, stack + [BoolV(b)], history);
    assert (stack + [BoolV(b)])[..|stack|] == stack;
  }

  lemma RunsJump(p: Program, pc: nat, stack: seq<Value>, history: seq<Event>, offset: nat)
    requires pc < |p.code| && p.code[pc] == Goto(offset) && offset > 0
    ensures RunFrom(p, pc, stack, history) == RunFrom(p, pc + offset, stack, history)
  {
    hide Run;
    StepOnce(p, pc, stack, history);
  }

  /** The chosen branch runs and nothing of the other one does. */
  lemma {:induction false} RunsIf(p: Program, e: Expr, litBase: nat, pc: nat, stack: seq<Value>, history: seq<Event>)
    requires e.IfThenElse? && CallsOrdinaryOnly(p.ctx.env.table, e)
    requires var g := Gen(p.ctx.env, e, litBase);
      g.Some? && Ready(p, litBase, pc, stack, g.value.code, g.value.lits, g.value.peak)
    ensures var g := Gen(p.ctx.env, e, litBase).value;
      RunsTo(p, pc, pc + |g.code|, stack, history, Eval(p.ctx, e, history), g.t)
    decreases e, 1
  {
    hide Run, Gen, Eval, CallsOrdinaryOnly, Ready, GenConditional;
    var gc, gt, gf := ConditionalParts(p.ctx.env.table, p.ctx.env, e, litBase);
    EvalConditional(p.ctx, e, history);
    ConditionalReady(p, gc, gt, gf, litBase, pc, stack);
    var ifAt := pc + |gc.code|;
    var gotoAt := ifAt + 1 + |gt.code|;
    var next := gotoAt + 1 + |gf.code|;
    ConditionalLength(gc, gt, gf);
    RunsExpr(p, e.cond, litBase, pc, stack, history);
    var v := Eval(p.ctx, e.cond, history);
    if v.Some? {
      RunsBranch(p, ifAt, stack, v.value.1, v.value.0.b, |gt.code| + 2);
      if v.value.0.b {
        RunsExpr(p, e.thn, litBase + |gc.lits|, ifAt + 1, stack, v.value.1);
        var w := Eval(p.ctx, e.thn, v.value.1);
        if w.Some? {
          RunsJump(p, gotoAt, stack + [w.value.0], w.value.1, |gf.code| + 1);
        }
      } else {
        RunsExpr(p, e.els, litBase + |gc.lits| + |gt.lits|, gotoAt + 1, stack, v.value.1);
      }
    }
  }

  lemma ConditionalLength(gc: Generated, gt: Generated, gf: Generated)
    ensures |GenConditional(gc, gt, gf).code| == |gc.code| + |gt.code| + |gf.code| + 2
    ensures GenConditional(gc, gt, gf).t == gt.t
  {
    var code := gc.code + [If(|gt.code| + 2)] + gt.code + [Goto(|gf.code| + 1)] + gf.code;
    assert GenConditional(gc, gt, gf).code == code;
    assert |code| == |gc.code| + 1 + |gt.code| + 1 + |gf.code|;
  }

  /** A conditional's code in terms of its parts. */
  lemma ConditionalParts(table: Table, env: Env, e: Expr, litBase: nat)
    returns (gc: Generated, gt: Generated, gf: Generated)
    requires e.IfThenElse? && CallsOrdinaryOnly(table, e) && Gen(env, e, litBase).Some?
    ensures CallsOrdinaryOnly(table, e.cond) && CallsOrdinaryOnly(table, e.thn) && CallsOrdinaryOnly(table, e.els)
    ensures Gen(env, e.cond, litBase) == Some(gc) && gc.t == TBool
    ensures Gen(env, e.thn, litBase + |gc.lits|) == Some(gt)
    ensures Gen(env, e.els, litBase + |gc.lits| + |gt.lits|) == Some(gf) && gf.t == gt.t
    ensures Gen(env, e, litBase) == Some(GenConditional(gc, gt, gf))
  {
    hide GenConditional;
    gc := Gen(env, e.cond, litBase).value;
    gt := Gen(env, e.thn, litBase + |gc.lits|).value;
    gf := Gen(env, e.els, litBase + |gc.lits| + |gt.lits|).value;
  }

  lemma EvalConditional(ctx: Context, e: Expr, history: seq<Event>)
    requires e.IfThenElse?
    ensures Eval(ctx, e, history)
         == match Eval(ctx, e.cond, history)
            case None => None
            case Some(v) =>
              if !v.0.BoolV? then None
              else if v.0.b then Eval(ctx, e.thn, v.1) else Eval(ctx, e.els, v.1)
  {
  }

  lemma StopsAtEnd(p: Program, pc: nat, stack: seq<Value>, history: seq<Event>)
    requires pc < |p.code| && p.code[pc] == End
    ensures RunFrom(p, pc, stack, history) == Some(VmState(pc, stack, history))
  {
  }

  /** The whole pipeline, for every well-written expression that compiles: parsing its infix tokens,
      compiling them and running the machine from an empty stack stops at the sentinel with exactly
      one value, the one that evaluating the tree gives, after exactly the calls evaluation makes. It
      aborts exactly when evaluation meets a record without a field it needs. */
  lemma PipelineIsEvaluation(ctx: Context, e: Expr)
    requires GoodOperators(ctx.env.table) && WellWritten(ctx.env.table, e) && CallsOrdinaryOnly(ctx.env.table, e)
    requires GoodHost(ctx.env.table, ctx.host)
    requires CompileExpression(ctx.env, Infix(e)).Some?
    requires |CompileExpression(ctx.env, Infix(e)).value.code| + 1 < 1000
    ensures var u := CompileExpression(ctx.env, Infix(e)).value;
      var code := u.code + [End];
      var result := Run(ctx.env.table, ctx.host, Input(ctx.thisRecord, ctx.otherRecord, u.lits), code,
        VmState(0, [], []));
      && WithSentinel(u.code) == Some(code) && |u.sim| == 1
      && match Eval(ctx, e, [])
         case None => result.None?
         case Some((v, h)) => result == Some(VmState(|u.code|, [v], h)) && TypeOfValue(v) == u.sim[0]
  {
    hide Gen, CompileExpression, Infix, GoodHost, GoodOperators, Eval, StringBytes, Run;
    var at := CompilerProofs.CompileExpressionExact(ctx.env, e);
    var g := Gen(ctx.env, e, 0).value;
    var p := Program(ctx, Input(ctx.thisRecord, ctx.otherRecord, g.lits), g.code + [End]);
    assert p.code[0..0 + |g.code|] == g.code;
    RunsExpr(p, e, 0, 0, [], []);
    var r := Eval(ctx, e, []);
    if r.Some? {
      assert [] + [r.value.0] == [r.value.0];
      StopsAtEnd(p, |g.code|, [r.value.0], r.value.1);
    }
  }
}
