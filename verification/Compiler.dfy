/** The compiler as it runs: it walks the postfix tokens, keeps the simulated stack and the call list up
    to date, calls itself for the branches of a conditional and back-patches their jumps. */
module Compiler {
  import opened Wrappers
  import opened DataTypes
  import opened Tokens
  import opened FnTable
  import opened ShuntingYard
  import opened CompilerSpec
  import opened CompilerState
  import CompilerProofs

  /** The objects hold exactly what the unit says; `at` and `restores` are not kept at run time. */
  ghost predicate Represents(sim: SimulatedStack, calls: FunctionCallList, lits: LiteralStore, other: bool,
      u: CompileUnit)
    reads sim, sim.dataTypes, calls, calls.functionCalls, lits, lits.literals
  {
    && sim.Valid() && sim.Types() == u.sim
    && calls.Valid() && calls.Calls() == u.code
    && lits.Valid() && lits.Literals() == u.lits
    && other == u.refersToOther
  }

  /** `create_function_call`, and the call pushed on the list. */
  method CreateFunctionCall(
    env: Env, pt: ParsedToken, sim: SimulatedStack, calls: FunctionCallList, lits: LiteralStore, other0: bool,
    ghost u: CompileUnit)
    returns (ok: bool, other: bool)
    requires Represents(sim, calls, lits, other0, u)
    modifies sim, sim.dataTypes, calls, calls.functionCalls, lits, lits.literals
    ensures ok == CompileToken(env, pt, u).Some?
    ensures ok ==> Represents(sim, calls, lits, other, CompileToken(env, pt, u).value)
  {
    hide Bytes, StringBytes, FindFrom, ResolveVariable;
    other := other0;
    match pt.tok.kind
    case StringLiteral | IntLiteral | UintLiteral | DoubleLiteral =>
      ok := CreateLiteral(pt.tok, LiteralType(pt.tok.kind).value, sim, calls, lits, other, u);
    case BoolTrue | BoolFalse =>
      ok := CreatePush(TBool, PushBool(pt.tok.kind == BoolTrue), sim, calls, lits, other, u);
    case Variable =>
      var v := ResolveVariable(env, pt.tok.text);
      if v.None? { return false, other; }
      ok := CreatePush(VariableType(v.value), VariableInstr(v.value), sim, calls, lits, other, u);
      other := other || !v.value.isThis;
    case _ =>
      ok, other := CreateCall(env, pt, sim, calls, lits, other0, u);
  }

  method CreateLiteral(
    tok: Token, t: DataType, sim: SimulatedStack, calls: FunctionCallList, lits: LiteralStore, other: bool,
    ghost u: CompileUnit)
    returns (ok: bool)
    requires Represents(sim, calls, lits, other, u)
    modifies sim, sim.dataTypes, calls, calls.functionCalls, lits, lits.literals
    ensures ok == CompileLiteral(tok, t, u).Some?
    ensures ok ==> Represents(sim, calls, lits, other, CompileLiteral(tok, t, u).value)
  {
    hide Bytes, StringBytes;
    ok := sim.Push(t);
    if !ok { return; }
    var offset: nat;
    ok, offset := lits.PushBack(Literal(t, tok.text));
    if !ok { return; }
    ok := calls.PushBack(PushLiteral(t, offset));
  }

  method CreatePush(
    t: DataType, instr: Instr, sim: SimulatedStack, calls: FunctionCallList, lits: LiteralStore, other: bool,
    ghost u: CompileUnit)
    returns (ok: bool)
    requires Represents(sim, calls, lits, other, u)
    modifies sim, sim.dataTypes, calls, calls.functionCalls
    ensures ok == (PushType(u.sim, t).Some? && Emit(u, instr, u.sim).Some?)
    ensures ok ==> Represents(sim, calls, lits, other, u.(sim := u.sim + [t], code := u.code + [instr]))
  {
    hide Bytes, StringBytes;
    ok := sim.Push(t);
    if !ok { return; }
    ok := calls.PushBack(instr);
  }

  /** An operator or function: pop its arguments, push its result. */
  method CreateCall(
    env: Env, pt: ParsedToken, sim: SimulatedStack, calls: FunctionCallList, lits: LiteralStore, other0: bool,
    ghost u: CompileUnit)
    returns (ok: bool, other: bool)
    requires Represents(sim, calls, lits, other0, u)
    modifies sim, sim.dataTypes, calls, calls.functionCalls
    ensures ok == (Find(env.table, pt.tok.text, u.sim, pt.argCount).Some?
                   && CompileCall(Find(env.table, pt.tok.text, u.sim, pt.argCount).value,
                                  env.table[Find(env.table, pt.tok.text, u.sim, pt.argCount).value], u).Some?)
    ensures ok ==> Represents(sim, calls, lits, other,
                              CompileCall(Find(env.table, pt.tok.text, u.sim, pt.argCount).value,
                                  env.table[Find(env.table, pt.tok.text, u.sim, pt.argCount).value], u).value)
  {
    hide Bytes, StringBytes, FindFrom;
    other := other0;
    var types := sim.dataTypes[..sim.size];
    var id := Find(env.table, pt.tok.text, types, pt.argCount);
    if id.None? { return false, other; }
    var info := env.table[id.value];
    var i := 0;
    while i < |info.args|
      invariant i <= |info.args| <= |u.sim|
      invariant sim.Valid() && sim.Types() == u.sim[..|u.sim| - i]
      modifies sim
    {
      var popped, t := sim.Pop();
      i := i + 1;
    }
    ok := sim.Push(info.returnType);
    if !ok { return; }
    ok := calls.PushBack(CallFn(id.value));
  }

  method FindFunctionStartingAt(toks: seq<ParsedToken>, pos: int, start: nat, end: nat,
      name: string) returns (r: Option<nat>)
    requires end <= |toks|
    ensures r == FindStartingAt(toks, pos, start, end, name)
  {
    var i := start;
    while i < end
      invariant FindStartingAt(toks, pos, i, end, name) == FindStartingAt(toks, pos, start, end, name)
      decreases end - i
    {
      if toks[i].start == pos && toks[i].tok.text == name { return Some(i); }
      i := i + 1;
    }
    return None;
  }

  /** `do_compile_single_expression` on the tokens from `start` to `iz`. */
  method DoCompile(
    env: Env, toks: seq<ParsedToken>, start: nat, iz: nat, sim: SimulatedStack, calls: FunctionCallList,
    lits: LiteralStore, other0: bool, ghost u: CompileUnit)
    returns (ok: bool, other: bool)
    requires start <= iz <= |toks| && Represents(sim, calls, lits, other0, u)
    modifies sim, sim.dataTypes, calls, calls.functionCalls, lits, lits.literals
    ensures ok == CompileRange(env, toks, start, iz, u).Some?
    ensures ok ==> Represents(sim, calls, lits, other, CompileRange(env, toks, start, iz, u).value)
    decreases iz - start, 1
  {
    hide Bytes, StringBytes, FindFrom, FindStartingAt, CompileToken, CompileConditional, CompileLoop, Represents;
    var startSize := SizeOf(sim, calls, lits, other0, u);
    LoopDone(env, toks, iz, u);
    var i := start;
    other := other0;
    ghost var v := u;
    while i < iz
      invariant start <= i <= iz
      invariant Represents(sim, calls, lits, other, v)
      invariant CompileLoop(env, toks, i, iz, v) == CompileLoop(env, toks, start, iz, u)
      decreases iz - i
    {
      if IsIf(toks[i]) {
        CompilerProofs.IfStep(env, toks, i, iz, v);
        var elseI: nat;
        ok, other, elseI := DoCompileConditional(env, toks, i, iz, sim, calls, lits, other, v);
        if !ok { return; }
        v := CompileConditional(env, toks, i, iz, v).value.1;
        i := elseI + 1;
      } else {
        CompilerProofs.LoopStep(env, toks, i, iz, v);
        ok, other := CreateFunctionCall(env, toks[i], sim, calls, lits, other, v);
        if !ok { return; }
        v := CompileToken(env, toks[i], v).value;
        i := i + 1;
      }
    }
    LoopDone(env, toks, iz, v);
    var endSize := SizeOf(sim, calls, lits, other, v);
    ok := endSize == startSize + 1;
  }

  lemma LoopDone(env: Env, toks: seq<ParsedToken>, iz: nat, u: CompileUnit)
    requires iz <= |toks|
    ensures CompileLoop(env, toks, iz, iz, u) == Some(u)
  {
  }

  method SizeOf(sim: SimulatedStack, calls: FunctionCallList, lits: LiteralStore, other: bool, ghost u: CompileUnit)
    returns (n: nat)
    requires Represents(sim, calls, lits, other, u)
    ensures n == |u.sim|
  {
    n := sim.size;
  }

  /** An `if`: both branches, each with its jump patched once the length of the code is known. */
  method DoCompileConditional(
    env: Env, toks: seq<ParsedToken>, i: nat, iz: nat, sim: SimulatedStack, calls: FunctionCallList,
    lits: LiteralStore, other0: bool, ghost u: CompileUnit)
    returns (ok: bool, other: bool, elseI: nat)
    requires i < iz <= |toks| && Represents(sim, calls, lits, other0, u)
    modifies sim, sim.dataTypes, calls, calls.functionCalls, lits, lits.literals
    ensures ok == CompileConditional(env, toks, i, iz, u).Some?
    ensures ok ==> elseI == CompileConditional(env, toks, i, iz, u).value.0
                   && Represents(sim, calls, lits, other, CompileConditional(env, toks, i, iz, u).value.1)
    decreases iz - i, 0
  {
    hide FindFrom, FindStartingAt, CompileRange, CompileThen, CompileElse, Represents;
    other, elseI := other0, 0;
    ok := PopCondition(sim, calls, lits, other0, u);
    if !ok || toks[i].argCount != 1 { return false, other, 0; }
    ghost var low := u.sim[..|u.sim| - 1];
    var thenI := FindFunctionStartingAt(toks, toks[i].end + 1, i + 1, iz, "then");
    if thenI.None? { return false, other, 0; }
    var found := FindFunctionStartingAt(toks, toks[thenI.value].end + 1, thenI.value + 1, iz, "else");
    if found.None? { return false, other, 0; }
    elseI := found.value;
    if toks[thenI.value].argCount != 1 { return false, other, 0; }

    var thenType;
    ok, other, thenType := DoCompileThen(env, toks, i, thenI.value, sim, calls, lits, other, u, low);
    if !ok { return; }
    ok, other := DoCompileElse(env, toks, thenI.value, elseI, sim, calls, lits, other,
                               CompileThen(env, toks, i, thenI.value, u, low).value.0, low, thenType);
  }

  /** The value that decides must be a bool; it is off the stack when the branches start. */
  method PopCondition(sim: SimulatedStack, calls: FunctionCallList, lits: LiteralStore, other: bool,
      ghost u: CompileUnit)
    returns (ok: bool)
    requires Represents(sim, calls, lits, other, u)
    modifies sim
    ensures ok == (u.sim != [] && u.sim[|u.sim| - 1] == TBool)
    ensures ok ==> Represents(sim, calls, lits, other, u.(sim := u.sim[..|u.sim| - 1]))
  {
    hide Bytes, StringBytes;
    var t;
    ok, t := sim.Top();
    if !ok || t != TBool { return false; }
    ok, t := sim.Pop();
  }

  /** The jump around the first branch, not patched yet. */
  method BeginThen(sim: SimulatedStack, calls: FunctionCallList, lits: LiteralStore, other: bool, ghost u: CompileUnit,
      ghost low: seq<DataType>)
    returns (ok: bool, ifAt: nat)
    requires Represents(sim, calls, lits, other, u.(sim := low))
    modifies calls, calls.functionCalls
    ensures ok == Emit(u.(sim := low), If(UNPATCHED), u.sim).Some? && ifAt == |u.code|
    ensures ok ==> Represents(sim, calls, lits, other, Emit(u.(sim := low), If(UNPATCHED), u.sim).value)
  {
    hide Bytes, StringBytes;
    ifAt := calls.size;
    ok := calls.PushBack(If(UNPATCHED));
  }

  /** The first branch is done: patch the jump around it, and jump over the other. */
  method EndThen(ifAt: nat, sim: SimulatedStack, calls: FunctionCallList, lits: LiteralStore, other: bool,
      ghost u: CompileUnit, ghost low: seq<DataType>)
    returns (ok: bool, thenType: DataType)
    requires Represents(sim, calls, lits, other, u) && ifAt < |u.code| && u.sim != []
    modifies sim, sim.dataTypes, calls, calls.functionCalls
    ensures thenType == u.sim[|u.sim| - 1]
    ensures var u3 := u.(code := u.code[ifAt := If(|u.code| - ifAt + 1)]); var after := u3.sim[..|u3.sim| - 1];
      var u4 := Emit(u3.(sim := after, restores := u3.restores && after == low), Goto(UNPATCHED), u3.sim);
      ok == u4.Some? && (ok ==> Represents(sim, calls, lits, other, u4.value))
  {
    hide Bytes, StringBytes;
    calls.Patch(ifAt, If(calls.size - ifAt + 1));
    ok, thenType := sim.Pop();
    ok := calls.PushBack(Goto(UNPATCHED));
  }

  method DoCompileThen(
    env: Env, toks: seq<ParsedToken>, i: nat, thenI: nat, sim: SimulatedStack, calls: FunctionCallList,
    lits: LiteralStore, other0: bool, ghost u: CompileUnit, ghost low: seq<DataType>)
    returns (ok: bool, other: bool, thenType: DataType)
    requires i < thenI <= |toks| && Represents(sim, calls, lits, other0, u.(sim := low))
    modifies sim, sim.dataTypes, calls, calls.functionCalls, lits, lits.literals
    ensures ok == CompileThen(env, toks, i, thenI, u, low).Some?
    ensures ok ==> thenType == CompileThen(env, toks, i, thenI, u, low).value.1
                   && Represents(sim, calls, lits, other, CompileThen(env, toks, i, thenI, u, low).value.0)
    decreases thenI - i - 1, 3
  {
    hide CompileLoop, Represents, Emit;
    other, thenType := other0, TInt;
    var ifAt;
    ok, ifAt := BeginThen(sim, calls, lits, other, u, low);
    if !ok { return; }
    ghost var u1 := Emit(u.(sim := low), If(UNPATCHED), u.sim).value;
    ok, other := DoCompile(env, toks, i + 1, thenI, sim, calls, lits, other, u1);
    if !ok { return; }
    ok, thenType := EndThen(ifAt, sim, calls, lits, other, CompileRange(env, toks, i + 1, thenI, u1).value, low);
  }

  method DoCompileElse(
    env: Env, toks: seq<ParsedToken>, thenI: nat, elseI: nat, sim: SimulatedStack, calls: FunctionCallList,
    lits: LiteralStore, other0: bool, ghost u: CompileUnit, ghost low: seq<DataType>, thenType: DataType)
    returns (ok: bool, other: bool)
    requires thenI < elseI <= |toks| && u.code != [] && Represents(sim, calls, lits, other0, u)
    modifies sim, sim.dataTypes, calls, calls.functionCalls, lits, lits.literals
    ensures ok == CompileElse(env, toks, thenI, elseI, u, low, thenType).Some?
    ensures ok ==> Represents(sim, calls, lits, other, CompileElse(env, toks, thenI, elseI, u, low, thenType).value)
    decreases elseI - thenI - 1, 3
  {
    hide Bytes, StringBytes, CompileRange;
    other := other0;
    var gotoAt := calls.size - 1;
    ok, other := DoCompile(env, toks, thenI + 1, elseI, sim, calls, lits, other, u);
    if !ok { return; }
    calls.Patch(gotoAt, Goto(calls.size - gotoAt));
    var t;
    ok, t := sim.Top();
    ok := t == thenType;
  }

  /** A whole expression: infix tokens to the calls, literals and result type of a VM. */
  method CompileSingleExpression(env: Env, infix: seq<Token>)
    returns (ok: bool, code: seq<Instr>, literals: seq<Literal>, returnType: DataType, refersToOther: bool)
    ensures ok == CompileExpression(env, infix).Some?
    ensures ok ==> var u := CompileExpression(env, infix).value;
      code == u.code && literals == u.lits && [returnType] == u.sim && refersToOther == u.refersToOther
  {
    code, literals, returnType, refersToOther := [], [], TInt, false;
    var postfix;
    ok, postfix := Parse(env.table, infix);
    if !ok || postfix == [] { return false, code, literals, returnType, refersToOther; }
    var sim := new SimulatedStack();
    var calls := new FunctionCallList();
    var lits := new LiteralStore();
    ok, refersToOther := DoCompile(env, postfix, 0, |postfix|, sim, calls, lits, false, EMPTY_UNIT);
    if !ok { return; }
    ok, returnType := sim.Top();
    code := calls.functionCalls[..calls.size];
    literals := lits.literals[..lits.nextLiteral];
  }
}
