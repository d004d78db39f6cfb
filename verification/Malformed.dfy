/** The parser and the compiler also accept lists that no expression is written as. Then the simulated
    stack may say one thing and the real stack hold another. */
module Malformed {
  import opened Wrappers
  import opened DataTypes
  import opened Tokens
  import opened FnTable
  import opened ShuntingYard
  import opened CompilerSpec
  import opened Machine
  import opened Grammar
  import opened ShuntingYardProofs
  import StackTyping
  import CompilerProofs

  function Equals(t: DataType): FnInfo {
    FnInfo("=", None, [t, t], TBool, true, 9, true, Ordinary)
  }

  const TABLE: Table := [Equals(TInt), Equals(TBool)]
  const ENV := Env(TABLE, [], [])

  const EQ := Token(Operator, "=", Some(0))
  const ONE := Token(IntLiteral, "1", None)
  const TWO := Token(IntLiteral, "2", None)
  const TRUE := Token(BoolTrue, "true", None)
  const FALSE := Token(BoolFalse, "false", None)

  const BRANCH: seq<Token> := [OPEN] + ([EQ] + ([TWO] + ([CLOSE] + [TRUE])))

  /** 1 = if (false) then ((= 2) true) else (true) */
  const INFIX: seq<Token> :=
    [ONE] + ([EQ] + (CallTokens("if", [FALSE]) + (CallTokens("then", BRANCH) + CallTokens("else", [TRUE]))))

  const OP := ParsedToken(EQ, 2, -1, -1)

  function Fn(name: string, argCount: int, start: int, end: int): ParsedToken {
    ParsedToken(FunctionToken(name), argCount, start, end)
  }

  const POSTFIX: seq<ParsedToken> := [
    Plain(ONE), Plain(FALSE), Fn("if", 1, 1, 2), Plain(TWO), OP, Plain(TRUE), Fn("then", 1, 3, 6),
    Plain(TRUE), Fn("else", 1, 7, 8), OP]

  lemma Shunts(st: State, a: seq<Token>, mid: State, b: seq<Token>, end: State)
    requires ShuntAll(TABLE, st, a) == Some(mid) && ShuntAll(TABLE, mid, b) == Some(end)
    ensures ShuntAll(TABLE, st, a + b) == Some(end)
  {
    hide ShuntAll;
    ShuntConcat(TABLE, st, a, b);
  }

  lemma ShuntsOperand(stack: seq<ParsedToken>, out: seq<ParsedToken>, tok: Token)
    requires tok.kind.IntLiteral? || tok.kind.BoolTrue? || tok.kind.BoolFalse?
    ensures ShuntAll(TABLE, State(stack, out), [tok]) == Some(State(stack, out + [Plain(tok)]))
  {
    ShuntOne(TABLE, State(stack, out), tok);
  }

  lemma ShuntsOperator(stack: seq<ParsedToken>, out: seq<ParsedToken>)
    requires stack == [] || Top(stack).tok.opId.None?
    ensures ShuntAll(TABLE, State(stack, out), [EQ]) == Some(State(stack + [OP], out))
  {
    ShuntOperator(TABLE, EQ, stack, [], out);
    assert stack + [] == stack && out + Reversed([]) == out;
  }

  /** Inside its own parentheses the operator comes out before its second operand. */
  lemma ParsesBranch(stack: seq<ParsedToken>, out: seq<ParsedToken>)
    ensures ShuntAll(TABLE, State(stack, out), BRANCH)
         == Some(State(stack, out + [Plain(TWO), OP, Plain(TRUE)]))
    requires stack == [] || Top(stack).tok.kind != Function
  {
    hide ShuntAll;
    var s1 := stack + [Plain(OPEN)];
    var s2 := s1 + [OP];
    var o1 := out + [Plain(TWO)];
    var o2 := o1 + [OP];
    assert o2 + [Plain(TRUE)] == out + [Plain(TWO), OP, Plain(TRUE)];
    var end := State(stack, out + [Plain(TWO), OP, Plain(TRUE)]);
    ShuntsOperand(stack, o2, TRUE);
    ShuntCloseParen(TABLE, stack, [OP], o1);
    assert o1 + Reversed([OP]) == o2;
    assert s1 + [OP] == s2;
    Shunts(State(s2, o1), [CLOSE], State(stack, o2), [TRUE], end);
    ShuntsOperand(s2, out, TWO);
    Shunts(State(s2, out), [TWO], State(s2, o1), [CLOSE] + [TRUE], end);
    ShuntsOperator(s1, out);
    Shunts(State(s1, out), [EQ], State(s2, out), [TWO] + ([CLOSE] + [TRUE]), end);
    ShuntOpenParen(TABLE, stack, out);
    Shunts(State(stack, out), [OPEN], State(s1, out), [EQ] + ([TWO] + ([CLOSE] + [TRUE])), end);
  }

  lemma ParsesThen(out: seq<ParsedToken>)
    ensures ShuntAll(TABLE, State([OP], out), CallTokens("then", BRANCH))
         == Some(State([OP], out + AfterArguments("then", 1, [Plain(TWO), OP, Plain(TRUE)], |out|)))
  {
    hide ShuntAll;
    var f := Fn("then", 0, |out|, -1);
    var open := [OP] + [f, Plain(OPEN)];
    ParsesBranch(open, out);
    assert open + [] == open;
    assert f.(argCount := 0) == f;
    var args := [Plain(TWO), OP, Plain(TRUE)];
    assert args + Reversed([]) == args;
    ShuntCall(TABLE, "then", 1, BRANCH, [], args, args, [OP], out);
  }

  lemma ParsesAtomBranch(name: string, tok: Token, out: seq<ParsedToken>)
    requires tok == TRUE || tok == FALSE
    ensures ShuntAll(TABLE, State([OP], out), CallTokens(name, [tok]))
         == Some(State([OP], out + [Plain(tok), Fn(name, 1, |out|, |out| + 1)]))
  {
    ShuntBranch(TABLE, name, Atom(tok), [OP], out);
    assert AfterArguments(name, 1, [Plain(tok)], |out|) == [Plain(tok), Fn(name, 1, |out|, |out| + 1)];
  }

  lemma IsParsed()
    ensures ParseSpec(TABLE, INFIX) == Some(POSTFIX)
  {
    hide ShuntAll, CallTokens;
    var o1 := [Plain(ONE)];
    var o3 := o1 + [Plain(FALSE), Fn("if", 1, 1, 2)];
    var o7 := o3 + [Plain(TWO), OP, Plain(TRUE), Fn("then", 1, 3, 6)];
    var o9 := o7 + [Plain(TRUE), Fn("else", 1, 7, 8)];
    var ifTokens, thenTokens, elseTokens := CallTokens("if", [FALSE]), CallTokens("then", BRANCH),
      CallTokens("else", [TRUE]);
    var end := State([OP], o9);
    var none: seq<ParsedToken> := [];
    ParsesAtomBranch("else", TRUE, o7);
    ParsesThen(o3);
    assert o3 + AfterArguments("then", 1, [Plain(TWO), OP, Plain(TRUE)], |o3|) == o7;
    Shunts(State([OP], o3), thenTokens, State([OP], o7), elseTokens, end);
    ParsesAtomBranch("if", FALSE, o1);
    Shunts(State([OP], o1), ifTokens, State([OP], o3), thenTokens + elseTokens, end);
    ShuntsOperator(none, o1);
    assert none + [OP] == [OP];
    Shunts(State(none, o1), [EQ], State([OP], o1), ifTokens + (thenTokens + elseTokens), end);
    ShuntsOperand(none, none, ONE);
    assert none + [Plain(ONE)] == o1;
    Shunts(State(none, none), [ONE], State(none, o1), [EQ] + (ifTokens + (thenTokens + elseTokens)), end);
    DrainPending([OP], o9);
    assert o9 + Reversed([OP]) == POSTFIX;
  }

  // ----- Its compilation

  function Unit(sim: seq<DataType>, code: seq<Instr>, lits: seq<Literal>, at: seq<seq<DataType>>,
      restores: bool): CompileUnit {
    CompileUnit(sim, code, lits, false, at, restores)
  }

  lemma SmallStack(ts: seq<DataType>)
    requires |ts| <= 4
    ensures Bytes(ts) <= 16 * |ts|
    decreases |ts|
  {
    if ts != [] {
      SmallStack(ts[..|ts| - 1]);
    }
  }

  lemma CompilesInt(u: CompileUnit, tok: Token)
    requires tok.kind.IntLiteral? && |u.sim| <= 3 && |u.code| <= 20 && |u.lits| <= 3
    ensures CompileToken(ENV, Plain(tok), u)
         == Some(u.(sim := u.sim + [TInt], code := u.code + [PushLiteral(TInt, |u.lits|)],
                    lits := u.lits + [Literal(TInt, tok.text)], at := u.at + [u.sim]))
  {
    SmallStack(u.sim);
    hide Bytes, StringBytes;
  }

  lemma CompilesBool(u: CompileUnit, tok: Token)
    requires tok.kind.BoolTrue? || tok.kind.BoolFalse?
    requires |u.sim| <= 3 && |u.code| <= 20
    ensures CompileToken(ENV, Plain(tok), u)
         == Some(u.(sim := u.sim + [TBool], code := u.code + [PushBool(tok.kind.BoolTrue?)], at := u.at + [u.sim]))
  {
    SmallStack(u.sim);
    hide Bytes, StringBytes;
  }

  lemma CompilesEquals(u: CompileUnit, low: seq<DataType>, id: nat)
    requires id < 2 && u.sim == low + TABLE[id].args && |low| <= 2 && |u.code| <= 20
    ensures CompileToken(ENV, OP, u)
         == Some(u.(sim := low + [TBool], code := u.code + [CallFn(id)], at := u.at + [u.sim]))
  {
    SmallStack(low);
    hide Bytes, StringBytes;
    assert u.sim[|u.sim| - 2..] == TABLE[id].args;
    assert u.sim[..|u.sim| - 2] == low;
    assert id == 1 ==> TABLE[0].args[0] != TABLE[1].args[0];
    assert FindFrom(TABLE, 1, "=", u.sim, 2) == if IsMatch(TABLE[1], "=", u.sim, 2) then Some(1) else None;
    assert Find(TABLE, "=", u.sim, 2) == Some(id);
  }

  const L1 := Literal(TInt, "1")
  const L2 := Literal(TInt, "2")

  const BEFORE_IF := Unit([TInt, TBool], [PushLiteral(TInt, 0), PushBool(false)], [L1], [[], [TInt]], true)
  const BEFORE_THEN :=
    Unit([TInt], BEFORE_IF.code + [If(UNPATCHED)], [L1], BEFORE_IF.at + [[TInt, TBool]], true)
  const AFTER_THEN :=
    Unit([TBool, TBool], BEFORE_THEN.code + [PushLiteral(TInt, 1), CallFn(0), PushBool(true)], [L1, L2],
         BEFORE_THEN.at + [[TInt], [TInt, TInt], [TBool]], true)
  const BEFORE_ELSE :=
    Unit([TBool], BEFORE_IF.code + [If(5), PushLiteral(TInt, 1), CallFn(0), PushBool(true), Goto(UNPATCHED)], [L1, L2],
         AFTER_THEN.at + [[TBool, TBool]], false)
  const AFTER_ELSE :=
    Unit([TBool, TBool], BEFORE_ELSE.code + [PushBool(true)], [L1, L2], BEFORE_ELSE.at + [[TBool]], false)
  const CODE: seq<Instr> := [
    PushLiteral(TInt, 0), PushBool(false), If(5), PushLiteral(TInt, 1), CallFn(0), PushBool(true), Goto(2),
    PushBool(true), CallFn(1)]
  const COMPILED := Unit([TBool], CODE, [L1, L2], AFTER_ELSE.at + [[TBool, TBool]], false)

  lemma CompilesThenBranch()
    ensures CompileRange(ENV, POSTFIX, 3, 6, BEFORE_THEN) == Some(AFTER_THEN)
  {
    hide CompileToken, CompileLoop, CompileConditional;
    var u1 := Unit([TInt, TInt], BEFORE_THEN.code + [PushLiteral(TInt, 1)], [L1, L2], BEFORE_THEN.at + [[TInt]], true);
    var u2 := Unit([TBool], u1.code + [CallFn(0)], [L1, L2], u1.at + [[TInt, TInt]], true);
    CompilesInt(BEFORE_THEN, TWO);
    assert BEFORE_THEN.(sim := BEFORE_THEN.sim + [TInt], code := BEFORE_THEN.code + [PushLiteral(TInt, 1)],
                        lits := BEFORE_THEN.lits + [L2], at := BEFORE_THEN.at + [BEFORE_THEN.sim]) == u1;
    CompilerProofs.LoopStep(ENV, POSTFIX, 3, 6, BEFORE_THEN);
    var none: seq<DataType> := [];
    assert none + TABLE[0].args == u1.sim;
    CompilesEquals(u1, none, 0);
    assert u1.(sim := none + [TBool], code := u1.code + [CallFn(0)], at := u1.at + [u1.sim]) == u2;
    CompilerProofs.LoopStep(ENV, POSTFIX, 4, 6, u1);
    CompilesBool(u2, TRUE);
    assert u2.(sim := u2.sim + [TBool], code := u2.code + [PushBool(true)], at := u2.at + [u2.sim]) == AFTER_THEN;
    CompilerProofs.LoopStep(ENV, POSTFIX, 5, 6, u2);
    LoopDone(6, AFTER_THEN);
  }

  lemma LoopDone(i: nat, u: CompileUnit)
    requires i <= |POSTFIX|
    ensures CompileLoop(ENV, POSTFIX, i, i, u) == Some(u)
  {
  }

  lemma CompilesElseBranch()
    ensures CompileRange(ENV, POSTFIX, 7, 8, BEFORE_ELSE) == Some(AFTER_ELSE)
  {
    hide CompileToken, CompileLoop, CompileConditional;
    CompilesBool(BEFORE_ELSE, TRUE);
    assert BEFORE_ELSE.(sim := BEFORE_ELSE.sim + [TBool], code := BEFORE_ELSE.code + [PushBool(true)],
                        at := BEFORE_ELSE.at + [BEFORE_ELSE.sim]) == AFTER_ELSE;
    CompilerProofs.LoopStep(ENV, POSTFIX, 7, 8, BEFORE_ELSE);
    LoopDone(8, AFTER_ELSE);
  }

  lemma CompilesConditional()
    ensures CompileConditional(ENV, POSTFIX, 2, 10, BEFORE_IF)
         == Some((8, AFTER_ELSE.(code := CODE[..8])))
  {
    hide CompileRange;
    CompilerProofs.FindSkips(POSTFIX, 3, 3, 6, 10, "then");
    CompilerProofs.FindSkips(POSTFIX, 7, 7, 8, 10, "else");
    hide FindStartingAt;
    CompilesThenBranch();
    CompilesElseBranch();
    assert BEFORE_IF.sim[..1] == [TInt];
    assert BEFORE_THEN == BEFORE_IF.(sim := [TInt], code := BEFORE_IF.code + [If(UNPATCHED)],
        at := BEFORE_IF.at + [BEFORE_IF.sim]);
    assert AFTER_THEN.code[2 := If(5)] + [Goto(UNPATCHED)] == BEFORE_ELSE.code;
    assert AFTER_THEN.sim[..1] == [TBool];
    assert CompileThen(ENV, POSTFIX, 2, 6, BEFORE_IF, [TInt]) == Some((BEFORE_ELSE, TBool));
    assert AFTER_ELSE.code[6 := Goto(2)] == CODE[..8];
    assert CompileElse(ENV, POSTFIX, 6, 8, BEFORE_ELSE, [TInt], TBool) == Some(AFTER_ELSE.(code := CODE[..8]));
  }

  lemma IsCompiled()
    ensures CompilePostfix(ENV, POSTFIX) == Some(COMPILED)
  {
    hide CompileToken, CompileLoop, CompileConditional;
    var none: seq<DataType> := [];
    var u1 := Unit([TInt], [PushLiteral(TInt, 0)], [L1], [none], true);
    CompilesInt(EMPTY_UNIT, ONE);
    assert EMPTY_UNIT.(sim := EMPTY_UNIT.sim + [TInt], code := EMPTY_UNIT.code + [PushLiteral(TInt, 0)],
                       lits := EMPTY_UNIT.lits + [L1], at := EMPTY_UNIT.at + [EMPTY_UNIT.sim]) == u1;
    CompilerProofs.LoopStep(ENV, POSTFIX, 0, 10, EMPTY_UNIT);
    CompilesBool(u1, FALSE);
    assert u1.(sim := u1.sim + [TBool], code := u1.code + [PushBool(false)], at := u1.at + [u1.sim]) == BEFORE_IF;
    CompilerProofs.LoopStep(ENV, POSTFIX, 1, 10, u1);
    CompilesConditional();
    CompilerProofs.IfStep(ENV, POSTFIX, 2, 10, BEFORE_IF);
    var w := AFTER_ELSE.(code := CODE[..8]);
    assert none + TABLE[1].args == w.sim;
    CompilesEquals(w, none, 1);
    assert w.(sim := none + [TBool], code := w.code + [CallFn(1)], at := w.at + [w.sim]) == COMPILED;
    CompilerProofs.LoopStep(ENV, POSTFIX, 9, 10, w);
    LoopDone(10, COMPILED);
  }

  /** The list is accepted, all its names are ordinary ones, and yet its code gets stuck: the last
      comparison was compiled for two booleans and finds an integer below the boolean. */
  lemma AcceptedButUnsound(host: Host, input: Input)
    requires GoodHost(TABLE, host) && input.lits == [L1, L2]
    ensures ParseSpec(TABLE, INFIX) == Some(POSTFIX) && CompilePostfix(ENV, POSTFIX) == Some(COMPILED)
    ensures StackTyping.OrdinaryNames(TABLE, POSTFIX) && !COMPILED.restores
    ensures Run(TABLE, host, input, CODE + [End], VmState(0, [], [])).None?
  {
    hide CompilePostfix, ParseSpec, Bytes, Step, Run, GoodHost;
    IsParsed();
    IsCompiled();
    var code := CODE + [End];
    var v := host.literal(TInt, "1");
    FirstSteps(host, input, code, v);
    LastSteps(host, input, code, v);
    Runs(host, input, code, VmState(8, [v, BoolV(true)], []));
    Runs(host, input, code, VmState(7, [v], []));
    Runs(host, input, code, VmState(2, [v, BoolV(false)], []));
    Runs(host, input, code, VmState(1, [v], []));
    Runs(host, input, code, VmState(0, [], []));
  }

  /** The literal, the condition, and the jump to the other branch. */
  lemma FirstSteps(host: Host, input: Input, code: seq<Instr>, v: Value)
    requires GoodHost(TABLE, host) && input.lits == [L1, L2] && code == CODE + [End] && v == host.literal(TInt, "1")
    ensures TypeOfValue(v) == TInt
    ensures Step(TABLE, host, input, code[0], VmState(0, [], [])) == Some(VmState(1, [v], []))
    ensures Step(TABLE, host, input, code[1], VmState(1, [v], [])) == Some(VmState(2, [v, BoolV(false)], []))
    ensures Step(TABLE, host, input, code[2], VmState(2, [v, BoolV(false)], [])) == Some(VmState(7, [v], []))
  {
    hide Bytes;
    var none: seq<Value> := [];
    StackFits(none);
    StackFits([v]);
    assert none + [v] == [v];
    StackFits([v, BoolV(false)]);
    assert [v] + [BoolV(false)] == [v, BoolV(false)];
    assert [v, BoolV(false)][..1] == [v];
  }

  /** The other branch leaves a bool, and the comparison behind it finds an int and a bool. */
  lemma LastSteps(host: Host, input: Input, code: seq<Instr>, v: Value)
    requires code == CODE + [End] && TypeOfValue(v) == TInt
    ensures Step(TABLE, host, input, code[7], VmState(7, [v], [])) == Some(VmState(8, [v, BoolV(true)], []))
    ensures Step(TABLE, host, input, code[8], VmState(8, [v, BoolV(true)], [])).None?
  {
    hide Bytes;
    StackFits([v, BoolV(true)]);
    assert [v] + [BoolV(true)] == [v, BoolV(true)];
    var s := [v, BoolV(true)];
    assert TypesOf(s[0..])[0] == TInt;
  }

  lemma Runs(host: Host, input: Input, code: seq<Instr>, st: VmState)
    requires st.pc < |code| && !code[st.pc].End?
    ensures Run(TABLE, host, input, code, st)
         == match Step(TABLE, host, input, code[st.pc], st)
            case None => None
            case Some(next) => if next.pc <= st.pc then None else Run(TABLE, host, input, code, next)
  {
    hide Step;
  }

  lemma StackFits(s: seq<Value>)
    requires |s| <= 2
    ensures StackBytes(s) <= 32
  {
    SmallStack(TypesOf(s));
  }
}
