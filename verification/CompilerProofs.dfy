/** Compiling the post-order of a well-written expression succeeds exactly when the expression is well
    typed and fits the limits, and then produces exactly the code of the direct generator. */
module CompilerProofs {
  import opened Wrappers
  import opened DataTypes
  import opened Tokens
  import opened FnTable
  import opened ShuntingYard
  import opened Grammar
  import opened CompilerSpec
  import opened Codegen
  import ShuntingYardProofs

  // ----- Literal storage

  lemma {:induction false} StringBytesGrows(a: seq<Literal>, b: seq<Literal>)
    ensures StringBytes(a) <= StringBytes(a + b)
    decreases |b|
  {
    if b == [] {
      assert a + b == a;
    } else {
      assert (a + b)[..|a + b| - 1] == a + b[..|b| - 1];
      StringBytesGrows(a, b[..|b| - 1]);
    }
  }

  lemma StringBytesPush(a: seq<Literal>, x: Literal)
    ensures StringBytes(a + [x]) == StringBytes(a) + if x.t == TString then |x.text| + 1 else 0
  {
    assert (a + [x])[..|a|] == a;
  }

  /** The unit after an expression has been compiled. */
  function After(u: CompileUnit, types: seq<DataType>, code: seq<Instr>, lits: seq<Literal>, other: bool,
      at: seq<seq<DataType>>)
    : CompileUnit
  {
    CompileUnit(u.sim + types, u.code + code, u.lits + lits, u.refersToOther || other, at, u.restores)
  }

  /** What compiling on from token `i` comes to, once the tokens up to `next` are known to be those of
      something that generates `g`. */
  ghost predicate Compiles(env: Env, toks: seq<ParsedToken>, i: nat, next: nat, iz: nat, u: CompileUnit,
      g: Option<GeneratedArgs>,
                     at: seq<seq<DataType>>)
    requires i <= next <= iz <= |toks|
  {
    CompileLoop(env, toks, i, iz, u)
    == if g.Some? && Fits(u, g.value.peak, g.value.code, g.value.lits)
       then CompileLoop(env, toks, next, iz, After(u, g.value.types, g.value.code, g.value.lits, g.value.refersToOther,
         at))
       else None
  }

  function AsOptArgs(g: Option<Generated>): Option<GeneratedArgs> {
    match g
    case None => None
    case Some(v) => Some(AsArgs(v))
  }

  // ----- The search for `then` and `else`

  predicate IsBranchName(name: string) {
    name == "then" || name == "else"
  }

  ghost predicate StartsFrom(s: seq<ParsedToken>, base: nat) {
    forall k :: 0 <= k < |s| ==> s[k].start == -1 || base <= s[k].start
  }

  /** Offsets recorded in a post-order never point before it, and nothing in it that starts where it
      starts is called `then` or `else`. */
  ghost predicate StartsWithin(s: seq<ParsedToken>, base: nat) {
    StartsFrom(s, base) && forall k :: 0 <= k < |s| && IsBranchName(s[k].tok.text) ==> s[k].start != base
  }

  lemma StartsAppend(a: seq<ParsedToken>, b: seq<ParsedToken>, base: nat)
    requires StartsWithin(a, base) && StartsFrom(b, base + |a|) && a != []
    ensures StartsWithin(a + b, base)
  {
  }

  lemma StartsOperator(a: seq<ParsedToken>, op: Token, n: int, base: nat)
    requires StartsWithin(a, base)
    ensures StartsWithin(a + [ParsedToken(op, n, -1, -1)], base)
  {
  }

  lemma StartsCall(name: string, n: nat, inner: seq<ParsedToken>, base: nat)
    requires StartsWithin(inner, base)
    ensures StartsFrom(AfterArguments(name, n, inner, base), base)
    ensures !IsBranchName(name) ==> StartsWithin(AfterArguments(name, n, inner, base), base)
  {
  }

  lemma {:induction false} PostOrderStarts(e: Expr, base: nat, table: Table)
    requires WellWritten(table, e)
    ensures StartsWithin(PostOrder(e, base), base)
    decreases e, 0
  {
    match e
    case Atom(_) =>
    case Unary(op, x) =>
      hide StartsWithin, StartsFrom;
      PostOrderStarts(x, base, table);
      StartsOperator(PostOrder(x, base), op, 1, base);
    case Binary(op, l, r) =>
      var left := PostOrder(l, base);
      var right := PostOrder(r, base + |left|);
      PostOrderStarts(l, base, table);
      PostOrderStarts(r, base + |left|, table);
      hide PostOrder;
      StartsAppend(left, right, base);
      StartsOperator(left + right, op, 2, base);
      hide StartsWithin, StartsFrom;
      PostOrderOfBinary(e, base);
    case Call(name, args) =>
      hide StartsWithin, StartsFrom;
      PostOrderArgsStarts(args, base, table);
      StartsCall(name, |args|, PostOrderArgs(args, base), base);
    case IfThenElse(c, t, f) =>
      hide StartsWithin, StartsFrom;
      var cond, thn, els := IfPart(e, base), ThenPart(e, base), ElsePart(e, base);
      PostOrderStarts(c, base, table);
      StartsCall("if", 1, PostOrder(c, base), base);
      PostOrderStarts(t, base + |cond|, table);
      StartsCall("then", 1, PostOrder(t, base + |cond|), base + |cond|);
      PostOrderStarts(f, base + |cond| + |thn|, table);
      StartsCall("else", 1, PostOrder(f, base + |cond| + |thn|), base + |cond| + |thn|);
      hide PostOrder;
      StartsAppend(cond, thn, base);
      StartsAppend(cond + thn, els, base);
      PostOrderOfIf(e, base);
    case Paren(x) => PostOrderStarts(x, base, table);
  }

  lemma {:induction false} PostOrderArgsStarts(args: seq<Expr>, base: nat, table: Table)
    requires forall a <- args :: WellWritten(table, a)
    ensures StartsWithin(PostOrderArgs(args, base), base)
    decreases args, 1
  {
    if args != [] {
      var first := PostOrder(args[0], base);
      var rest := PostOrderArgs(args[1..], base + |first|);
      PostOrderStarts(args[0], base, table);
      PostOrderArgsStarts(args[1..], base + |first|, table);
      assert PostOrderArgs(args, base) == first + rest;
      hide PostOrder, PostOrderArgs;
      StartsAppend(first, rest, base);
    }
  }

  // ----- The parts of a post-order

  function IfPart(e: Expr, base: nat): seq<ParsedToken>
    requires e.IfThenElse?
  {
    AfterArguments("if", 1, PostOrder(e.cond, base), base)
  }

  function ThenPart(e: Expr, base: nat): seq<ParsedToken>
    requires e.IfThenElse?
  {
    var at := base + |IfPart(e, base)|;
    AfterArguments("then", 1, PostOrder(e.thn, at), at)
  }

  function ElsePart(e: Expr, base: nat): seq<ParsedToken>
    requires e.IfThenElse?
  {
    var at := base + |IfPart(e, base)| + |ThenPart(e, base)|;
    AfterArguments("else", 1, PostOrder(e.els, at), at)
  }

  lemma PostOrderOfIf(e: Expr, base: nat)
    requires e.IfThenElse?
    ensures PostOrder(e, base) == IfPart(e, base) + ThenPart(e, base) + ElsePart(e, base)
  {
  }

  lemma PostOrderOfBinary(e: Expr, base: nat)
    requires e.Binary?
    ensures PostOrder(e, base)
         == PostOrder(e.left, base) + PostOrder(e.right, base + |PostOrder(e.left, base)|) + [ParsedToken(e.op, 2, -1,
           -1)]
  {
  }

  /** The search stops at the right token: nothing before it starts at the same place under that name. */
  lemma {:induction false} FindSkips(toks: seq<ParsedToken>, pos: int, i: nat, k: nat, iz: nat, name: string)
    requires i <= k < iz <= |toks|
    requires forall j :: i <= j < k ==> !(toks[j].start == pos && toks[j].tok.text == name)
    requires toks[k].start == pos && toks[k].tok.text == name
    ensures FindStartingAt(toks, pos, i, iz, name) == Some(k)
    decreases k - i
  {
    if i < k {
      FindSkips(toks, pos, i + 1, k, iz, name);
    }
  }

  lemma FindBranch(toks: seq<ParsedToken>, branch: seq<ParsedToken>, i: nat, iz: nat, name: string)
    requires IsBranchName(name) && StartsWithin(branch, i)
    requires i + |branch| < iz <= |toks| && toks[i..i + |branch|] == branch
    requires toks[i + |branch|].start == i && toks[i + |branch|].tok.text == name
    ensures FindStartingAt(toks, i, i, iz, name) == Some(i + |branch|)
  {
    forall j | i <= j < i + |branch|
      ensures !(toks[j].start == i && toks[j].tok.text == name)
    {
      assert toks[j] == branch[j - i];
    }
    FindSkips(toks, i, i, i + |branch|, iz, name);
  }

  // ----- Atoms and calls

  lemma CompileLiteralToken(tok: Token, t: DataType, u: CompileUnit)
    requires LiteralsFit(u.lits)
    ensures CompileLiteral(tok, t, u)
         == if Fits(u, TypeSize(t), [PushLiteral(t, |u.lits|)], [Literal(t, tok.text)])
            then Some(After(u, [t], [PushLiteral(t, |u.lits|)], [Literal(t, tok.text)], false, u.at + [u.sim]))
            else None
  {
    StringBytesPush(u.lits, Literal(t, tok.text));
    hide StringBytes, Bytes;
  }

  /** An instruction that pushes one value and needs no literal. */
  lemma CompilePushToken(u: CompileUnit, t: DataType, instr: Instr, other: bool)
    requires LiteralsFit(u.lits)
    ensures match PushType(u.sim, t)
            case None => !Fits(u, TypeSize(t), [instr], [])
            case Some(sim) =>
              Emit(u.(sim := sim, refersToOther := u.refersToOther || other), instr, u.sim)
              == if Fits(u, TypeSize(t), [instr], [])
                 then Some(After(u, [t], [instr], [], other, u.at + [u.sim])) else None
  {
    hide StringBytes, Bytes;
    assert u.lits + [] == u.lits;
  }

  /** One token that pushes a value of a known type. */
  lemma CompileAtomToken(env: Env, tok: Token, u: CompileUnit)
    requires IsOperand(tok.kind) && LiteralsFit(u.lits)
    ensures CompileToken(env, Plain(tok), u)
         == match GenAtom(env, tok, |u.lits|)
            case None => None
            case Some(g) =>
              if Fits(u, g.peak, g.code, g.lits)
              then Some(After(u, [g.t], g.code, g.lits, g.refersToOther, u.at + [u.sim]))
              else None
  {
    hide Fits, After, ResolveVariable, StringBytes, Bytes;
    match tok.kind
    case UnparsedCodeBlock | ScriptArgumentReference =>
      assert Find(env.table, tok.text, u.sim, -1).None?;
    case StringLiteral | IntLiteral | UintLiteral | DoubleLiteral =>
      CompileLiteralToken(tok, LiteralType(tok.kind).value, u);
    case BoolTrue | BoolFalse =>
      CompilePushToken(u, TBool, PushBool(tok.kind == BoolTrue), false);
    case Variable =>
      var v := ResolveVariable(env, tok.text);
      if v.Some? {
        CompilePushToken(u, VariableType(v.value), VariableInstr(v.value), !v.value.isThis);
      }
  }

  lemma CompileAtom(env: Env, tok: Token, toks: seq<ParsedToken>, i: nat, iz: nat, u: CompileUnit)
    returns (at: seq<seq<DataType>>)
    requires IsOperand(tok.kind) && i < iz <= |toks| && toks[i] == Plain(tok) && LiteralsFit(u.lits)
    ensures Compiles(env, toks, i, i + 1, iz, u, AsOptArgs(GenAtom(env, tok, |u.lits|)), at)
  {
    at := u.at + [u.sim];
    CompileAtomToken(env, tok, u);
    hide CompileToken, GenAtom, Fits;
  }

  /** The function or operator token that follows arguments whose types are on top of the stack. */
  lemma CompileCallToken(env: Env, pt: ParsedToken, u: CompileUnit, low: seq<DataType>, gs: GeneratedArgs)
    requires pt.tok.kind.Operator? || (pt.tok.kind.Function? && pt.tok.text != "if")
    requires u.sim == low + gs.types && pt.argCount == |gs.types|
    ensures CompileToken(env, pt, u)
         == match GenCall(env, pt.tok.text, gs)
            case None => None
            case Some(g) =>
              if Bytes(low) + TypeSize(g.t) < MAX_STACK_BYTE_SIZE && |u.code| + 1 < MAX_NUMBER_FUNCTION_CALLS
              then Some(u.(sim := low + [g.t], code := u.code + [g.code[|g.code| - 1]], at := u.at + [u.sim]))
              else None
  {
    FindIgnoresLowerStack(env.table, 0, pt.tok.text, low, gs.types);
    hide FindFrom, Bytes, IsMatch;
    var id := Find(env.table, pt.tok.text, gs.types, |gs.types|);
    assert id == Find(env.table, pt.tok.text, u.sim, pt.argCount);
    if id.Some? {
      assert |env.table[id.value].args| == |gs.types| by { FoundArity(env.table, pt.tok.text, gs.types); }
      assert u.sim[..|u.sim| - |gs.types|] == low;
    }
  }

  lemma FoundArity(table: Table, name: string, types: seq<DataType>)
    ensures var id := Find(table, name, types, |types|);
      id.Some? ==> id.value < |table| && |table[id.value].args| == |types| && table[id.value].args == types
                   && IsNameMatch(table[id.value], name)
  {
    var id := Find(table, name, types, |types|);
    if id.Some? {
      assert types[|types| - |table[id.value].args|..] == types;
    }
  }

  // ----- Putting pieces one after another

  predicate UnitOk(u: CompileUnit) {
    && Bytes(u.sim) < MAX_STACK_BYTE_SIZE
    && |u.code| < MAX_NUMBER_FUNCTION_CALLS
    && LiteralsFit(u.lits)
  }

  function AfterGen(u: CompileUnit, g: GeneratedArgs, at: seq<seq<DataType>>): CompileUnit {
    After(u, g.types, g.code, g.lits, g.refersToOther, at)
  }

  lemma FitsThenOk(u: CompileUnit, g: Generated, at: seq<seq<DataType>>)
    requires UnitOk(u) && Fits(u, g.peak, g.code, g.lits) && TypeSize(g.t) <= g.peak
    ensures UnitOk(AfterGen(u, AsArgs(g), at))
  {
    BytesPush(u.sim, g.t);
  }

  /** Fitting one piece and then the next is fitting both. */
  lemma FitsCombine(u: CompileUnit, g: Generated, h: GeneratedArgs, at: seq<seq<DataType>>)
    requires UnitOk(u)
    ensures Fits(u, g.peak, g.code, g.lits) && Fits(AfterGen(u, AsArgs(g), at), h.peak, h.code, h.lits)
       <==> Fits(u, Combine(g, h).peak, Combine(g, h).code, Combine(g, h).lits)
  {
    BytesPush(u.sim, g.t);
    assert u.lits + g.lits + h.lits == u.lits + (g.lits + h.lits);
    StringBytesGrows(u.lits + g.lits, h.lits);
    hide StringBytes, Bytes;
  }

  lemma AfterCombine(u: CompileUnit, g: Generated, h: GeneratedArgs, at1: seq<seq<DataType>>, at: seq<seq<DataType>>)
    ensures AfterGen(AfterGen(u, AsArgs(g), at1), h, at) == AfterGen(u, Combine(g, h), at)
  {
    assert u.sim + [g.t] + h.types == u.sim + ([g.t] + h.types);
    assert u.code + g.code + h.code == u.code + (g.code + h.code);
    assert u.lits + g.lits + h.lits == u.lits + (g.lits + h.lits);
  }

  /** An expression followed by more arguments. */
  lemma CompilesThen(
    env: Env, toks: seq<ParsedToken>, i: nat, j: nat, k: nat, iz: nat, u: CompileUnit,
    g: Generated, h: Option<GeneratedArgs>, at1: seq<seq<DataType>>, at: seq<seq<DataType>>)
    requires i <= j <= k <= iz <= |toks| && UnitOk(u)
    requires Compiles(env, toks, i, j, iz, u, Some(AsArgs(g)), at1)
    requires Fits(u, g.peak, g.code, g.lits) ==> Compiles(env, toks, j, k, iz, AfterGen(u, AsArgs(g), at1), h, at)
    ensures Compiles(env, toks, i, k, iz, u, if h.Some? then Some(Combine(g, h.value)) else None, at)
  {
    hide CompileLoop;
    if h.Some? {
      FitsCombine(u, g, h.value, at1);
      AfterCombine(u, g, h.value, at1, at);
    }
    hide Fits, After;
  }

  /** Arguments followed by the function or operator that takes them. */
  lemma CompilesCall(
    env: Env, toks: seq<ParsedToken>, i: nat, k: nat, iz: nat, u: CompileUnit, gs: Option<GeneratedArgs>,
    at1: seq<seq<DataType>>)
    returns (at: seq<seq<DataType>>)
    requires i <= k < iz <= |toks| && UnitOk(u)
    requires Compiles(env, toks, i, k, iz, u, gs, at1)
    requires toks[k].tok.kind.Operator? || (toks[k].tok.kind.Function? && toks[k].tok.text != "if")
    requires gs.Some? ==> toks[k].argCount == |gs.value.types|
    ensures Compiles(env, toks, i, k + 1, iz, u,
                     if gs.Some? then AsOptArgs(GenCall(env, toks[k].tok.text, gs.value)) else None, at)
  {
    hide CompileLoop, StringBytes, Bytes, FindFrom, CompileToken;
    at := [];
    if gs.Some? && Fits(u, gs.value.peak, gs.value.code, gs.value.lits) {
      var mid := AfterGen(u, gs.value, at1);
      at := mid.at + [mid.sim];
      LoopStep(env, toks, k, iz, mid);
      CompileCallToken(env, toks[k], mid, u.sim, gs.value);
      var g := GenCall(env, toks[k].tok.text, gs.value);
      if g.Some? {
        assert mid.code + [g.value.code[|g.value.code| - 1]] == u.code + g.value.code;
      }
    }
  }

  lemma LoopStep(env: Env, toks: seq<ParsedToken>, i: nat, iz: nat, u: CompileUnit)
    requires i < iz <= |toks| && !IsIf(toks[i])
    ensures CompileLoop(env, toks, i, iz, u)
         == match CompileToken(env, toks[i], u) case None => None case Some(v) => CompileLoop(env, toks, i + 1, iz, v)
  {
    hide CompileToken;
  }

  // ----- Conditionals

  /** Does `toks` hold the post-order of `e` from offset `i` on? */
  ghost predicate HoldsAt(toks: seq<ParsedToken>, i: nat, e: Expr) {
    i + |PostOrder(e, i)| <= |toks| && toks[i..i + |PostOrder(e, i)|] == PostOrder(e, i)
  }

  /** A branch compiled on its own. */
  ghost predicate BranchCompiles(
    env: Env, toks: seq<ParsedToken>, i: nat, iz: nat, u: CompileUnit, g: Option<Generated>, at: seq<seq<DataType>>)
    requires i <= iz <= |toks|
  {
    CompileRange(env, toks, i, iz, u)
    == if g.Some? && Fits(u, g.value.peak, g.value.code, g.value.lits)
       then Some(AfterGen(u, AsArgs(g.value), at)) else None
  }

  lemma LoopDone(env: Env, toks: seq<ParsedToken>, i: nat, iz: nat, u: CompileUnit, g: Option<Generated>,
      at: seq<seq<DataType>>)
    requires i <= iz <= |toks| && Compiles(env, toks, i, iz, iz, u, AsOptArgs(g), at)
    ensures BranchCompiles(env, toks, i, iz, u, g, at)
  {
    if g.Some? {
      var v := AfterGen(u, AsArgs(g.value), at);
      assert CompileLoop(env, toks, iz, iz, v) == Some(v);
    }
    hide CompileLoop, Fits;
  }

  /** What is left of a conditional once its condition has been compiled. */
  function AfterConditional(u: CompileUnit, low: seq<DataType>, gt: Generated, gf: Generated,
      at: seq<seq<DataType>>): CompileUnit {
    CompileUnit(low + [gt.t],
                u.code + [If(|gt.code| + 2)] + gt.code + [Goto(|gf.code| + 1)] + gf.code,
                u.lits + gt.lits + gf.lits,
                u.refersToOther || gt.refersToOther || gf.refersToOther,
                at, u.restores)
  }

  predicate ConditionalFits(u: CompileUnit, low: seq<DataType>, gt: Generated, gf: Generated) {
    && gt.t == gf.t
    && Bytes(low) + Max(gt.peak, gf.peak) < MAX_STACK_BYTE_SIZE
    && |u.code| + |gt.code| + |gf.code| + 3 <= MAX_NUMBER_FUNCTION_CALLS
    && LiteralsFit(u.lits + gt.lits + gf.lits)
  }

  function AfterIf(u: CompileUnit, low: seq<DataType>): CompileUnit {
    u.(sim := low, code := u.code + [If(UNPATCHED)], at := u.at + [u.sim])
  }

  function AfterThen(u: CompileUnit, low: seq<DataType>, gt: Generated, at: seq<seq<DataType>>): CompileUnit {
    CompileUnit(low, u.code + [If(|gt.code| + 2)] + gt.code + [Goto(UNPATCHED)], u.lits + gt.lits,
                u.refersToOther || gt.refersToOther, at + [low + [gt.t]], u.restores)
  }

  lemma ComposeThen(
    env: Env, toks: seq<ParsedToken>, i: nat, thenI: nat, u: CompileUnit, low: seq<DataType>,
    gt: Option<Generated>, at: seq<seq<DataType>>)
    requires i < thenI <= |toks| && UnitOk(u) && u.sim == low + [TBool]
    requires UnitOk(AfterIf(u, low)) ==> BranchCompiles(env, toks, i + 1, thenI, AfterIf(u, low), gt, at)
    ensures CompileThen(env, toks, i, thenI, u, low)
         == if gt.Some? && Fits(AfterIf(u, low), gt.value.peak, gt.value.code + [Goto(UNPATCHED)], gt.value.lits)
            then Some((AfterThen(u, low, gt.value, at), gt.value.t)) else None
  {
    BytesPush(low, TBool);
    hide CompileLoop, CompileRange, StringBytes, Bytes;
    if gt.Some? {
      var u2 := AfterGen(AfterIf(u, low), AsArgs(gt.value), at);
      var patched := u2.code[|u.code| := If(|gt.value.code| + 2)];
      assert patched == u.code + [If(|gt.value.code| + 2)] + gt.value.code;
      assert u2.sim[..|u2.sim| - 1] == low;
    }
  }

  lemma ComposeElse(
    env: Env, toks: seq<ParsedToken>, thenI: nat, elseI: nat, u: CompileUnit, low: seq<DataType>,
    gt: Generated, gf: Option<Generated>, at1: seq<seq<DataType>>, at: seq<seq<DataType>>)
    requires thenI < elseI <= |toks|
    requires BranchCompiles(env, toks, thenI + 1, elseI, AfterThen(u, low, gt, at1), gf, at)
    ensures CompileElse(env, toks, thenI, elseI, AfterThen(u, low, gt, at1), low, gt.t)
         == if gf.Some? && gf.value.t == gt.t
               && Fits(AfterThen(u, low, gt, at1), gf.value.peak, gf.value.code, gf.value.lits)
            then Some(AfterConditional(u, low, gt, gf.value, at)) else None
  {
    hide CompileLoop, CompileRange, StringBytes, Bytes, Fits;
    if gf.Some? {
      var u4 := AfterThen(u, low, gt, at1);
      var u5 := AfterGen(u4, AsArgs(gf.value), at);
      assert u5.code[|u4.code| - 1 := Goto(|gf.value.code| + 1)] == AfterConditional(u, low, gt, gf.value, at).code;
      assert u5.sim[..|u5.sim| - 1] == low;
    }
  }

  /** Back-patching: the two branches compiled one after the other, each jump fixed up once the length
      of what it jumps over is known. */
  lemma ComposeConditional(
    env: Env, toks: seq<ParsedToken>, i: nat, thenI: nat, elseI: nat, iz: nat, u: CompileUnit, low: seq<DataType>,
    gt: Option<Generated>, gf: Option<Generated>, at1: seq<seq<DataType>>, at: seq<seq<DataType>>)
    requires i + 1 <= thenI < elseI < iz <= |toks| && UnitOk(u) && u.sim == low + [TBool]
    requires toks[i].argCount == 1 && toks[thenI].argCount == 1
    requires FindStartingAt(toks, toks[i].end + 1, i + 1, iz, "then") == Some(thenI)
    requires FindStartingAt(toks, toks[thenI].end + 1, thenI + 1, iz, "else") == Some(elseI)
    requires UnitOk(AfterIf(u, low)) ==> BranchCompiles(env, toks, i + 1, thenI, AfterIf(u, low), gt, at1)
    requires gt.Some? && UnitOk(AfterThen(u, low, gt.value, at1)) ==>
               BranchCompiles(env, toks, thenI + 1, elseI, AfterThen(u, low, gt.value, at1), gf, at)
    ensures CompileConditional(env, toks, i, iz, u)
         == if gt.Some? && gf.Some? && ConditionalFits(u, low, gt.value, gf.value)
            then Some((elseI, AfterConditional(u, low, gt.value, gf.value, at))) else None
  {
    hide CompileLoop, CompileRange, CompileThen, CompileElse, FindStartingAt, BranchCompiles, StringBytes, Bytes,
         Fits, ConditionalFits;
    assert u.sim[..|u.sim| - 1] == low;
    ComposeThen(env, toks, i, thenI, u, low, gt, at1);
    if gt.Some? {
      if gf.Some? {
        FitsConditional(u, low, gt.value, gf.value, at1);
      }
      if Fits(AfterIf(u, low), gt.value.peak, gt.value.code + [Goto(UNPATCHED)], gt.value.lits) {
        AfterThenOk(u, low, gt.value, at1);
        ComposeElse(env, toks, thenI, elseI, u, low, gt.value, gf, at1, at);
      }
    }
  }

  lemma AfterThenOk(u: CompileUnit, low: seq<DataType>, gt: Generated, at: seq<seq<DataType>>)
    requires Fits(AfterIf(u, low), gt.peak, gt.code + [Goto(UNPATCHED)], gt.lits)
    ensures UnitOk(AfterThen(u, low, gt, at))
  {
  }

  lemma FitsConditional(u: CompileUnit, low: seq<DataType>, gt: Generated, gf: Generated, at: seq<seq<DataType>>)
    requires UnitOk(u)
    ensures Fits(AfterIf(u, low), gt.peak, gt.code + [Goto(UNPATCHED)], gt.lits) && gf.t == gt.t
            && Fits(AfterThen(u, low, gt, at), gf.peak, gf.code, gf.lits)
       <==> ConditionalFits(u, low, gt, gf)
  {
    StringBytesGrows(u.lits + gt.lits, gf.lits);
    hide StringBytes, Bytes;
  }

  // ----- Expressions

  /** Compiling goes through the tokens of a well-written expression exactly as the generator goes
      through the tree. */
  lemma {:induction false} CompileExpr(env: Env, e: Expr, toks: seq<ParsedToken>, i: nat, iz: nat, u: CompileUnit)
    returns (at: seq<seq<DataType>>)
    requires WellWritten(env.table, e) && UnitOk(u)
    requires HoldsAt(toks, i, e) && i + |PostOrder(e, i)| <= iz <= |toks|
    ensures Compiles(env, toks, i, i + |PostOrder(e, i)|, iz, u, AsOptArgs(Gen(env, e, |u.lits|)), at)
    decreases e, 2
  {
    hide Compiles, UnitOk, GenCall, GenAtom, HoldsAt, WellWritten, Gen, PostOrder;
    match e
    case Atom(tok) => at := CompileAtomExpr(env, e, toks, i, iz, u);
    case Unary(_, _) => at := CompileUnary(env, e, toks, i, iz, u);
    case Binary(_, _, _) => at := CompileBinary(env, e, toks, i, iz, u);
    case Call(_, _) => at := CompileFunction(env, e, toks, i, iz, u);
    case IfThenElse(_, _, _) => at := CompileIf(env, e, toks, i, iz, u);
    case Paren(x) =>
      ParenIsInner(env, e, i, |u.lits|, toks);
      at := CompileExpr(env, x, toks, i, iz, u);
  }

  /** Parentheses leave no trace in the post-order or the code. */
  lemma ParenIsInner(env: Env, e: Expr, i: nat, litBase: nat, toks: seq<ParsedToken>)
    requires e.Paren?
    ensures PostOrder(e, i) == PostOrder(e.inner, i) && Gen(env, e, litBase) == Gen(env, e.inner, litBase)
    ensures HoldsAt(toks, i, e) == HoldsAt(toks, i, e.inner)
    ensures WellWritten(env.table, e) == WellWritten(env.table, e.inner)
  {
  }

  lemma CompileAtomExpr(env: Env, e: Expr, toks: seq<ParsedToken>, i: nat, iz: nat, u: CompileUnit)
    returns (at: seq<seq<DataType>>)
    requires e.Atom? && WellWritten(env.table, e) && UnitOk(u)
    requires HoldsAt(toks, i, e) && i + |PostOrder(e, i)| <= iz <= |toks|
    ensures Compiles(env, toks, i, i + |PostOrder(e, i)|, iz, u, AsOptArgs(Gen(env, e, |u.lits|)), at)
  {
    hide Compiles, GenAtom;
    assert toks[i] == PostOrder(e, i)[0];
    at := CompileAtom(env, e.tok, toks, i, iz, u);
  }

  lemma {:induction false} CompileUnary(env: Env, e: Expr, toks: seq<ParsedToken>, i: nat, iz: nat, u: CompileUnit)
    returns (at: seq<seq<DataType>>)
    requires e.Unary? && WellWritten(env.table, e) && UnitOk(u)
    requires HoldsAt(toks, i, e) && i + |PostOrder(e, i)| <= iz <= |toks|
    ensures Compiles(env, toks, i, i + |PostOrder(e, i)|, iz, u, AsOptArgs(Gen(env, e, |u.lits|)), at)
    decreases e, 1
  {
    hide Compiles, UnitOk, GenCall;
    SplitLast(toks, i, PostOrder(e.operand, i), ParsedToken(e.op, 1, -1, -1));
    var at1 := CompileExpr(env, e.operand, toks, i, iz, u);
    at := CompilesCall(env, toks, i, i + |PostOrder(e.operand, i)|, iz, u, AsOptArgs(Gen(env, e.operand, |u.lits|)),
      at1);
  }

  lemma {:induction false} CompileFunction(env: Env, e: Expr, toks: seq<ParsedToken>, i: nat, iz: nat, u: CompileUnit)
    returns (at: seq<seq<DataType>>)
    requires e.Call? && WellWritten(env.table, e) && UnitOk(u)
    requires HoldsAt(toks, i, e) && i + |PostOrder(e, i)| <= iz <= |toks|
    ensures Compiles(env, toks, i, i + |PostOrder(e, i)|, iz, u, AsOptArgs(Gen(env, e, |u.lits|)), at)
    decreases e, 1
  {
    hide Compiles, UnitOk, GenCall;
    SplitLast(toks, i, PostOrderArgs(e.args, i),
              ParsedToken(FunctionToken(e.name), |e.args|, i, i + |PostOrderArgs(e.args, i)|));
    var at1 := CompileArgs(env, e.args, toks, i, iz, u);
    at := CompilesCall(env, toks, i, i + |PostOrderArgs(e.args, i)|, iz, u, GenArgs(env, e.args, |u.lits|), at1);
  }

  lemma SplitLast(toks: seq<ParsedToken>, i: nat, s: seq<ParsedToken>, last: ParsedToken)
    requires i + |s| + 1 <= |toks| && toks[i..i + |s| + 1] == s + [last]
    ensures toks[i..i + |s|] == s && toks[i + |s|] == last
  {
    var all := s + [last];
    assert all[..|s|] == s && all[|s|] == last;
  }

  lemma SplitAt(toks: seq<ParsedToken>, i: nat, a: seq<ParsedToken>, b: seq<ParsedToken>)
    requires i + |a| + |b| <= |toks| && toks[i..i + |a| + |b|] == a + b
    ensures toks[i..i + |a|] == a && toks[i + |a|..i + |a| + |b|] == b
  {
    var all := a + b;
    assert all[..|a|] == a && all[|a|..] == b;
  }

  lemma {:induction false} CompileBinary(env: Env, e: Expr, toks: seq<ParsedToken>, i: nat, iz: nat, u: CompileUnit)
    returns (at: seq<seq<DataType>>)
    requires e.Binary? && WellWritten(env.table, e) && UnitOk(u)
    requires HoldsAt(toks, i, e) && i + |PostOrder(e, i)| <= iz <= |toks|
    ensures Compiles(env, toks, i, i + |PostOrder(e, i)|, iz, u, AsOptArgs(Gen(env, e, |u.lits|)), at)
    decreases e, 1
  {
    hide Compiles, UnitOk, GenCall, Fits, Gen, WellWritten, PostOrder, Combine, AfterGen;
    var j := i + |PostOrder(e.left, i)|;
    var k := j + |PostOrder(e.right, j)|;
    BinaryParts(env, e, |u.lits|);
    PostOrderOfBinary(e, i);
    SplitLast(toks, i, PostOrder(e.left, i) + PostOrder(e.right, j), ParsedToken(e.op, 2, -1, -1));
    SplitAt(toks, i, PostOrder(e.left, i), PostOrder(e.right, j));
    var g := Gen(env, e.left, |u.lits|);
    var at1 := CompileExpr(env, e.left, toks, i, iz, u);
    var at2 := [];
    var gs: Option<GeneratedArgs> := None;
    if g.Some? {
      var v := AfterGen(u, AsArgs(g.value), at1);
      var h := Gen(env, e.right, |u.lits| + |g.value.lits|);
      if Fits(u, g.value.peak, g.value.code, g.value.lits) {
        FitsThenOk(u, g.value, at1);
        AfterLits(u, g.value, at1);
        at2 := CompileExpr(env, e.right, toks, j, iz, v);
      }
      CompilesThen(env, toks, i, j, k, iz, u, g.value, AsOptArgs(h), at1, at2);
      if h.Some? {
        gs := Some(Combine(g.value, AsArgs(h.value)));
        TwoArguments(g.value, h.value);
      }
    } else {
      CompilesNone(env, toks, i, j, k, iz, u, at1, at2);
    }
    at := CompilesCall(env, toks, i, k, iz, u, gs, at2);
  }

  lemma AfterLits(u: CompileUnit, g: Generated, at: seq<seq<DataType>>)
    ensures |AfterGen(u, AsArgs(g), at).lits| == |u.lits| + |g.lits|
  {
  }

  lemma TwoArguments(g: Generated, h: Generated)
    ensures |Combine(g, AsArgs(h)).types| == 2
  {
  }

  /** A binary operator's code in terms of its operands. */
  lemma BinaryParts(env: Env, e: Expr, litBase: nat)
    requires e.Binary? && WellWritten(env.table, e)
    ensures WellWritten(env.table, e.left) && WellWritten(env.table, e.right) && e.op.kind.Operator?
    ensures Gen(env, e, litBase)
         == match Gen(env, e.left, litBase)
            case None => None
            case Some(g) =>
              match Gen(env, e.right, litBase + |g.lits|)
              case None => None
              case Some(h) => GenCall(env, e.op.text, Combine(g, AsArgs(h)))
  {
    hide GenAtom, GenCall, GenArgs, GenConditional, Combine;
  }

  /** An ill-typed part makes the whole fail, whatever follows. */
  lemma CompilesNone(env: Env, toks: seq<ParsedToken>, i: nat, j: nat, k: nat, iz: nat, u: CompileUnit,
                     at1: seq<seq<DataType>>, at: seq<seq<DataType>>)
    requires i <= j <= k <= iz <= |toks|
    requires Compiles(env, toks, i, j, iz, u, None, at1)
    ensures Compiles(env, toks, i, k, iz, u, None, at)
  {
  }

  lemma CompileNothing(env: Env, toks: seq<ParsedToken>, i: nat, iz: nat, u: CompileUnit)
    requires i <= iz <= |toks| && UnitOk(u)
    ensures Compiles(env, toks, i, i, iz, u, Some(GeneratedArgs([], [], [], 0, false)), u.at)
  {
    hide CompileLoop;
    assert AfterGen(u, GeneratedArgs([], [], [], 0, false), u.at) == u;
    assert u.lits + [] == u.lits;
  }

  lemma ArgsCons(env: Env, args: seq<Expr>, i: nat, litBase: nat)
    requires args != []
    ensures var j := i + |PostOrder(args[0], i)|;
      PostOrderArgs(args, i) == PostOrder(args[0], i) + PostOrderArgs(args[1..], j)
    ensures var g := Gen(env, args[0], litBase);
      GenArgs(env, args, litBase)
      == if g.None? then None else
         match GenArgs(env, args[1..], litBase + |g.value.lits|)
         case None => None
         case Some(h) => Some(Combine(g.value, h))
  {
  }

  lemma {:induction false} CompileArgs(env: Env, args: seq<Expr>, toks: seq<ParsedToken>, i: nat, iz: nat,
      u: CompileUnit)
    returns (at: seq<seq<DataType>>)
    requires (forall a <- args :: WellWritten(env.table, a)) && UnitOk(u)
    requires i + |PostOrderArgs(args, i)| <= iz <= |toks|
    requires toks[i..i + |PostOrderArgs(args, i)|] == PostOrderArgs(args, i)
    ensures Compiles(env, toks, i, i + |PostOrderArgs(args, i)|, iz, u, GenArgs(env, args, |u.lits|), at)
    decreases args, 3
  {
    hide Compiles, UnitOk, Fits, Combine, After, AfterGen, PostOrder, Gen, PostOrderArgs, GenArgs, WellWritten,
         StringBytes, Bytes;
    if args == [] {
      at := u.at;
      NoArgs(env, args, i, |u.lits|);
      CompileNothing(env, toks, i, iz, u);
    } else {
      ArgsCons(env, args, i, |u.lits|);
      var g := Gen(env, args[0], |u.lits|);
      var j := i + |PostOrder(args[0], i)|;
      var rest := PostOrderArgs(args[1..], j);
      SplitAt(toks, i, PostOrder(args[0], i), rest);
      var at1 := CompileExpr(env, args[0], toks, i, iz, u);
      at := [];
      if g.Some? {
        var v := AfterGen(u, AsArgs(g.value), at1);
        AfterFields(u, g.value, at1);
        if Fits(u, g.value.peak, g.value.code, g.value.lits) {
          FitsThenOk(u, g.value, at1);
          at := CompileArgs(env, args[1..], toks, j, iz, v);
        }
        CompilesThen(env, toks, i, j, j + |rest|, iz, u, g.value, GenArgs(env, args[1..], |u.lits| + |g.value.lits|),
          at1, at);
      } else {
        CompilesNone(env, toks, i, j, j + |rest|, iz, u, at1, at);
      }
    }
  }

  lemma NoArgs(env: Env, args: seq<Expr>, i: nat, litBase: nat)
    requires args == []
    ensures PostOrderArgs(args, i) == [] && GenArgs(env, args, litBase) == Some(GeneratedArgs([], [], [], 0, false))
  {
  }

  lemma {:induction false} CompileBranch(env: Env, e: Expr, toks: seq<ParsedToken>, i: nat, u: CompileUnit)
    returns (at: seq<seq<DataType>>)
    requires WellWritten(env.table, e) && UnitOk(u) && HoldsAt(toks, i, e)
    ensures BranchCompiles(env, toks, i, i + |PostOrder(e, i)|, u, Gen(env, e, |u.lits|), at)
    decreases e, 3
  {
    hide Compiles, UnitOk, Fits;
    var iz := i + |PostOrder(e, i)|;
    at := CompileExpr(env, e, toks, i, iz, u);
    LoopDone(env, toks, i, iz, u, Gen(env, e, |u.lits|), at);
  }

  /** The token positions of a conditional and its branches. */
  lemma ConditionalPositions(env: Env, e: Expr, toks: seq<ParsedToken>, i: nat, iz: nat)
    returns (ifI: nat, thenI: nat, elseI: nat)
    requires e.IfThenElse? && WellWritten(env.table, e)
    requires HoldsAt(toks, i, e) && i + |PostOrder(e, i)| <= iz <= |toks|
    ensures ifI == i + |PostOrder(e.cond, i)| && thenI == ifI + 1 + |PostOrder(e.thn, ifI + 1)|
    ensures elseI == thenI + 1 + |PostOrder(e.els, thenI + 1)| == i + |PostOrder(e, i)| - 1
    ensures HoldsAt(toks, i, e.cond) && HoldsAt(toks, ifI + 1, e.thn) && HoldsAt(toks, thenI + 1, e.els)
    ensures toks[ifI] == ParsedToken(FunctionToken("if"), 1, i, ifI)
    ensures toks[thenI] == ParsedToken(FunctionToken("then"), 1, ifI + 1, thenI)
    ensures toks[elseI] == ParsedToken(FunctionToken("else"), 1, thenI + 1, elseI)
  {
    hide PostOrder, WellWritten;
    PostOrderOfIf(e, i);
    var a, b, c := IfPart(e, i), ThenPart(e, i), ElsePart(e, i);
    SplitAt(toks, i, a + b, c);
    SplitAt(toks, i, a, b);
    ifI := i + |PostOrder(e.cond, i)|;
    SplitLast(toks, i, PostOrder(e.cond, i), ParsedToken(FunctionToken("if"), 1, i, ifI));
    thenI := ifI + 1 + |PostOrder(e.thn, ifI + 1)|;
    SplitLast(toks, ifI + 1, PostOrder(e.thn, ifI + 1), ParsedToken(FunctionToken("then"), 1, ifI + 1, thenI));
    elseI := thenI + 1 + |PostOrder(e.els, thenI + 1)|;
    SplitLast(toks, thenI + 1, PostOrder(e.els, thenI + 1), ParsedToken(FunctionToken("else"), 1, thenI + 1, elseI));
  }

  lemma WellWrittenParts(table: Table, e: Expr)
    requires e.IfThenElse? && WellWritten(table, e)
    ensures WellWritten(table, e.cond) && WellWritten(table, e.thn) && WellWritten(table, e.els)
  {
  }

  lemma GenOfIf(env: Env, e: Expr, litBase: nat)
    requires e.IfThenElse?
    ensures Gen(env, e, litBase)
         == match Gen(env, e.cond, litBase)
            case None => None
            case Some(gc) =>
              match Gen(env, e.thn, litBase + |gc.lits|)
              case None => None
              case Some(gt) =>
                match Gen(env, e.els, litBase + |gc.lits| + |gt.lits|)
                case None => None
                case Some(gf) => if gc.t != TBool || gt.t != gf.t then None else Some(GenConditional(gc, gt, gf))
  {
    hide GenAtom, GenCall, GenArgs, GenConditional, Combine;
  }

  lemma {:induction false} CompileIf(env: Env, e: Expr, toks: seq<ParsedToken>, i: nat, iz: nat, u: CompileUnit)
    returns (at: seq<seq<DataType>>)
    requires e.IfThenElse? && WellWritten(env.table, e) && UnitOk(u)
    requires HoldsAt(toks, i, e) && i + |PostOrder(e, i)| <= iz <= |toks|
    ensures Compiles(env, toks, i, i + |PostOrder(e, i)|, iz, u, AsOptArgs(Gen(env, e, |u.lits|)), at)
    decreases e, 1
  {
    hide Compiles, UnitOk, Fits, BranchCompiles, HoldsAt, Gen, CompileLoop, CompileConditional, PostOrder,
        ConditionalFits,
         AfterConditional, GenConditional, After, AfterGen, WellWritten, StringBytes, Bytes;
    GenOfIf(env, e, |u.lits|);
    WellWrittenParts(env.table, e);
    var ifI, thenI, elseI := ConditionalPositions(env, e, toks, i, iz);
    var gc := Gen(env, e.cond, |u.lits|);
    var at0 := CompileExpr(env, e.cond, toks, i, iz, u);
    at := [];
    if gc.Some? && gc.value.t == TBool && Fits(u, gc.value.peak, gc.value.code, gc.value.lits) {
      var v := AfterGen(u, AsArgs(gc.value), at0);
      FitsThenOk(u, gc.value, at0);
      AfterFields(u, gc.value, at0);
      var gt, gf;
      gt, gf, at := CompileBranches(env, e, toks, ifI, thenI, elseI, iz, v, u.sim);
      FinishIf(env, toks, i, ifI, elseI, iz, u, gc.value, gt, gf, at0, at);
    } else {
      AbortIf(env, e, toks, i, ifI, iz, elseI + 1, u, at0, at);
    }
  }

  /** From an `if`, the searches for `then` and `else` stop at its own, under any nesting. */
  lemma FindBranches(table: Table, e: Expr, toks: seq<ParsedToken>, ifI: nat, thenI: nat, elseI: nat, iz: nat)
    requires e.IfThenElse? && WellWritten(table, e)
    requires thenI == ifI + 1 + |PostOrder(e.thn, ifI + 1)|
    requires elseI == thenI + 1 + |PostOrder(e.els, thenI + 1)| < iz <= |toks|
    requires HoldsAt(toks, ifI + 1, e.thn) && HoldsAt(toks, thenI + 1, e.els)
    requires toks[thenI] == ParsedToken(FunctionToken("then"), 1, ifI + 1, thenI)
    requires toks[elseI] == ParsedToken(FunctionToken("else"), 1, thenI + 1, elseI)
    ensures FindStartingAt(toks, ifI + 1, ifI + 1, iz, "then") == Some(thenI)
    ensures FindStartingAt(toks, thenI + 1, thenI + 1, iz, "else") == Some(elseI)
  {
    PostOrderStarts(e.thn, ifI + 1, table);
    PostOrderStarts(e.els, thenI + 1, table);
    hide FindStartingAt, StartsWithin;
    FindBranch(toks, PostOrder(e.thn, ifI + 1), ifI + 1, iz, "then");
    FindBranch(toks, PostOrder(e.els, thenI + 1), thenI + 1, iz, "else");
  }

  /** Both branches of a conditional whose condition has been compiled. */
  lemma {:induction false} CompileBranches(
    env: Env, e: Expr, toks: seq<ParsedToken>, ifI: nat, thenI: nat, elseI: nat, iz: nat, v: CompileUnit,
    low: seq<DataType>)
    returns (gt: Option<Generated>, gf: Option<Generated>, at: seq<seq<DataType>>)
    requires e.IfThenElse? && WellWritten(env.table, e) && UnitOk(v) && v.sim == low + [TBool]
    requires thenI == ifI + 1 + |PostOrder(e.thn, ifI + 1)|
    requires elseI == thenI + 1 + |PostOrder(e.els, thenI + 1)| < iz <= |toks|
    requires HoldsAt(toks, ifI + 1, e.thn) && HoldsAt(toks, thenI + 1, e.els)
    requires toks[ifI].end == ifI && toks[ifI].argCount == 1
    requires toks[thenI] == ParsedToken(FunctionToken("then"), 1, ifI + 1, thenI)
    requires toks[elseI] == ParsedToken(FunctionToken("else"), 1, thenI + 1, elseI)
    ensures gt == Gen(env, e.thn, |v.lits|)
    ensures gt.Some? ==> gf == Gen(env, e.els, |v.lits| + |gt.value.lits|)
    ensures CompileConditional(env, toks, ifI, iz, v)
         == if gt.Some? && gf.Some? && ConditionalFits(v, low, gt.value, gf.value)
            then Some((elseI, AfterConditional(v, low, gt.value, gf.value, at))) else None
    decreases e, 0
  {
    hide PostOrder, HoldsAt, Fits, ConditionalFits, BranchCompiles, CompileConditional, FindStartingAt, After,
         Gen, AfterConditional, WellWritten, Bytes, StringBytes;
    WellWrittenParts(env.table, e);
    FindBranches(env.table, e, toks, ifI, thenI, elseI, iz);
    at := [];
    gt := Gen(env, e.thn, |v.lits|);
    gf := None;
    var at1: seq<seq<DataType>> := [];
    if UnitOk(AfterIf(v, low)) {
      at1 := CompileBranch(env, e.thn, toks, ifI + 1, AfterIf(v, low));
    }
    if gt.Some? {
      var w := AfterThen(v, low, gt.value, at1);
      gf := Gen(env, e.els, |w.lits|);
      if UnitOk(w) {
        at := CompileBranch(env, e.els, toks, thenI + 1, w);
      }
    }
    ComposeConditional(env, toks, ifI, thenI, elseI, iz, v, low, gt, gf, at1, at);
  }

  /** A condition that is ill typed, does not fit or is no boolean makes the whole fail. */
  lemma AbortIf(
    env: Env, e: Expr, toks: seq<ParsedToken>, i: nat, ifI: nat, iz: nat, next: nat, u: CompileUnit,
    at0: seq<seq<DataType>>, at: seq<seq<DataType>>)
    requires e.IfThenElse? && i <= ifI < next <= iz <= |toks| && IsIf(toks[ifI])
    requires var gc := Gen(env, e.cond, |u.lits|);
      && Compiles(env, toks, i, ifI, iz, u, AsOptArgs(gc), at0)
      && !(gc.Some? && gc.value.t == TBool && Fits(u, gc.value.peak, gc.value.code, gc.value.lits))
    ensures Compiles(env, toks, i, next, iz, u, AsOptArgs(Gen(env, e, |u.lits|)), at)
  {
    hide CompileLoop, GenConditional, Fits;
    var gc := Gen(env, e.cond, |u.lits|);
    if gc.Some? && Fits(u, gc.value.peak, gc.value.code, gc.value.lits) {
      var v := AfterGen(u, AsArgs(gc.value), at0);
      assert v.sim[|v.sim| - 1] == gc.value.t;
      assert CompileConditional(env, toks, ifI, iz, v).None?;
      IfStep(env, toks, ifI, iz, v);
    }
    var g := Gen(env, e, |u.lits|);
    if g.Some? && Fits(u, g.value.peak, g.value.code, g.value.lits) {
      var gt := Gen(env, e.thn, |u.lits| + |gc.value.lits|);
      var gf := Gen(env, e.els, |u.lits| + |gc.value.lits| + |gt.value.lits|);
      IfFitsCondition(u, gc.value, gt.value, gf.value);
    }
  }

  /** A conditional that fits has a condition that fits. */
  lemma IfFitsCondition(u: CompileUnit, gc: Generated, gt: Generated, gf: Generated)
    requires var g := GenConditional(gc, gt, gf); Fits(u, g.peak, g.code, g.lits)
    ensures Fits(u, gc.peak, gc.code, gc.lits)
  {
    assert u.lits + gc.lits + (gt.lits + gf.lits) == u.lits + (gc.lits + gt.lits + gf.lits);
    StringBytesGrows(u.lits + gc.lits, gt.lits + gf.lits);
    hide StringBytes, Bytes;
  }

  /** A conditional fits exactly when its condition fits and then its branches do. */
  lemma IfFits(u: CompileUnit, gc: Generated, gt: Generated, gf: Generated, at0: seq<seq<DataType>>)
    requires UnitOk(u) && gt.t == gf.t && Fits(u, gc.peak, gc.code, gc.lits)
    ensures var g := GenConditional(gc, gt, gf);
      ConditionalFits(AfterGen(u, AsArgs(gc), at0), u.sim, gt, gf) <==> Fits(u, g.peak, g.code, g.lits)
  {
    assert u.lits + gc.lits + gt.lits + gf.lits == u.lits + (gc.lits + gt.lits + gf.lits);
    hide StringBytes, Bytes;
  }

  lemma AfterWholeIf(u: CompileUnit, gc: Generated, gt: Generated, gf: Generated, at0: seq<seq<DataType>>,
      at: seq<seq<DataType>>)
    ensures AfterConditional(AfterGen(u, AsArgs(gc), at0), u.sim, gt, gf, at)
         == AfterGen(u, AsArgs(GenConditional(gc, gt, gf)), at)
  {
    assert u.lits + gc.lits + gt.lits + gf.lits == u.lits + (gc.lits + gt.lits + gf.lits);
    assert u.code + gc.code + [If(|gt.code| + 2)] + gt.code + [Goto(|gf.code| + 1)] + gf.code
        == u.code + (gc.code + [If(|gt.code| + 2)] + gt.code + [Goto(|gf.code| + 1)] + gf.code);
  }

  /** The whole conditional, once its condition and then its branches have been compiled. */
  lemma FinishIf(
    env: Env, toks: seq<ParsedToken>, i: nat, ifI: nat, elseI: nat, iz: nat, u: CompileUnit,
    gc: Generated, gt: Option<Generated>, gf: Option<Generated>, at0: seq<seq<DataType>>, at: seq<seq<DataType>>)
    requires i <= ifI < elseI < iz <= |toks| && IsIf(toks[ifI]) && UnitOk(u)
    requires Fits(u, gc.peak, gc.code, gc.lits) && Compiles(env, toks, i, ifI, iz, u, Some(AsArgs(gc)), at0)
    requires CompileConditional(env, toks, ifI, iz, AfterGen(u, AsArgs(gc), at0))
          == if gt.Some? && gf.Some? && ConditionalFits(AfterGen(u, AsArgs(gc), at0), u.sim, gt.value, gf.value)
             then Some((elseI, AfterConditional(AfterGen(u, AsArgs(gc), at0), u.sim, gt.value, gf.value, at))) else None
    ensures Compiles(env, toks, i, elseI + 1, iz, u,
                     if gt.Some? && gf.Some? && gt.value.t == gf.value.t
                     then Some(AsArgs(GenConditional(gc, gt.value, gf.value))) else None, at)
  {
    hide CompileLoop, CompileConditional, Fits, ConditionalFits, GenConditional, AfterGen, AfterConditional;
    IfStep(env, toks, ifI, iz, AfterGen(u, AsArgs(gc), at0));
    if gt.Some? && gf.Some? {
      if gf.value.t == gt.value.t {
        IfFits(u, gc, gt.value, gf.value, at0);
        AfterWholeIf(u, gc, gt.value, gf.value, at0, at);
        UnfoldAfter(u, GenConditional(gc, gt.value, gf.value), at);
      } else {
        TypesMustAgree(AfterGen(u, AsArgs(gc), at0), u.sim, gt.value, gf.value);
      }
    }
    UnfoldAfter(u, gc, at0);
  }

  lemma AfterFields(u: CompileUnit, g: Generated, at: seq<seq<DataType>>)
    ensures var v := AfterGen(u, AsArgs(g), at);
      v.sim == u.sim + [g.t] && v.lits == u.lits + g.lits && |v.lits| == |u.lits| + |g.lits|
  {
  }

  lemma UnfoldAfter(u: CompileUnit, g: Generated, at: seq<seq<DataType>>)
    ensures AfterGen(u, AsArgs(g), at) == After(u, AsArgs(g).types, g.code, g.lits, g.refersToOther, at)
  {
  }

  lemma TypesMustAgree(u: CompileUnit, low: seq<DataType>, gt: Generated, gf: Generated)
    requires gt.t != gf.t
    ensures !ConditionalFits(u, low, gt, gf)
  {
  }

  lemma IfStep(env: Env, toks: seq<ParsedToken>, i: nat, iz: nat, u: CompileUnit)
    requires i < iz <= |toks| && IsIf(toks[i])
    ensures CompileLoop(env, toks, i, iz, u)
         == match CompileConditional(env, toks, i, iz, u)
            case None => None
            case Some(w) => CompileLoop(env, toks, w.0 + 1, iz, w.1)
  {
    hide CompileConditional;
  }

  /** From infix tokens to code: compilation of a well-written expression succeeds exactly when the
      expression is well typed and stays within the stack, instruction and literal limits, and then
      gives exactly the generator's type, code and literals. */
  lemma CompileExpressionExact(env: Env, e: Expr)
    returns (at: seq<seq<DataType>>)
    requires GoodOperators(env.table) && WellWritten(env.table, e)
    ensures CompileExpression(env, Infix(e))
         == match Gen(env, e, 0)
            case None => None
            case Some(g) =>
              if g.peak < 1024 && |g.code| + 1 <= 1000 && |g.lits| <= 100 && StringBytes(g.lits) < 4096
              then Some(CompileUnit([g.t], g.code, g.lits, g.refersToOther, at, true)) else None
  {
    hide CompileLoop, Gen, PostOrder, Infix, WellWritten, GoodOperators, ParseSpec, Emit, TypeSize;
    ShuntingYardProofs.ParseGivesPostOrder(env.table, e);
    var toks := PostOrder(e, 0);
    assert toks[0..0 + |toks|] == toks;
    at := CompileBranch(env, e, toks, 0, EMPTY_UNIT);
    var g := Gen(env, e, 0);
    if g.Some? {
      assert [] + g.value.lits == g.value.lits && [] + g.value.code == g.value.code;
      assert [] + [g.value.t] == [g.value.t];
    }
  }
}
