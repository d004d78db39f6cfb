/** What compiling an expression depends on: only what its variables resolve to, and for the types only the
    types they resolve to. */
module SelectCongruence {
  import opened Wrappers
  import opened DataTypes
  import opened Tokens
  import opened FnTable
  import opened ShuntingYard
  import opened Headings
  import opened CompilerSpec

  /** The two variables are the same, or, if not `exact`, fields of one type at different positions. */
  predicate SameVariable(exact: bool, v1: Option<Variable>, v2: Option<Variable>) {
    match (v1, v2)
    case (Some(Field(this1, t1, f1)), Some(Field(this2, t2, f2))) => this1 == this2 && t1 == t2 && (exact ==> f1 == f2)
    case _ => v1 == v2
  }

  /** Every variable of the tokens resolves alike in both environments. */
  predicate SameVariables(exact: bool, e1: Env, e2: Env, toks: seq<ParsedToken>) {
    && e1.table == e2.table
    && forall k :: 0 <= k < |toks| && toks[k].tok.kind.Variable? ==>
         SameVariable(exact, ResolveVariable(e1, toks[k].tok.text), ResolveVariable(e2, toks[k].tok.text))
  }

  /** Compiled alike: the same but for the positions of fields. */
  predicate Alike(exact: bool, u1: CompileUnit, u2: CompileUnit) {
    && u1.sim == u2.sim && u1.lits == u2.lits && u1.refersToOther == u2.refersToOther
    && u1.at == u2.at && u1.restores == u2.restores && |u1.code| == |u2.code|
    && (exact ==> u1.code == u2.code)
  }

  predicate BothAlike(exact: bool, r1: Option<CompileUnit>, r2: Option<CompileUnit>) {
    if r1.Some? && r2.Some? then Alike(exact, r1.value, r2.value) else r1.None? && r2.None?
  }

  lemma TokenCongruence(exact: bool, e1: Env, e2: Env, toks: seq<ParsedToken>, i: nat, u1: CompileUnit, u2: CompileUnit)
    requires SameVariables(exact, e1, e2, toks) && Alike(exact, u1, u2) && i < |toks|
    ensures BothAlike(exact, CompileToken(e1, toks[i], u1), CompileToken(e2, toks[i], u2))
  {
    hide FindFrom, ResolveVariable, CompileLiteral, CompileVariable, CompileCall, CompileBool, Alike;
    var pt := toks[i];
    match pt.tok.kind
    case StringLiteral | IntLiteral | UintLiteral | DoubleLiteral => LiteralCongruence(exact, pt.tok,
    LiteralType(pt.tok.kind).value, u1, u2);
    case BoolTrue => BoolCongruence(exact, true, u1, u2);
    case BoolFalse => BoolCongruence(exact, false, u1, u2);
    case Variable =>
      var v1, v2 := ResolveVariable(e1, pt.tok.text), ResolveVariable(e2, pt.tok.text);
      assert SameVariable(exact, v1, v2);
      if v1.Some? { VariableCongruence(exact, v1.value, v2.value, u1, u2); }
    case _ =>
      AlikeSims(exact, u1, u2);
      var id := Find(e1.table, pt.tok.text, u1.sim, pt.argCount);
      if id.Some? { CallCongruence(exact, id.value, e1.table[id.value], u1, u2); }
  }

  lemma AlikeSims(exact: bool, u1: CompileUnit, u2: CompileUnit)
    requires Alike(exact, u1, u2)
    ensures u1.sim == u2.sim
  {
  }

  lemma LiteralCongruence(exact: bool, tok: Token, t: DataType, u1: CompileUnit, u2: CompileUnit)
    requires Alike(exact, u1, u2)
    ensures BothAlike(exact, CompileLiteral(tok, t, u1), CompileLiteral(tok, t, u2))
  {
    hide StringBytes, Bytes;
  }

  lemma BoolCongruence(exact: bool, b: bool, u1: CompileUnit, u2: CompileUnit)
    requires Alike(exact, u1, u2)
    ensures BothAlike(exact, CompileBool(b, u1), CompileBool(b, u2))
  {
    hide Bytes;
  }

  lemma VariableCongruence(exact: bool, v1: Variable, v2: Variable, u1: CompileUnit, u2: CompileUnit)
    requires Alike(exact, u1, u2) && SameVariable(exact, Some(v1), Some(v2))
    ensures BothAlike(exact, CompileVariable(v1, u1), CompileVariable(v2, u2))
  {
    hide Bytes;
  }

  lemma CallCongruence(exact: bool, id: nat, info: FnInfo, u1: CompileUnit, u2: CompileUnit)
    requires Alike(exact, u1, u2) && |info.args| <= |u1.sim|
    ensures BothAlike(exact, CompileCall(id, info, u1), CompileCall(id, info, u2))
  {
    hide Bytes;
  }

  lemma {:induction false} RangeCongruence(exact: bool, e1: Env, e2: Env, toks: seq<ParsedToken>, i: nat, iz: nat,
      u1: CompileUnit, u2: CompileUnit)
    requires SameVariables(exact, e1, e2, toks) && Alike(exact, u1, u2) && i <= iz <= |toks|
    ensures BothAlike(exact, CompileRange(e1, toks, i, iz, u1), CompileRange(e2, toks, i, iz, u2))
    decreases iz - i, 2
  {
    LoopCongruence(exact, e1, e2, toks, i, iz, u1, u2);
  }

  lemma {:induction false} LoopCongruence(exact: bool, e1: Env, e2: Env, toks: seq<ParsedToken>, i: nat, iz: nat,
      u1: CompileUnit, u2: CompileUnit)
    requires SameVariables(exact, e1, e2, toks) && Alike(exact, u1, u2) && i <= iz <= |toks|
    ensures BothAlike(exact, CompileLoop(e1, toks, i, iz, u1), CompileLoop(e2, toks, i, iz, u2))
    decreases iz - i, 1
  {
    hide SameVariables, Alike, CompileToken, CompileConditional;
    if i < iz {
      if IsIf(toks[i]) {
        ConditionalCongruence(exact, e1, e2, toks, i, iz, u1, u2);
        var w1, w2 := CompileConditional(e1, toks, i, iz, u1), CompileConditional(e2, toks, i, iz, u2);
        if w1.Some? { LoopCongruence(exact, e1, e2, toks, w1.value.0 + 1, iz, w1.value.1, w2.value.1); }
      } else {
        TokenCongruence(exact, e1, e2, toks, i, u1, u2);
        var v1, v2 := CompileToken(e1, toks[i], u1), CompileToken(e2, toks[i], u2);
        if v1.Some? { LoopCongruence(exact, e1, e2, toks, i + 1, iz, v1.value, v2.value); }
      }
    }
  }

  lemma {:induction false} ConditionalCongruence(exact: bool, e1: Env, e2: Env, toks: seq<ParsedToken>, i: nat, iz: nat,
      u1: CompileUnit, u2: CompileUnit)
    requires SameVariables(exact, e1, e2, toks) && Alike(exact, u1, u2) && i < iz <= |toks|
    ensures var w1, w2 := CompileConditional(e1, toks, i, iz, u1), CompileConditional(e2, toks, i, iz, u2);
            if w1.Some? && w2.Some? then w1.value.0 == w2.value.0 && Alike(exact, w1.value.1, w2.value.1)
            else w1.None? && w2.None?
    decreases iz - i, 0
  {
    hide SameVariables, CompileThen, CompileElse, FindStartingAt;
    if u1.sim == [] || u1.sim[|u1.sim| - 1] != TBool || toks[i].argCount != 1 { return; }
    var low := u1.sim[..|u1.sim| - 1];
    var thenI := FindStartingAt(toks, toks[i].end + 1, i + 1, iz, "then");
    if thenI.None? { return; }
    var elseI := FindStartingAt(toks, toks[thenI.value].end + 1, thenI.value + 1, iz, "else");
    if elseI.None? || toks[thenI.value].argCount != 1 { return; }
    ThenCongruence(exact, e1, e2, toks, i, thenI.value, u1, u2, low);
    var t1, t2 := CompileThen(e1, toks, i, thenI.value, u1, low), CompileThen(e2, toks, i, thenI.value, u2, low);
    if t1.Some? {
      ElseCongruence(exact, e1, e2, toks, thenI.value, elseI.value, t1.value.0, t2.value.0, low, t1.value.1);
    }
  }

  lemma {:induction false} ThenCongruence(exact: bool, e1: Env, e2: Env, toks: seq<ParsedToken>, i: nat, thenI: nat,
      u1: CompileUnit, u2: CompileUnit, low: seq<DataType>)
    requires SameVariables(exact, e1, e2, toks) && Alike(exact, u1, u2) && i < thenI <= |toks|
    ensures var t1, t2 := CompileThen(e1, toks, i, thenI, u1, low), CompileThen(e2, toks, i, thenI, u2, low);
            if t1.Some? && t2.Some? then Alike(exact, t1.value.0, t2.value.0) && t1.value.1 == t2.value.1
            else t1.None? && t2.None?
    decreases thenI - i - 1, 3
  {
    hide SameVariables, CompileRange, Emit;
    var l1, l2 := u1.(sim := low), u2.(sim := low);
    EmitCongruence(exact, l1, l2, If(UNPATCHED), u1.sim);
    var a1, a2 := Emit(l1, If(UNPATCHED), u1.sim), Emit(l2, If(UNPATCHED), u2.sim);
    if a1.Some? {
      RangeCongruence(exact, e1, e2, toks, i + 1, thenI, a1.value, a2.value);
      var b1, b2 := CompileRange(e1, toks, i + 1, thenI, a1.value), CompileRange(e2, toks, i + 1, thenI, a2.value);
      if b1.Some? {
        var ifAt, after := |u1.code|, b1.value.sim[..|b1.value.sim| - 1];
        var c1 := b1.value.(code := b1.value.code[ifAt := If(|b1.value.code| - ifAt + 1)]);
        var c2 := b2.value.(code := b2.value.code[ifAt := If(|b2.value.code| - ifAt + 1)]);
        EmitCongruence(exact, c1.(sim := after, restores := c1.restores && after == low),
                       c2.(sim := after, restores := c2.restores && after == low), Goto(UNPATCHED), c1.sim);
      }
    }
  }

  lemma EmitCongruence(exact: bool, u1: CompileUnit, u2: CompileUnit, instr: Instr, simBefore: seq<DataType>)
    requires Alike(exact, u1, u2)
    ensures BothAlike(exact, Emit(u1, instr, simBefore), Emit(u2, instr, simBefore))
  {
  }

  lemma {:induction false} ElseCongruence(exact: bool, e1: Env, e2: Env, toks: seq<ParsedToken>, thenI: nat, elseI: nat,
      u1: CompileUnit, u2: CompileUnit, low: seq<DataType>, thenType: DataType)
    requires SameVariables(exact, e1, e2, toks) && Alike(exact, u1, u2) && thenI < elseI <= |toks| && u1.code != []
    ensures BothAlike(exact, CompileElse(e1, toks, thenI, elseI, u1, low, thenType),
        CompileElse(e2, toks, thenI, elseI, u2, low, thenType))
    decreases elseI - thenI - 1, 3
  {
    hide SameVariables, CompileRange;
    RangeCongruence(exact, e1, e2, toks, thenI + 1, elseI, u1, u2);
  }

  lemma CompileCongruence(exact: bool, e1: Env, e2: Env, toks: seq<ParsedToken>)
    requires SameVariables(exact, e1, e2, toks)
    ensures BothAlike(exact, CompilePostfix(e1, toks), CompilePostfix(e2, toks))
  {
    RangeCongruence(exact, e1, e2, toks, 0, |toks|, EMPTY_UNIT, EMPTY_UNIT);
  }

  // --- What compiles has resolved all its variables. ---

  /** The two words that end a branch are looked for by text, not compiled. */
  predicate ResolvedAt(env: Env, pt: ParsedToken) {
    pt.tok.kind.Variable? && pt.tok.text != "then" && pt.tok.text != "else" ==> ResolveVariable(env, pt.tok.text).Some?
  }

  predicate Resolved(env: Env, toks: seq<ParsedToken>, i: nat, iz: nat)
    requires i <= iz <= |toks|
  {
    forall k :: i <= k < iz ==> ResolvedAt(env, toks[k])
  }

  lemma {:induction false} RangeResolved(env: Env, toks: seq<ParsedToken>, i: nat, iz: nat, u: CompileUnit)
    requires i <= iz <= |toks| && CompileRange(env, toks, i, iz, u).Some?
    ensures Resolved(env, toks, i, iz)
    decreases iz - i, 2
  {
    LoopResolved(env, toks, i, iz, u);
  }

  lemma {:induction false} LoopResolved(env: Env, toks: seq<ParsedToken>, i: nat, iz: nat, u: CompileUnit)
    requires i <= iz <= |toks| && CompileLoop(env, toks, i, iz, u).Some?
    ensures Resolved(env, toks, i, iz)
    decreases iz - i, 1
  {
    hide ResolvedAt, CompileToken, CompileConditional;
    if i < iz {
      if IsIf(toks[i]) {
        var w := CompileConditional(env, toks, i, iz, u).value;
        ConditionalResolved(env, toks, i, iz, u);
        LoopResolved(env, toks, w.0 + 1, iz, w.1);
      } else {
        TokenResolved(env, toks[i], u);
        LoopResolved(env, toks, i + 1, iz, CompileToken(env, toks[i], u).value);
      }
    }
  }

  lemma TokenResolved(env: Env, pt: ParsedToken, u: CompileUnit)
    requires CompileToken(env, pt, u).Some?
    ensures ResolvedAt(env, pt)
  {
    hide ResolveVariable, CompileLiteral, CompileVariable, CompileCall, CompileBool, FindFrom;
  }

  lemma {:induction false} ConditionalResolved(env: Env, toks: seq<ParsedToken>, i: nat, iz: nat, u: CompileUnit)
    requires i < iz <= |toks| && IsIf(toks[i]) && CompileConditional(env, toks, i, iz, u).Some?
    ensures Resolved(env, toks, i, CompileConditional(env, toks, i, iz, u).value.0 + 1)
    decreases iz - i, 0
  {
    hide ResolveVariable, FindStartingAt, CompileThen, CompileElse;
    var low := u.sim[..|u.sim| - 1];
    var thenI := FindStartingAt(toks, toks[i].end + 1, i + 1, iz, "then").value;
    var elseI := FindStartingAt(toks, toks[thenI].end + 1, thenI + 1, iz, "else").value;
    var thn := CompileThen(env, toks, i, thenI, u, low).value;
    BranchResolved(env, toks, i, thenI, u, low);
    OtherBranchResolved(env, toks, thenI, elseI, thn.0, low, thn.1);
    forall k | i <= k < elseI + 1 ensures ResolvedAt(env, toks[k]) {
    }
  }

  lemma {:induction false} BranchResolved(env: Env, toks: seq<ParsedToken>, i: nat, thenI: nat, u: CompileUnit,
      low: seq<DataType>)
    requires i < thenI <= |toks| && CompileThen(env, toks, i, thenI, u, low).Some?
    ensures Resolved(env, toks, i + 1, thenI)
    decreases thenI - i - 1, 3
  {
    hide Resolved, CompileRange, Bytes;
    RangeResolved(env, toks, i + 1, thenI, Emit(u.(sim := low), If(UNPATCHED), u.sim).value);
  }

  lemma {:induction false} OtherBranchResolved(env: Env, toks: seq<ParsedToken>, thenI: nat, elseI: nat, u: CompileUnit,
      low: seq<DataType>, thenType: DataType)
    requires thenI < elseI <= |toks| && u.code != [] && CompileElse(env, toks, thenI, elseI, u, low, thenType).Some?
    ensures Resolved(env, toks, thenI + 1, elseI)
    decreases elseI - thenI - 1, 3
  {
    hide Resolved, CompileRange, Bytes;
    RangeResolved(env, toks, thenI + 1, elseI, u);
  }
}
