/** What a variable in an expression stands for, stated on texts and on the machine: which record a prefix selects,
    which column a name selects, and what compiling and running the single token leaves on the stack
    (get_heading_record_identifier of np1/rel/detail/helper.hpp, create_variable_push_function_call of
    np1/rel/rlang/compiler.hpp). */
module Variables {
  import opened Wrappers
  import opened DataTypes
  import opened Tokens
  import opened ShuntingYard
  import opened Headings
  import opened HeadingTexts
  import opened CompilerSpec
  import opened Machine
  import opened Evaluation
  import opened FnTable
  import opened Grammar
  import opened Codegen
  import CompilerProofs

  function Selected(ctx: Context, isThis: bool): Record {
    if isThis then ctx.thisRecord else ctx.otherRecord
  }

  function HeadingsOf(env: Env, isThis: bool): seq<string> {
    if isThis then env.thisHeadings else env.otherHeadings
  }

  // --- Compiling and running one variable. ---

  /** A single operand is its own postfix, so compiling it is compiling one token. */
  lemma OneToken(env: Env, tok: Token)
    requires IsOperand(tok.kind)
    ensures CompileExpression(env, [tok]) == CompilePostfix(env, [Plain(tok)])
  {
    assert [] + [Plain(tok)] == [Plain(tok)];
    var after := State([], [Plain(tok)]);
    assert ShuntToken(env.table, State([], []), tok) == Some(after);
    assert [tok][1..] == [] && ShuntAll(env.table, after, []) == Some(after);
  }

  lemma OnePostfix(env: Env, tok: Token)
    requires IsOperand(tok.kind)
    ensures CompilePostfix(env, [Plain(tok)])
        == match CompileToken(env, Plain(tok), EMPTY_UNIT)
           case None => None
           case Some(u) => if |u.sim| == 1 then Some(u) else None
  {
    hide CompileToken;
    var toks := [Plain(tok)];
    if CompileToken(env, toks[0], EMPTY_UNIT).Some? {
      var u := CompileToken(env, toks[0], EMPTY_UNIT).value;
      assert CompileLoop(env, toks, 1, 1, u) == Some(u);
    }
  }

  /** What the compiler and then the machine make of one token: the types the compiler ends with, whether the other
      record is referred to, and the stack at the end of the run. `None` is an abort. */
  datatype Ran = Ran(types: seq<DataType>, refersToOther: bool, stack: Option<seq<Value>>)

  function CompileAndRun(ctx: Context, tok: Token): Option<Ran> {
    var u :- CompileExpression(ctx.env, [tok]);
    var code :- WithSentinel(u.code);
    var end := Run(ctx.env.table, ctx.host, Input(ctx.thisRecord, ctx.otherRecord, u.lits), code, VmState(0, [], []));
    Some(Ran(u.sim, u.refersToOther, match end case None => None case Some(st) => Some(st.stack)))
  }

  /** A push of `v`, then the sentinel. */
  lemma RunsOne(ctx: Context, instr: Instr, input: Input, v: Value)
    requires !instr.End?
    requires Step(ctx.env.table, ctx.host, input, instr, VmState(0, [], [])) == Some(VmState(1, [v], []))
    ensures Run(ctx.env.table, ctx.host, input, [instr, End], VmState(0, [], [])) == Some(VmState(1, [v], []))
  {
    hide Step;
  }

  lemma PushOne(v: Value)
    ensures Push(VmState(0, [], []), [], v) == Some(VmState(1, [v], []))
  {
    var ts := [TypeOfValue(v)];
    assert [] + [v] == [v] && TypesOf([v]) == ts;
    assert ts[..0] == [] && Bytes([]) == 0 && Bytes(ts) == TypeSize(ts[0]);
  }

  /** A variable that resolves is one push and what that push does. */
  lemma PushCompiles(ctx: Context, tok: Token, v: Variable)
    requires tok.kind == Variable && ResolveVariable(ctx.env, tok.text) == Some(v)
    ensures var input := Input(ctx.thisRecord, ctx.otherRecord, []);
      var next := Step(ctx.env.table, ctx.host, input, VariableInstr(v), VmState(0, [], []));
      && (forall value :: next == Some(VmState(1, [value], [])) ==>
           CompileAndRun(ctx, tok) == Some(Ran([VariableType(v)], !v.isThis, Some([value]))))
      && (next == None ==> CompileAndRun(ctx, tok) == Some(Ran([VariableType(v)], !v.isThis, None)))
  {
    hide ResolveVariable, Step;
    var t, instr := VariableType(v), VariableInstr(v);
    OneToken(ctx.env, tok);
    OnePostfix(ctx.env, tok);
    TypeAlone(t);
    assert [] + [instr] == [instr] && [instr] + [End] == [instr, End];
    var none: seq<DataType> := [];
    assert [] + [none] == [none];
    assert Emit(CompileUnit([t], [], [], !v.isThis, [], true), instr, [])
        == Some(CompileUnit([t], [instr], [], !v.isThis, [[]], true));
    assert CompileToken(ctx.env, Plain(tok), EMPTY_UNIT)
        == Some(CompileUnit([t], [instr], [], !v.isThis, [[]], true));
    forall value | Step(ctx.env.table, ctx.host, Input(ctx.thisRecord, ctx.otherRecord, []), instr, VmState(0, [], []))
        == Some(VmState(1, [value], []))
      ensures CompileAndRun(ctx, tok) == Some(Ran([t], !v.isThis, Some([value])))
    {
      RunsOne(ctx, instr, Input(ctx.thisRecord, ctx.otherRecord, []), value);
    }
  }

  lemma TypeAlone(t: DataType)
    ensures PushType([], t) == Some([t])
  {
    assert [] + [t] == [t] && Bytes([]) == 0 && TypeSize(t) <= 16;
  }

  /** A variable reads the field of the first column that carries its name, from the record its prefix selects, as the
      type that column's tag names; it runs into a missing field exactly when the record is too short. */
  lemma VariableIsRead(ctx: Context, tok: Token, isThis: bool, name: string, k: nat, t: DataType)
    requires tok.kind == Variable && Spells(tok.text, isThis, name) && name != "_rownum"
    requires FirstAt(HeadingsOf(ctx.env, isThis), name, k) && HasType(HeadingsOf(ctx.env, isThis)[k], t)
    ensures var fields := Selected(ctx, isThis).fields;
      var value := if k < |fields| then Some(ctx.host.field(t, fields[k])) else None;
      && EvalAtom(ctx, tok) == value
      && CompileAndRun(ctx, tok)
         == Some(Ran([t], !isThis, if value.Some? then Some([value.value]) else None))
  {
    hide FirstAt, HasType, Spells, HeadingType, GetRecordIdentifier;
    SpelledReference(tok.text, isThis, name);
    FoundAt(HeadingsOf(ctx.env, isThis), name, 0, k);
    TypedHeading(HeadingsOf(ctx.env, isThis)[k], t);
    PushCompiles(ctx, tok, Field(isThis, t, k));
    var fields := Selected(ctx, isThis).fields;
    if k < |fields| {
      PushOne(ctx.host.field(t, fields[k]));
    }
  }

  /** `_rownum` is the number of the record its prefix selects. */
  lemma RowNumberIsRead(ctx: Context, tok: Token, isThis: bool)
    requires tok.kind == Variable && Spells(tok.text, isThis, "_rownum")
    ensures var value := UintV(Selected(ctx, isThis).number);
      && EvalAtom(ctx, tok) == Some(value)
      && CompileAndRun(ctx, tok) == Some(Ran([TUint], !isThis, Some([value])))
  {
    hide Spells, GetRecordIdentifier;
    SpelledReference(tok.text, isThis, "_rownum");
    PushCompiles(ctx, tok, RowNumber(isThis));
    PushOne(UintV(Selected(ctx, isThis).number));
  }

  /** There is such a column, and its tag is one of the seven types. */
  ghost predicate HasColumn(headings: seq<string>, name: string) {
    exists k: nat, t :: k < |headings| && FirstAt(headings, name, k) && HasType(headings[k], t)
  }

  /** Nothing else compiles: any other prefix aborts, and so does a name that no heading carries, or that is first
      carried by a heading without the tag of a type. */
  lemma VariableCompilesExactly(ctx: Context, tok: Token)
    requires tok.kind == Variable
    ensures CompileAndRun(ctx, tok).Some? <==> exists isThis, name ::
        Spells(tok.text, isThis, name) && (name == "_rownum" || HasColumn(HeadingsOf(ctx.env, isThis), name))
    ensures HasOtherPrefix(tok.text) ==> CompileAndRun(ctx, tok) == None && EvalAtom(ctx, tok) == None
  {
    hide Spells, HasOtherPrefix, HasColumn, CompileAndRun;
    EveryTextIsSpelled(tok.text);
    if HasOtherPrefix(tok.text) {
      UnknownPrefix(tok.text);
      AbortsUnresolved(ctx, tok);
    }
    forall isThis, name | Spells(tok.text, isThis, name)
      ensures CompileAndRun(ctx, tok).Some? <==> name == "_rownum" || HasColumn(HeadingsOf(ctx.env, isThis), name)
    {
      SpelledReference(tok.text, isThis, name);
      SpelledCompilesExactly(ctx, tok, isThis, name);
    }
    if HasOtherPrefix(tok.text) {
      forall isThis, name ensures !Spells(tok.text, isThis, name) {
        if Spells(tok.text, isThis, name) { SpelledReference(tok.text, isThis, name); }
      }
    }
  }

  lemma AbortsUnresolved(ctx: Context, tok: Token)
    requires tok.kind == Variable && ResolveVariable(ctx.env, tok.text) == None
    ensures CompileAndRun(ctx, tok) == None && EvalAtom(ctx, tok) == None
  {
    hide ResolveVariable;
    OneToken(ctx.env, tok);
    OnePostfix(ctx.env, tok);
  }

  lemma SpelledCompilesExactly(ctx: Context, tok: Token, isThis: bool, name: string)
    requires tok.kind == Variable && Spells(tok.text, isThis, name)
    ensures CompileAndRun(ctx, tok).Some? <==> name == "_rownum" || HasColumn(HeadingsOf(ctx.env, isThis), name)
  {
    hide Spells, CompileAndRun, FirstAt, HasType, HeadingType, GetRecordIdentifier, WithoutTypeTag, Carries;
    var headings := HeadingsOf(ctx.env, isThis);
    SpelledReference(tok.text, isThis, name);
    if name == "_rownum" {
      RowNumberIsRead(ctx, tok, isThis);
    } else if HasColumn(headings, name) {
      var k: nat, t :| k < |headings| && FirstAt(headings, name, k) && HasType(headings[k], t);
      VariableIsRead(ctx, tok, isThis, name, k, t);
    } else {
      NoColumn(headings, name);
      AbortsUnresolved(ctx, tok);
    }
  }

  lemma NoColumn(headings: seq<string>, name: string)
    requires !HasColumn(headings, name)
    ensures FindHeading(headings, name).None? || HeadingType(headings[FindHeading(headings, name).value]).None?
  {
    hide HasType, HeadingType, WithoutTypeTag, Carries, FindHeadingFrom;
    if exists j :: 0 <= j < |headings| && Carries(headings[j], name) {
      var k := FirstCarrier(headings, name, 0);
      FoundAt(headings, name, 0, k);
      forall t ensures HeadingType(headings[k]) != Some(t) {
        TypedHeading(headings[k], t);
        assert FirstAt(headings, name, k) && HasType(headings[k], t) ==> HasColumn(headings, name);
      }
    } else {
      NotFound(headings, name, 0);
    }
  }

  lemma {:induction false} FirstCarrier(headings: seq<string>, name: string, from: nat) returns (k: nat)
    requires from <= |headings| && forall j :: 0 <= j < from ==> !Carries(headings[j], name)
    requires exists j :: 0 <= j < |headings| && Carries(headings[j], name)
    ensures FirstAt(headings, name, k)
    decreases |headings| - from
  {
    hide Carries;
    k := from;
    if !Carries(headings[from], name) {
      k := FirstCarrier(headings, name, from + 1);
    }
  }

  // --- Literals. ---

  /** A literal is what its text converts to, as the type its token says. */
  lemma LiteralIsRead(ctx: Context, tok: Token, t: DataType)
    requires tok.kind in {StringLiteral, IntLiteral, UintLiteral, DoubleLiteral}
    requires t == if tok.kind == StringLiteral then TString else if tok.kind == IntLiteral then TInt
                  else if tok.kind == UintLiteral then TUint else TDouble
    requires tok.kind == StringLiteral ==> |tok.text| < MAX_LITERAL_STRING_COMBINED_SIZE - 1
    ensures var value := ctx.host.literal(t, tok.text);
      EvalAtom(ctx, tok) == Some(value) && CompileAndRun(ctx, tok) == Some(Ran([t], false, Some([value])))
  {
    var instr, lits := PushLiteral(t, 0), [Literal(t, tok.text)];
    OneToken(ctx.env, tok);
    OnePostfix(ctx.env, tok);
    TypeAlone(t);
    PushOne(ctx.host.literal(t, tok.text));
    var none: seq<DataType> := [];
    assert [] + [none] == [none] && [] + [instr] == [instr] && [instr] + [End] == [instr, End];
    assert [] + lits == lits && StringBytes([]) == 0;
    assert AddLiteral([], lits[0]) == Some(lits);
    assert CompileToken(ctx.env, Plain(tok), EMPTY_UNIT) == Some(CompileUnit([t], [instr], lits, false, [none], true));
    RunsOne(ctx, instr, Input(ctx.thisRecord, ctx.otherRecord, lits), ctx.host.literal(t, tok.text));
  }

  lemma BooleanIsRead(ctx: Context, tok: Token)
    requires tok.kind == BoolTrue || tok.kind == BoolFalse
    ensures var value := BoolV(tok.kind == BoolTrue);
      EvalAtom(ctx, tok) == Some(value) && CompileAndRun(ctx, tok) == Some(Ran([TBool], false, Some([value])))
  {
    var instr := PushBool(tok.kind == BoolTrue);
    OneToken(ctx.env, tok);
    OnePostfix(ctx.env, tok);
    TypeAlone(TBool);
    PushOne(BoolV(tok.kind == BoolTrue));
    var none: seq<DataType> := [];
    assert [] + [none] == [none] && [] + [instr] == [instr] && [instr] + [End] == [instr, End];
    assert CompileToken(ctx.env, Plain(tok), EMPTY_UNIT)
        == Some(CompileUnit([TBool], [instr], [], false, [none], true));
    RunsOne(ctx, instr, Input(ctx.thisRecord, ctx.otherRecord, []), BoolV(tok.kind == BoolTrue));
  }

  // --- Whether an expression refers to the other record. ---

  predicate RefersToOther(tok: Token) {
    tok.kind == Variable && ("other." <= tok.text || "prev." <= tok.text)
  }

  predicate AnyRefers(toks: seq<Token>) {
    exists k :: 0 <= k < |toks| && RefersToOther(toks[k])
  }

  lemma AnyConcat(a: seq<Token>, b: seq<Token>)
    ensures AnyRefers(a + b) <==> AnyRefers(a) || AnyRefers(b)
  {
    hide RefersToOther;
    assert forall k :: 0 <= k < |a| ==> (a + b)[k] == a[k];
    assert forall k :: 0 <= k < |b| ==> (a + b)[|a| + k] == b[k];
  }

  lemma AnyInCall(name: string, inner: seq<Token>)
    ensures AnyRefers(CallTokens(name, inner)) <==> AnyRefers(inner)
  {
    AnyConcat([FunctionToken(name)], [OPEN] + (inner + [CLOSE]));
    AnyConcat([OPEN], inner + [CLOSE]);
    AnyConcat(inner, [CLOSE]);
  }

  lemma AtomRefers(env: Env, tok: Token, base: nat)
    requires GenAtom(env, tok, base).Some?
    ensures GenAtom(env, tok, base).value.refersToOther <==> RefersToOther(tok)
  {
    hide GetRecordIdentifier;
    if tok.kind == Variable {
      var text := tok.text;
      EveryTextIsSpelled(text);
      if HasOtherPrefix(text) {
        UnknownPrefix(text);
      } else {
        var isThis, name :| Spells(text, isThis, name);
        SpelledReference(text, isThis, name);
        assert isThis ==> text == "this." + name || '.' !in text;
        assert "other." <= text ==> text[5] == '.' && text[0] == 'o';
        assert "prev." <= text ==> text[4] == '.' && text[0] == 'p';
        assert !isThis ==> "other." <= text || "prev." <= text;
      }
    }
  }

  lemma {:induction false} GenRefers(env: Env, e: Expr, base: nat)
    requires WellWritten(env.table, e) && Gen(env, e, base).Some?
    ensures Gen(env, e, base).value.refersToOther <==> AnyRefers(Infix(e))
    decreases e, 0
  {
    hide RefersToOther, AnyRefers, GenAtom, FnTable.Find, TypeSize, Max, IsOperand, CallTokens;
    match e
    case Atom(tok) =>
      AtomRefers(env, tok, base);
      OnlyOne(tok);
    case Unary(op, x) =>
      GenRefers(env, x, base);
      AnyConcat([op], Infix(x));
      OnlyOne(op);
    case Binary(op, l, r) =>
      var g := Gen(env, l, base).value;
      GenRefers(env, l, base);
      GenRefers(env, r, base + |g.lits|);
      AnyConcat(Infix(l), [op] + Infix(r));
      AnyConcat([op], Infix(r));
      OnlyOne(op);
    case Call(name, args) =>
      ArgsRefer(env, args, base);
      AnyInCall(name, InfixArgs(args));
    case IfThenElse(c, t, f) =>
      var gc := Gen(env, c, base).value;
      var gt := Gen(env, t, base + |gc.lits|).value;
      GenRefers(env, c, base);
      GenRefers(env, t, base + |gc.lits|);
      GenRefers(env, f, base + |gc.lits| + |gt.lits|);
      ConditionalRefers(Infix(c), Infix(t), Infix(f));
    case Paren(x) =>
      GenRefers(env, x, base);
      AnyConcat([OPEN], Infix(x) + [CLOSE]);
      AnyConcat(Infix(x), [CLOSE]);
      OnlyOne(OPEN);
      OnlyOne(CLOSE);
  }

  lemma ConditionalRefers(c: seq<Token>, t: seq<Token>, f: seq<Token>)
    ensures AnyRefers(CallTokens("if", c) + (CallTokens("then", t) + CallTokens("else", f)))
        <==> AnyRefers(c) || AnyRefers(t) || AnyRefers(f)
  {
    hide AnyRefers, CallTokens;
    AnyInCall("if", c);
    AnyInCall("then", t);
    AnyInCall("else", f);
    AnyConcat(CallTokens("if", c), CallTokens("then", t) + CallTokens("else", f));
    AnyConcat(CallTokens("then", t), CallTokens("else", f));
  }

  lemma OnlyOne(tok: Token)
    ensures AnyRefers([tok]) <==> RefersToOther(tok)
    ensures tok.kind != Variable ==> !RefersToOther(tok)
  {
    assert [tok][0] == tok;
  }

  lemma {:induction false} ArgsRefer(env: Env, args: seq<Expr>, base: nat)
    requires (forall a <- args :: WellWritten(env.table, a)) && GenArgs(env, args, base).Some?
    ensures GenArgs(env, args, base).value.refersToOther <==> AnyRefers(InfixArgs(args))
    decreases args, 1
  {
    hide RefersToOther, Gen, Infix;
    if args != [] {
      var g := Gen(env, args[0], base).value;
      GenRefers(env, args[0], base);
      ArgsRefer(env, args[1..], base + |g.lits|);
      AnyConcat(Infix(args[0]), [COMMA] + InfixArgs(args[1..]));
      AnyConcat([COMMA], InfixArgs(args[1..]));
      OnlyOne(COMMA);
    }
  }

  /** Of a whole expression the compiler says that it refers to the other record exactly when a variable in it has one
      of the two prefixes. */
  lemma FlagIsExact(env: Env, e: Expr)
    requires GoodOperators(env.table) && WellWritten(env.table, e) && CompileExpression(env, Infix(e)).Some?
    ensures CompileExpression(env, Infix(e)).value.refersToOther
        <==> exists k :: 0 <= k < |Infix(e)| && Infix(e)[k].kind == Variable
               && ("other." <= Infix(e)[k].text || "prev." <= Infix(e)[k].text)
  {
    hide CompileExpression, Gen, GoodOperators, WellWritten, Infix;
    var at := CompilerProofs.CompileExpressionExact(env, e);
    GenRefers(env, e, 0);
    assert AnyRefers(Infix(e)) <==> exists k :: 0 <= k < |Infix(e)| && RefersToOther(Infix(e)[k]);
  }
}
