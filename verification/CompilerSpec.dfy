/** What the single-expression compiler does with a list of parsed tokens, step for step, on values.
    An abort in the source is `None`. */
module CompilerSpec {
  import opened Wrappers
  import opened DataTypes
  import opened Tokens
  import opened FnTable
  import opened ShuntingYard
  import opened Headings

  /** One vm_function_call: what to do and its data word. `End` is the sentinel the VM adds. */
  datatype Instr =
    | PushLiteral(t: DataType, literal: nat)
    | PushBool(b: bool)
    | PushField(isThis: bool, t: DataType, field: nat)
    | PushRowNumber(isThis: bool)
    | CallFn(id: nat)
    | If(offset: nat)
    | Goto(offset: nat)
    | End

  /** The data word of a branch that is not back-patched yet. */
  const UNPATCHED: nat := 0xFFFF_FFFF_FFFF_FFFF

  const MAX_NUMBER_FUNCTION_CALLS: nat := 1000
  const MAX_NUMBER_LITERALS: nat := 100
  const MAX_LITERAL_STRING_COMBINED_SIZE: nat := 4096

  datatype Literal = Literal(t: DataType, text: string)

  /** Bytes of literal storage in use: each string with its terminator. */
  function StringBytes(lits: seq<Literal>): nat {
    if lits == [] then 0
    else
      var last := lits[|lits| - 1];
      StringBytes(lits[..|lits| - 1]) + if last.t == TString then |last.text| + 1 else 0
  }

  datatype Env = Env(table: Table, thisHeadings: seq<string>, otherHeadings: seq<string>)

  /** Everything the compiler has produced so far. `at` remembers, for each instruction, the simulated
      stack it was emitted with, and `restores` whether every branch so far left the stack below its
      result as it found it; the source keeps neither. */
  datatype CompileUnit = CompileUnit(
    sim: seq<DataType>,
    code: seq<Instr>,
    lits: seq<Literal>,
    refersToOther: bool,
    at: seq<seq<DataType>>,
    restores: bool)

  const EMPTY_UNIT := CompileUnit([], [], [], false, [], true)

  function PushType(sim: seq<DataType>, t: DataType): Option<seq<DataType>> {
    if Bytes(sim) + TypeSize(t) < MAX_STACK_BYTE_SIZE then Some(sim + [t]) else None
  }

  function Emit(u: CompileUnit, instr: Instr, simBefore: seq<DataType>): (r: Option<CompileUnit>)
    ensures r.Some? ==> |r.value.code| == |u.code| + 1
  {
    if |u.code| + 1 < MAX_NUMBER_FUNCTION_CALLS
    then Some(u.(code := u.code + [instr], at := u.at + [simBefore])) else None
  }

  function AddLiteral(lits: seq<Literal>, literal: Literal): Option<seq<Literal>> {
    if |lits| < MAX_NUMBER_LITERALS
       && (literal.t == TString ==> StringBytes(lits) + |literal.text| + 1 < MAX_LITERAL_STRING_COMBINED_SIZE)
    then Some(lits + [literal]) else None
  }

  function LiteralType(k: TokenKind): Option<DataType> {
    match k
    case StringLiteral => Some(TString)
    case IntLiteral => Some(TInt)
    case UintLiteral => Some(TUint)
    case DoubleLiteral => Some(TDouble)
    case _ => None
  }

  datatype Variable = RowNumber(isThis: bool) | Field(isThis: bool, t: DataType, field: nat)

  function VariableType(v: Variable): DataType {
    if v.RowNumber? then TUint else v.t
  }

  function VariableInstr(v: Variable): Instr {
    match v
    case RowNumber(isThis) => PushRowNumber(isThis)
    case Field(isThis, t, field) => PushField(isThis, t, field)
  }

  function ResolveVariable(env: Env, text: string): Option<Variable> {
    var reference :- GetRecordIdentifier(text);
    if reference.name == "_rownum" then Some(RowNumber(reference.isThis)) else
    var headings := if reference.isThis then env.thisHeadings else env.otherHeadings;
    var field :- FindHeading(headings, reference.name);
    var t :- HeadingType(headings[field]);
    Some(Field(reference.isThis, t, field))
  }

  function CompileLiteral(tok: Token, t: DataType, u: CompileUnit): Option<CompileUnit> {
    var sim :- PushType(u.sim, t);
    var lits :- AddLiteral(u.lits, Literal(t, tok.text));
    Emit(u.(sim := sim, lits := lits), PushLiteral(t, |u.lits|), u.sim)
  }

  function CompileBool(b: bool, u: CompileUnit): Option<CompileUnit> {
    var sim :- PushType(u.sim, TBool);
    Emit(u.(sim := sim), PushBool(b), u.sim)
  }

  function CompileVariable(v: Variable, u: CompileUnit): Option<CompileUnit> {
    var sim :- PushType(u.sim, VariableType(v));
    Emit(u.(sim := sim, refersToOther := u.refersToOther || !v.isThis), VariableInstr(v), u.sim)
  }

  function CompileCall(id: nat, info: FnInfo, u: CompileUnit): Option<CompileUnit>
    requires |info.args| <= |u.sim|
  {
    var sim :- PushType(u.sim[..|u.sim| - |info.args|], info.returnType);
    Emit(u.(sim := sim), CallFn(id), u.sim)
  }

  /** `create_function_call` and the push of the call it makes. */
  function CompileToken(env: Env, pt: ParsedToken, u: CompileUnit): (r: Option<CompileUnit>)
    ensures r.Some? ==> |r.value.code| == |u.code| + 1
  {
    match pt.tok.kind
    case StringLiteral | IntLiteral | UintLiteral | DoubleLiteral =>
      CompileLiteral(pt.tok, LiteralType(pt.tok.kind).value, u)
    case BoolTrue => CompileBool(true, u)
    case BoolFalse => CompileBool(false, u)
    case Variable =>
      var v :- ResolveVariable(env, pt.tok.text);
      CompileVariable(v, u)
    case _ =>
      var id :- Find(env.table, pt.tok.text, u.sim, pt.argCount);
      CompileCall(id, env.table[id], u)
  }

  /** `mandatory_find_function_starting_at` */
  function FindStartingAt(toks: seq<ParsedToken>, pos: int, i: nat, iz: nat, name: string): (r: Option<nat>)
    requires iz <= |toks|
    ensures r.Some? ==> i <= r.value < iz && toks[r.value].start == pos && toks[r.value].tok.text == name
    decreases iz - i
  {
    if i >= iz then None
    else if toks[i].start == pos && toks[i].tok.text == name then Some(i)
    else FindStartingAt(toks, pos, i + 1, iz, name)
  }

  predicate IsIf(pt: ParsedToken) {
    pt.tok.kind.Function? && pt.tok.text == "if"
  }

  /** Compile tokens i .. iz and check that they leave exactly one more value. */
  function CompileRange(env: Env, toks: seq<ParsedToken>, i: nat, iz: nat, u: CompileUnit): (r: Option<CompileUnit>)
    requires i <= iz <= |toks|
    ensures r.Some? ==> |r.value.sim| == |u.sim| + 1
    ensures r.Some? ==> |u.code| <= |r.value.code|
    decreases iz - i, 2
  {
    var v :- CompileLoop(env, toks, i, iz, u);
    if |v.sim| == |u.sim| + 1 then Some(v) else None
  }

  function CompileLoop(env: Env, toks: seq<ParsedToken>, i: nat, iz: nat, u: CompileUnit): (r: Option<CompileUnit>)
    requires i <= iz <= |toks|
    ensures r.Some? ==> |u.code| <= |r.value.code|
    decreases iz - i, 1
  {
    if i == iz then Some(u)
    else if IsIf(toks[i]) then
      var w :- CompileConditional(env, toks, i, iz, u);
      CompileLoop(env, toks, w.0 + 1, iz, w.1)
    else
      var v :- CompileToken(env, toks[i], u);
      CompileLoop(env, toks, i + 1, iz, v)
  }

  /** An `if` with its branches: the offset of its `else`, and the unit after it. */
  function CompileConditional(env: Env, toks: seq<ParsedToken>, i: nat, iz: nat, u: CompileUnit)
    : (r: Option<(nat, CompileUnit)>)
    requires i < iz <= |toks|
    ensures r.Some? ==> i < r.value.0 < iz && |u.code| <= |r.value.1.code|
    decreases iz - i, 0
  {
    if u.sim == [] || u.sim[|u.sim| - 1] != TBool || toks[i].argCount != 1 then None else
    var low := u.sim[..|u.sim| - 1];
    var thenI :- FindStartingAt(toks, toks[i].end + 1, i + 1, iz, "then");
    var elseI :- FindStartingAt(toks, toks[thenI].end + 1, thenI + 1, iz, "else");
    if toks[thenI].argCount != 1 then None else
    var thn :- CompileThen(env, toks, i, thenI, u, low);
    var after :- CompileElse(env, toks, thenI, elseI, thn.0, low, thn.1);
    Some((elseI, after))
  }

  /** The branch taken when the condition holds: the jump around it, its code, and the jump over the
      other branch. The jump around it is patched once its length is known. */
  function CompileThen(
    env: Env, toks: seq<ParsedToken>, i: nat, thenI: nat, u: CompileUnit, low: seq<DataType>)
    : (r: Option<(CompileUnit, DataType)>)
    requires i < thenI <= |toks|
    ensures r.Some? ==> |u.code| + 2 <= |r.value.0.code|
    decreases thenI - i - 1, 3
  {
    var ifAt := |u.code|;
    var u1 :- Emit(u.(sim := low), If(UNPATCHED), u.sim);
    var u2 :- CompileRange(env, toks, i + 1, thenI, u1);
    var u3 := u2.(code := u2.code[ifAt := If(|u2.code| - ifAt + 1)]);
    var afterThen := u3.sim[..|u3.sim| - 1];
    var u4 :- Emit(u3.(sim := afterThen, restores := u3.restores && afterThen == low), Goto(UNPATCHED), u3.sim);
    Some((u4, u3.sim[|u3.sim| - 1]))
  }

  /** The other branch; it must leave the same type. */
  function CompileElse(
    env: Env, toks: seq<ParsedToken>, thenI: nat, elseI: nat, u: CompileUnit, low: seq<DataType>, thenType: DataType)
    : (r: Option<CompileUnit>)
    requires thenI < elseI <= |toks| && u.code != []
    ensures r.Some? ==> |u.code| <= |r.value.code|
    decreases elseI - thenI - 1, 3
  {
    var gotoAt := |u.code| - 1;
    var u5 :- CompileRange(env, toks, thenI + 1, elseI, u);
    var u6 := u5.(code := u5.code[gotoAt := Goto(|u5.code| - gotoAt)]);
    if u6.sim[|u6.sim| - 1] != thenType then None else
    Some(u6.(restores := u6.restores && u6.sim[..|u6.sim| - 1] == low))
  }

  /** A whole expression from its postfix tokens. */
  function CompilePostfix(env: Env, toks: seq<ParsedToken>): Option<CompileUnit> {
    CompileRange(env, toks, 0, |toks|, EMPTY_UNIT)
  }

  /** From infix tokens; an empty expression is an error. */
  function CompileExpression(env: Env, infix: seq<Token>): Option<CompileUnit> {
    var postfix :- ParseSpec(env.table, infix);
    if postfix == [] then None else CompilePostfix(env, postfix)
  }
}
