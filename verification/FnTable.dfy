/** The table of functions and operators, and overload resolution against it. */
module FnTable {
  import opened Wrappers
  import opened DataTypes
  import opened Tokens

  /** Branches and pushes are emitted by the compiler itself; only ordinary entries compute a value. */
  datatype FnKind = Ordinary | Internal

  datatype FnInfo = FnInfo(
    name: string,
    synonym: Option<string>,
    args: seq<DataType>,
    returnType: DataType,
    isOperator: bool,
    precedence: nat,
    isLeftAssoc: bool,
    kind: FnKind)

  type Table = seq<FnInfo>

  predicate IsNameMatch(info: FnInfo, name: string) {
    info.name == name || info.synonym == Some(name)
  }

  /** Does this overload accept a call with `argCount` arguments on top of the simulated stack? */
  predicate IsMatch(info: FnInfo, name: string, sim: seq<DataType>, argCount: int) {
    && IsNameMatch(info, name)
    && |info.args| <= |sim|
    && |info.args| == argCount
    && sim[|sim| - |info.args|..] == info.args
  }

  /** The first matching overload, in table order. */
  function FindFrom(table: Table, k: nat, name: string, sim: seq<DataType>, argCount: int): (r: Option<nat>)
    requires k <= |table|
    ensures r.Some? ==> k <= r.value < |table| && IsMatch(table[r.value], name, sim, argCount)
    ensures r.Some? ==> forall j :: k <= j < r.value ==> !IsMatch(table[j], name, sim, argCount)
    ensures r.None? ==> forall j :: k <= j < |table| ==> !IsMatch(table[j], name, sim, argCount)
    decreases |table| - k
  {
    if k == |table| then None
    else if IsMatch(table[k], name, sim, argCount) then Some(k)
    else FindFrom(table, k + 1, name, sim, argCount)
  }

  function Find(table: Table, name: string, sim: seq<DataType>, argCount: int): Option<nat> {
    FindFrom(table, 0, name, sim, argCount)
  }

  /** Overload resolution looks at the arguments only, never at what lies below them. */
  lemma {:induction false} FindIgnoresLowerStack(table: Table, k: nat, name: string, low: seq<DataType>,
      args: seq<DataType>)
    requires k <= |table|
    ensures FindFrom(table, k, name, low + args, |args|) == FindFrom(table, k, name, args, |args|)
    decreases |table| - k
  {
    if k < |table| {
      var info := table[k];
      if |info.args| == |args| {
        assert (low + args)[|low + args| - |info.args|..] == args;
        assert args[|args| - |info.args|..] == args;
      }
      FindIgnoresLowerStack(table, k + 1, name, low, args);
    }
  }

  /** The operator a token stands for, if its function id names one. */
  function OperatorOf(table: Table, tok: Token): Option<FnInfo> {
    if tok.opId.Some? && tok.opId.value < |table| && table[tok.opId.value].isOperator
    then Some(table[tok.opId.value]) else None
  }

  predicate IsUnaryOperator(table: Table, tok: Token) {
    && tok.kind.Operator?
    && OperatorOf(table, tok).Some?
    && |OperatorOf(table, tok).value.args| == 1
  }

  predicate IsBinaryOperator(table: Table, tok: Token) {
    && tok.kind.Operator?
    && OperatorOf(table, tok).Some?
    && |OperatorOf(table, tok).value.args| == 2
  }

  function Precedence(table: Table, tok: Token): nat
    requires OperatorOf(table, tok).Some?
  {
    OperatorOf(table, tok).value.precedence
  }

  /** The shape every operator entry of op.hpp has: binary operators group to the left, unary ones
      are prefix, group to the right and bind tighter than every binary operator. */
  ghost predicate GoodOperators(table: Table) {
    && (forall i :: 0 <= i < |table| && table[i].isOperator ==> |table[i].args| == 1 || |table[i].args| == 2)
    && (forall i :: 0 <= i < |table| && table[i].isOperator ==> (table[i].isLeftAssoc <==> |table[i].args| == 2))
    && (forall i, j :: 0 <= i < |table| && 0 <= j < |table| && table[i].isOperator && table[j].isOperator
                       && |table[i].args| == 1 ==>
                       table[i].precedence <= table[j].precedence)
    && (forall i, j :: 0 <= i < |table| && 0 <= j < |table| && table[i].isOperator && table[j].isOperator
                       && |table[i].args| == 1 && |table[j].args| == 2 ==>
                       table[i].precedence < table[j].precedence)
  }

  /** No entry that answers to this name is one of the internal ones. */
  predicate IsOrdinaryName(table: Table, name: string) {
    forall i :: 0 <= i < |table| && IsNameMatch(table[i], name) ==> table[i].kind.Ordinary?
  }

  // ----- The operators of op.hpp

  predicate IsOperatorEntry(info: FnInfo) {
    && info.isOperator
    && ((|info.args| == 1 && !info.isLeftAssoc && info.precedence == 3)
        || (|info.args| == 2 && info.isLeftAssoc && 5 <= info.precedence))
  }

  predicate AllOperators(table: Table) {
    forall i :: 0 <= i < |table| ==> IsOperatorEntry(table[i])
  }

  function Comparison(name: string, synonym: Option<string>, precedence: nat, withDouble: bool): (r: Table)
    requires 5 <= precedence
    ensures AllOperators(r)
  {
    var pairs := [
      [TString, TString], [TString, TIString], [TIString, TString], [TIString, TIString],
      [TInt, TInt], [TUint, TUint], [TBool, TBool],
      [TIpAddress, TIpAddress], [TString, TIpAddress], [TIpAddress, TString],
      [TIString, TIpAddress], [TIpAddress, TIString]]
      + if withDouble then [[TDouble, TDouble]] else [];
    seq(|pairs|, i requires 0 <= i < |pairs| => FnInfo(name, synonym, pairs[i], TBool, true, precedence, true,
      Ordinary))
  }

  function Arithmetic(name: string, synonym: Option<string>, precedence: nat, types: seq<DataType>): (r: Table)
    requires 5 <= precedence
    ensures AllOperators(r)
  {
    seq(|types|, i requires 0 <= i < |types| =>
      FnInfo(name, synonym, [types[i], types[i]], types[i], true, precedence, true, Ordinary))
  }

  function Prefix(name: string, synonym: Option<string>, types: seq<DataType>): (r: Table)
    ensures AllOperators(r)
  {
    seq(|types|, i requires 0 <= i < |types| =>
      FnInfo(name, synonym, [types[i]], types[i], true, 3, false, Ordinary))
  }

  function StringPlus(): (r: Table)
    ensures AllOperators(r)
  {
    [ FnInfo("+", None, [TString, TString], TString, true, 6, true, Ordinary),
      FnInfo("+", None, [TIString, TString], TIString, true, 6, true, Ordinary),
      FnInfo("+", None, [TString, TIString], TIString, true, 6, true, Ordinary),
      FnInfo("+", None, [TIString, TIString], TIString, true, 6, true, Ordinary)]
  }

  function Append(a: Table, b: Table): (r: Table)
    requires AllOperators(a) && AllOperators(b)
    ensures AllOperators(r)
  {
    a + b
  }

  function ComparisonOperators(): (r: Table)
    ensures AllOperators(r)
  {
    Append(Append(Comparison("=", None, 9, false), Comparison("!=", Some("<>"), 9, false)),
           Append(Append(Comparison("<", None, 8, true), Comparison(">", None, 8, true)),
                  Append(Comparison("<=", None, 8, true), Comparison(">=", None, 8, true))))
  }

  function ArithmeticOperators(): (r: Table)
    ensures AllOperators(r)
  {
    Append(Append(Append(StringPlus(), Arithmetic("+", None, 6, [TInt, TUint, TDouble])),
                  Append(Arithmetic("-", None, 6, [TInt, TUint, TDouble]), Prefix("-", None, [TInt, TDouble]))),
           Append(Append(Arithmetic("*", None, 5, [TInt, TUint, TDouble]),
             Arithmetic("/", None, 5, [TInt, TUint, TDouble])),
                  Arithmetic("%", Some("mod"), 5, [TInt, TUint])))
  }

  function BitwiseOperators(): (r: Table)
    ensures AllOperators(r)
  {
    Append(Append(Arithmetic("&", None, 10, [TInt, TUint]), Arithmetic("|", None, 12, [TInt, TUint])),
           Prefix("~", None, [TInt, TUint]))
  }

  function LogicalOperators(): (r: Table)
    ensures AllOperators(r)
  {
    Append(Append(Arithmetic("&&", Some("and"), 13, [TBool]), Arithmetic("||", Some("or"), 14, [TBool])),
           Prefix("!", Some("not"), [TBool]))
  }

  /** Every operator overload, in table order. */
  function OperatorTable(): (r: Table)
    ensures AllOperators(r)
  {
    Append(Append(ComparisonOperators(), ArithmeticOperators()), Append(BitwiseOperators(), LogicalOperators()))
  }

  /** The theorems about expressions ask for `GoodOperators`; the real operator levels have that
      shape, whatever non-operator entries follow them in the table. */
  lemma OperatorTableIsGood(rest: Table)
    requires forall i :: 0 <= i < |rest| ==> !rest[i].isOperator
    ensures GoodOperators(OperatorTable() + rest)
  {
    var ops := OperatorTable();
    assert AllOperators(ops);
    OperatorsFirstIsGood(ops, rest);
  }

  lemma OperatorsFirstIsGood(ops: Table, rest: Table)
    requires AllOperators(ops)
    requires forall i :: 0 <= i < |rest| ==> !rest[i].isOperator
    ensures GoodOperators(ops + rest)
  {
    var t := ops + rest;
    forall i | 0 <= i < |t| && t[i].isOperator
      ensures IsOperatorEntry(t[i])
    {
      assert i < |ops|;
    }
  }
}
