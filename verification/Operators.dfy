/** The operators of np1/rel/rlang/fn/op.hpp by their symbols: how tightly each binds, which operands it takes and
    what it returns; and that overload resolution finds exactly these. */
module Operators {
  import opened Wrappers
  import opened DataTypes
  import opened FnTable

  predicate IsTextType(t: DataType) {
    t == TString || t == TIString
  }

  predicate IsNumeric(t: DataType) {
    t == TInt || t == TUint || t == TDouble
  }

  predicate IsInteger(t: DataType) {
    t == TInt || t == TUint
  }

  /** Texts and IP addresses compare with each other, any other type with itself. */
  predicate Comparable(s: DataType, t: DataType) {
    ((IsTextType(s) || s == TIpAddress) && (IsTextType(t) || t == TIpAddress)) || (s == t && t in {TInt, TUint, TBool})
  }

  /** What a binary operator returns for operands of these types; none where it does not take them. */
  function BinaryResult(symbol: string, s: DataType, t: DataType): Option<DataType> {
    if symbol in {"=", "!="} then (if Comparable(s, t) then Some(TBool) else None)
    else if symbol in {"<", ">", "<=", ">="} then
      (if Comparable(s, t) || s == t == TDouble then Some(TBool) else None)
    else if symbol == "+" && IsTextType(s) && IsTextType(t) then
      Some(if s == TString && t == TString then TString else TIString)
    else if symbol in {"+", "-", "*", "/"} then (if s == t && IsNumeric(t) then Some(t) else None)
    else if symbol in {"%", "&", "|"} then (if s == t && IsInteger(t) then Some(t) else None)
    else if symbol in {"&&", "||"} then (if s == t == TBool then Some(TBool) else None)
    else None
  }

  function PrefixResult(symbol: string, t: DataType): Option<DataType> {
    if symbol == "-" then (if t == TInt || t == TDouble then Some(t) else None)
    else if symbol == "~" then (if IsInteger(t) then Some(t) else None)
    else if symbol == "!" then (if t == TBool then Some(TBool) else None)
    else None
  }

  /** A smaller level binds tighter. */
  function Level(symbol: string): nat {
    if symbol in {"*", "/", "%"} then 5
    else if symbol in {"+", "-"} then 6
    else if symbol in {"<", ">", "<=", ">="} then 8
    else if symbol in {"=", "!="} then 9
    else if symbol == "&" then 10
    else if symbol == "|" then 12
    else if symbol == "&&" then 13
    else 14
  }

  function Word(symbol: string): Option<string> {
    if symbol == "!=" then Some("<>")
    else if symbol == "%" then Some("mod")
    else if symbol == "&&" then Some("and")
    else if symbol == "||" then Some("or")
    else if symbol == "!" then Some("not")
    else None
  }

  /** The entry of an operator for operands of these types. */
  predicate IsEntry(info: FnInfo) {
    info.isOperator && info.kind == Ordinary && info.synonym == Word(info.name)
    && if |info.args| == 2 then
         BinaryResult(info.name, info.args[0], info.args[1]) == Some(info.returnType)
         && info.isLeftAssoc && info.precedence == Level(info.name)
       else
         |info.args| == 1 && PrefixResult(info.name, info.args[0]) == Some(info.returnType)
         && !info.isLeftAssoc && info.precedence == 3
  }

  // --- The table holds these entries and no others. ---

  lemma ComparisonRow(symbol: string, synonym: Option<string>, level: nat, withDouble: bool, i: nat)
    requires 5 <= level && i < |Comparison(symbol, synonym, level, withDouble)|
    ensures var info := Comparison(symbol, synonym, level, withDouble)[i];
      && |info.args| == 2 && info == FnInfo(symbol, synonym, info.args, TBool, true, level, true, Ordinary)
      && (Comparable(info.args[0], info.args[1]) || (withDouble && info.args == [TDouble, TDouble]))
  {
  }

  /** Where the overload for two operand types stands. */
  function PairPlace(s: DataType, t: DataType): nat {
    if s == t == TString then 0 else if s == TString && t == TIString then 1
    else if s == TIString && t == TString then 2 else if s == t == TIString then 3
    else if s == t == TInt then 4 else if s == t == TUint then 5 else if s == t == TBool then 6
    else if s == t == TIpAddress then 7 else if s == TString && t == TIpAddress then 8
    else if s == TIpAddress && t == TString then 9 else if s == TIString && t == TIpAddress then 10
    else if s == TIpAddress && t == TIString then 11 else 12
  }

  lemma ComparisonHas(symbol: string, synonym: Option<string>, level: nat, withDouble: bool, s: DataType, t: DataType)
    requires 5 <= level && (Comparable(s, t) || (withDouble && s == t == TDouble))
    ensures FnInfo(symbol, synonym, [s, t], TBool, true, level, true, Ordinary)
         in Comparison(symbol, synonym, level, withDouble)
  {
    var rows := Comparison(symbol, synonym, level, withDouble);
    assert PairPlace(s, t) < |rows|;
    var info := rows[PairPlace(s, t)];
    assert |info.args| == 2 && info.args[0] == s && info.args[1] == t;
    assert info.args == [s, t];
    assert info in rows;
  }

  lemma ArithmeticRows(symbol: string, synonym: Option<string>, level: nat, types: seq<DataType>, info: FnInfo)
    requires 5 <= level
    ensures info in Arithmetic(symbol, synonym, level, types) <==>
      info.returnType in types && info.args == [info.returnType, info.returnType]
      && info == FnInfo(symbol, synonym, info.args, info.returnType, true, level, true, Ordinary)
  {
    var rows := Arithmetic(symbol, synonym, level, types);
    if info.returnType in types {
      var i :| 0 <= i < |types| && types[i] == info.returnType;
      assert rows[i] == FnInfo(symbol, synonym, [types[i], types[i]], types[i], true, level, true, Ordinary);
    }
  }

  lemma PrefixRows(symbol: string, synonym: Option<string>, types: seq<DataType>, info: FnInfo)
    ensures info in Prefix(symbol, synonym, types) <==>
      info.returnType in types && info.args == [info.returnType]
      && info == FnInfo(symbol, synonym, info.args, info.returnType, true, 3, false, Ordinary)
  {
    var rows := Prefix(symbol, synonym, types);
    if info.returnType in types {
      var i :| 0 <= i < |types| && types[i] == info.returnType;
      assert rows[i] == FnInfo(symbol, synonym, [types[i]], types[i], true, 3, false, Ordinary);
    }
  }

  /** An entry with this symbol. */
  predicate IsEntryOf(info: FnInfo, symbol: string) {
    info.name == symbol && IsEntry(info)
  }

  predicate IsEntryOfEither(info: FnInfo, a: string, b: string) {
    IsEntryOf(info, a) || IsEntryOf(info, b)
  }

  lemma ComparisonRows(symbol: string, synonym: Option<string>, level: nat, withDouble: bool, info: FnInfo)
    requires symbol in if withDouble then {"<", ">", "<=", ">="} else {"=", "!="}
    requires synonym == Word(symbol) && level == Level(symbol) && level >= 5
    ensures info in Comparison(symbol, synonym, level, withDouble) <==> IsEntryOf(info, symbol) && |info.args| == 2
  {
    hide Comparison, Comparable;
    var rows := Comparison(symbol, synonym, level, withDouble);
    if info in rows {
      var i :| 0 <= i < |rows| && rows[i] == info;
      ComparisonRow(symbol, synonym, level, withDouble, i);
    }
    if IsEntryOf(info, symbol) && |info.args| == 2 {
      ComparisonHas(symbol, synonym, level, withDouble, info.args[0], info.args[1]);
      assert info.args == [info.args[0], info.args[1]];
      assert info == FnInfo(symbol, synonym, [info.args[0], info.args[1]], TBool, true, level, true, Ordinary);
    }
  }

  lemma ComparisonEntries(info: FnInfo)
    ensures info in ComparisonOperators() <==>
      (IsEntryOf(info, "=") || IsEntryOf(info, "!=") || IsEntryOf(info, "<") || IsEntryOf(info, ">")
       || IsEntryOf(info, "<=") || IsEntryOf(info, ">=")) && |info.args| == 2
  {
    hide Comparison, IsEntryOf;
    ComparisonRows("=", None, 9, false, info);
    ComparisonRows("!=", Some("<>"), 9, false, info);
    ComparisonRows("<", None, 8, true, info);
    ComparisonRows(">", None, 8, true, info);
    ComparisonRows("<=", None, 8, true, info);
    ComparisonRows(">=", None, 8, true, info);
  }

  lemma PlusRows(info: FnInfo)
    ensures info in StringPlus() || info in Arithmetic("+", None, 6, [TInt, TUint, TDouble]) <==>
      IsEntryOf(info, "+") && |info.args| == 2
  {
    hide Arithmetic;
    ArithmeticRows("+", None, 6, [TInt, TUint, TDouble], info);
    if |info.args| == 2 {
      assert info.args == [info.args[0], info.args[1]];
    }
  }

  lemma TwoOperands(symbol: string, synonym: Option<string>, level: nat, types: seq<DataType>, info: FnInfo)
    requires synonym == Word(symbol) && level == Level(symbol) && level >= 5
    requires symbol in {"-", "*", "/", "%", "&", "|", "&&", "||"}
    requires forall t :: t in types <==> BinaryResult(symbol, t, t).Some?
    ensures info in Arithmetic(symbol, synonym, level, types) <==> IsEntryOf(info, symbol) && |info.args| == 2
  {
    hide Arithmetic, Comparable, Level, Word;
    ArithmeticRows(symbol, synonym, level, types, info);
    if |info.args| == 2 {
      assert info.args == [info.args[0], info.args[1]];
    }
  }

  lemma OneOperand(symbol: string, synonym: Option<string>, types: seq<DataType>, info: FnInfo)
    requires synonym == Word(symbol) && forall t :: t in types <==> PrefixResult(symbol, t).Some?
    ensures info in Prefix(symbol, synonym, types) <==> IsEntryOf(info, symbol) && |info.args| == 1
  {
    hide Prefix, Comparable, Level, Word;
    PrefixRows(symbol, synonym, types, info);
    if |info.args| == 1 {
      assert info.args == [info.args[0]];
    }
  }

  lemma ArithmeticEntries(info: FnInfo)
    ensures info in ArithmeticOperators() <==>
      (IsEntryOf(info, "+") && |info.args| == 2)
      || (IsEntryOf(info, "-") && |info.args| == 2) || (IsEntryOf(info, "-") && |info.args| == 1)
      || (IsEntryOf(info, "*") && |info.args| == 2) || (IsEntryOf(info, "/") && |info.args| == 2)
      || (IsEntryOf(info, "%") && |info.args| == 2)
  {
    hide Arithmetic, Prefix, StringPlus, IsEntryOf;
    PlusRows(info);
    TwoOperands("-", None, 6, [TInt, TUint, TDouble], info);
    OneOperand("-", None, [TInt, TDouble], info);
    TwoOperands("*", None, 5, [TInt, TUint, TDouble], info);
    TwoOperands("/", None, 5, [TInt, TUint, TDouble], info);
    TwoOperands("%", Some("mod"), 5, [TInt, TUint], info);
  }

  lemma OtherEntries(info: FnInfo)
    ensures info in BitwiseOperators() <==>
      (IsEntryOf(info, "&") && |info.args| == 2) || (IsEntryOf(info, "|") && |info.args| == 2)
      || (IsEntryOf(info, "~") && |info.args| == 1)
    ensures info in LogicalOperators() <==>
      (IsEntryOf(info, "&&") && |info.args| == 2) || (IsEntryOf(info, "||") && |info.args| == 2)
      || (IsEntryOf(info, "!") && |info.args| == 1)
  {
    hide Arithmetic, Prefix, IsEntryOf;
    TwoOperands("&", None, 10, [TInt, TUint], info);
    TwoOperands("|", None, 12, [TInt, TUint], info);
    OneOperand("~", None, [TInt, TUint], info);
    TwoOperands("&&", Some("and"), 13, [TBool], info);
    TwoOperands("||", Some("or"), 14, [TBool], info);
    OneOperand("!", Some("not"), [TBool], info);
  }

  /** The table has an entry exactly for each operator and the operands it takes, with its result and its level. */
  lemma TableIsExact(info: FnInfo)
    ensures info in OperatorTable() <==> IsEntry(info)
  {
    hide ComparisonOperators, ArithmeticOperators, BitwiseOperators, LogicalOperators, Comparable, Word;
    ComparisonEntries(info);
    ArithmeticEntries(info);
    OtherEntries(info);
  }

  predicate IsSymbol(symbol: string) {
    symbol in {"=", "!=", "<", ">", "<=", ">=", "+", "-", "*", "/", "%", "&", "|", "~", "&&", "||", "!"}
  }

  /** The text is the operator's symbol or the word for it. */
  predicate Means(text: string, symbol: string) {
    IsSymbol(symbol) && (text == symbol || Word(symbol) == Some(text))
  }

  function Result(symbol: string, args: seq<DataType>): Option<DataType> {
    if |args| == 2 then BinaryResult(symbol, args[0], args[1])
    else if |args| == 1 then PrefixResult(symbol, args[0]) else None
  }

  lemma EntryHasSymbol(info: FnInfo)
    requires IsEntry(info)
    ensures IsSymbol(info.name)
  {
  }

  /** No text means two operators. */
  lemma OneMeaning(text: string, a: string, b: string)
    requires Means(text, a) && Means(text, b)
    ensures a == b
  {
  }

  function EntryFor(symbol: string, args: seq<DataType>, result: DataType): FnInfo {
    if |args| == 2 then FnInfo(symbol, Word(symbol), args, result, true, Level(symbol), true, Ordinary)
    else FnInfo(symbol, Word(symbol), args, result, true, 3, false, Ordinary)
  }

  /** An operator's symbol or word, with these operands, is resolved exactly when the operator takes them, to its one
      entry for them, whatever other functions the table has. */
  lemma ResolvedExactly(text: string, symbol: string, args: seq<DataType>, rest: Table)
    requires Means(text, symbol) && forall i :: 0 <= i < |rest| ==> !IsNameMatch(rest[i], text)
    ensures var table := OperatorTable() + rest;
      var found := Find(table, text, args, |args|);
      match Result(symbol, args)
      case None => found.None?
      case Some(result) => found.Some? && table[found.value] == EntryFor(symbol, args, result)
  {
    hide OperatorTable, IsEntry, Word, BinaryResult, PrefixResult, Level;
    var table := OperatorTable() + rest;
    var found := Find(table, text, args, |args|);
    if found.Some? {
      FoundIsEntry(text, symbol, args, rest, found.value);
    }
    if Result(symbol, args).Some? {
      var info := EntryFor(symbol, args, Result(symbol, args).value);
      EntryForIsEntry(symbol, args);
      TableIsExact(info);
      var i :| 0 <= i < |OperatorTable()| && OperatorTable()[i] == info;
      assert table[i] == info && args[|args| - |args|..] == args;
      assert IsMatch(table[i], text, args, |args|);
    }
  }

  lemma EntryForIsEntry(symbol: string, args: seq<DataType>)
    requires Result(symbol, args).Some?
    ensures IsEntry(EntryFor(symbol, args, Result(symbol, args).value))
  {
    hide Word, BinaryResult, PrefixResult, Level;
  }

  lemma FoundIsEntry(text: string, symbol: string, args: seq<DataType>, rest: Table, k: nat)
    requires Means(text, symbol) && forall i :: 0 <= i < |rest| ==> !IsNameMatch(rest[i], text)
    requires k < |OperatorTable() + rest| && IsMatch((OperatorTable() + rest)[k], text, args, |args|)
    ensures Result(symbol, args).Some?
    ensures (OperatorTable() + rest)[k] == EntryFor(symbol, args, Result(symbol, args).value)
  {
    hide OperatorTable, Word, BinaryResult, PrefixResult, Level, IsSymbol;
    var info := (OperatorTable() + rest)[k];
    assert args[|args| - |args|..] == args;
    assert forall i :: 0 <= i < |rest| ==> (OperatorTable() + rest)[|OperatorTable()| + i] == rest[i];
    TableIsExact(info);
    EntryHasSymbol(info);
    OneMeaning(text, symbol, info.name);
  }
}
