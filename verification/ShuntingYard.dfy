/** Infix tokens to postfix, following np1/rel/rlang/shunting_yard.hpp. */
module ShuntingYard {
  import opened Wrappers
  import opened DataTypes
  import opened Tokens
  import opened FnTable

  /** A token with what the parser learnt about it; -1 stands for the source's (size_t)-1. */
  datatype ParsedToken = ParsedToken(tok: Token, argCount: int, start: int, end: int)

  function Plain(tok: Token): ParsedToken {
    ParsedToken(tok, -1, -1, -1)
  }

  datatype State = State(stack: seq<ParsedToken>, out: seq<ParsedToken>)

  function Top(s: seq<ParsedToken>): ParsedToken
    requires s != []
  {
    s[|s| - 1]
  }

  function Below(s: seq<ParsedToken>): seq<ParsedToken>
    requires s != []
  {
    s[..|s| - 1]
  }

  /** Move tokens to the output until an open parenthesis is on top. */
  function PopToParen(st: State): (r: State)
    ensures r.stack == [] || Top(r.stack).tok.kind == OpenParen
    decreases |st.stack|
  {
    if st.stack == [] || Top(st.stack).tok.kind == OpenParen then st
    else PopToParen(State(Below(st.stack), st.out + [Top(st.stack)]))
  }

  predicate IsGreaterPrecedence(one: FnInfo, two: FnInfo) {
    if one.isLeftAssoc then one.precedence >= two.precedence else one.precedence > two.precedence
  }

  /** Does the operator `info` push the token on top of the stack out to the output? */
  predicate Yields(table: Table, info: FnInfo, top: ParsedToken) {
    OperatorOf(table, top.tok).Some? && IsGreaterPrecedence(info, OperatorOf(table, top.tok).value)
  }

  function PopOperators(table: Table, info: FnInfo, st: State): State
    decreases |st.stack|
  {
    if st.stack == [] || !Yields(table, info, Top(st.stack)) then st
    else PopOperators(table, info, State(Below(st.stack), st.out + [Top(st.stack)]))
  }

  /** The effect of one infix token; `None` where the source aborts. */
  function ShuntToken(table: Table, st: State, tok: Token): Option<State> {
    match tok.kind
    case Unknown => None
    case Semicolon => None
    case Function =>
      Some(State(st.stack + [ParsedToken(tok, 0, |st.out|, -1)], st.out))
    case Comma =>
      var popped := PopToParen(st);
      if popped.stack == [] then None else
      var below := Below(popped.stack);
      if below == [] || Top(below).tok.kind != Function then None else
      var counted := Top(below).(argCount := Top(below).argCount + 1);
      Some(State(Below(below) + [counted, Top(popped.stack)], popped.out))
    case OpenParen =>
      Some(State(st.stack + [Plain(tok)], st.out))
    case CloseParen =>
      var popped := PopToParen(st);
      if popped.stack == [] then None else
      var below := Below(popped.stack);
      if below == [] || Top(below).tok.kind != Function then Some(State(below, popped.out)) else
      var f := Top(below);
      var counted := if |popped.out| != f.start then f.(argCount := f.argCount + 1) else f;
      Some(State(Below(below), popped.out + [counted.(end := |popped.out|)]))
    case Operator =>
      if tok.opId.None? || tok.opId.value >= |table| then None else
      var info := table[tok.opId.value];
      var popped := PopOperators(table, info, st);
      Some(State(popped.stack + [ParsedToken(tok, |info.args|, -1, -1)], popped.out))
    case _ =>
      Some(State(st.stack, st.out + [Plain(tok)]))
  }

  function ShuntAll(table: Table, st: State, infix: seq<Token>): Option<State>
    decreases |infix|
  {
    if infix == [] then Some(st)
    else
      var next :- ShuntToken(table, st, infix[0]);
      ShuntAll(table, next, infix[1..])
  }

  /** Empty the stack into the output; a parenthesis left over is an error. */
  function Drain(st: State): Option<seq<ParsedToken>>
    decreases |st.stack|
  {
    if st.stack == [] then Some(st.out)
    else if Top(st.stack).tok.kind == OpenParen || Top(st.stack).tok.kind == CloseParen then None
    else Drain(State(Below(st.stack), st.out + [Top(st.stack)]))
  }

  function ParseSpec(table: Table, infix: seq<Token>): Option<seq<ParsedToken>> {
    var st :- ShuntAll(table, State([], []), infix);
    Drain(st)
  }

  // ----- The parser itself

  method PopUntilParen(stack0: seq<ParsedToken>, out0: seq<ParsedToken>)
    returns (stack: seq<ParsedToken>, out: seq<ParsedToken>)
    ensures State(stack, out) == PopToParen(State(stack0, out0))
  {
    stack, out := stack0, out0;
    while stack != [] && Top(stack).tok.kind != OpenParen
      invariant PopToParen(State(stack, out)) == PopToParen(State(stack0, out0))
      decreases |stack|
    {
      out := out + [Top(stack)];
      stack := Below(stack);
    }
  }

  /** `parse`: `ok` is false where the source aborts with an error message. */
  method Parse(table: Table, infix: seq<Token>) returns (ok: bool, postfix: seq<ParsedToken>)
    ensures ok == ParseSpec(table, infix).Some?
    ensures ok ==> postfix == ParseSpec(table, infix).value
  {
    var stack: seq<ParsedToken> := [];
    postfix := [];
    ok := true;
    var i := 0;
    while i < |infix|
      invariant i <= |infix|
      invariant ShuntAll(table, State(stack, postfix), infix[i..]) == ShuntAll(table, State([], []), infix)
    {
      var tok := infix[i];
      ghost var before := State(stack, postfix);
      assert infix[i..][0] == tok && infix[i..][1..] == infix[i + 1..];
      match tok.kind {
        case Unknown | Semicolon =>
          return false, postfix;
        case Function =>
          stack := stack + [ParsedToken(tok, 0, |postfix|, -1)];
        case Comma =>
          stack, postfix := PopUntilParen(stack, postfix);
          if stack == [] { return false, postfix; }
          var openParen := Top(stack);
          stack := Below(stack);
          if stack == [] || Top(stack).tok.kind != Function { return false, postfix; }
          var f := Top(stack);
          stack := Below(stack) + [f.(argCount := f.argCount + 1), openParen];
        case OpenParen =>
          stack := stack + [Plain(tok)];
        case CloseParen =>
          stack, postfix := PopUntilParen(stack, postfix);
          if stack == [] { return false, postfix; }
          stack := Below(stack);
          if stack != [] && Top(stack).tok.kind == Function {
            var f := Top(stack);
            if |postfix| != f.start { f := f.(argCount := f.argCount + 1); }
            f := f.(end := |postfix|);
            stack := Below(stack);
            postfix := postfix + [f];
          }
        case Operator =>
          if tok.opId.None? || tok.opId.value >= |table| { return false, postfix; }
          var info := table[tok.opId.value];
          while stack != [] && Yields(table, info, Top(stack))
            invariant PopOperators(table, info, State(stack, postfix)) == PopOperators(table, info, before)
            decreases |stack|
          {
            postfix := postfix + [Top(stack)];
            stack := Below(stack);
          }
          stack := stack + [ParsedToken(tok, |info.args|, -1, -1)];
        case _ =>
          postfix := postfix + [Plain(tok)];
      }
      assert ShuntToken(table, before, tok) == Some(State(stack, postfix));
      i := i + 1;
    }
    assert infix[i..] == [];
    ghost var whole := State(stack, postfix);
    while stack != []
      invariant Drain(State(stack, postfix)) == Drain(whole)
      decreases |stack|
    {
      if Top(stack).tok.kind == OpenParen || Top(stack).tok.kind == CloseParen {
        return false, postfix;
      }
      postfix := postfix + [Top(stack)];
      stack := Below(stack);
    }
  }
}
