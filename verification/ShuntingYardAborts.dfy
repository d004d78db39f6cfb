/** Exactly which token lists the parser of np1/rel/rlang/shunting_yard.hpp accepts, in the grammar or not. */
module ShuntingYardAborts {
  import opened Wrappers
  import opened Tokens
  import opened FnTable
  import opened ShuntingYard

  /** As the tokens arrive: a name counts as a function only in front of a parenthesis, and only operators stand for
      table entries. */
  predicate Marked(infix: seq<Token>) {
    forall i :: 0 <= i < |infix| ==>
      && (infix[i].kind == Function ==> i + 1 < |infix| && infix[i + 1].kind == OpenParen)
      && (infix[i].opId.Some? ==> infix[i].kind == Operator)
  }

  /** Where the parentheses stand that are open behind the first `n` tokens. */
  function OpenAt(infix: seq<Token>, n: nat): (r: seq<nat>)
    requires n <= |infix|
    ensures forall k :: 0 <= k < |r| ==> r[k] < n && infix[r[k]].kind == OpenParen
  {
    if n == 0 then []
    else
      var before := OpenAt(infix, n - 1);
      if infix[n - 1].kind == OpenParen then before + [n - 1]
      else if infix[n - 1].kind == CloseParen && before != [] then before[..|before| - 1]
      else before
  }

  /** The parenthesis at `p` belongs to a call. */
  predicate IsCallParen(infix: seq<Token>, p: nat)
    requires p < |infix|
  {
    p > 0 && infix[p - 1].kind == Function
  }

  /** What the token at `i` asks for: a kind that is allowed, an operator of the table, a parenthesis to close, and for
      a comma that the innermost open parenthesis is that of a call. */
  predicate Allowed(table: Table, infix: seq<Token>, i: nat)
    requires i < |infix|
  {
    var open := OpenAt(infix, i);
    match infix[i].kind
    case Unknown | Semicolon => false
    case Operator => infix[i].opId.Some? && infix[i].opId.value < |table|
    case CloseParen => open != []
    case Comma => open != [] && IsCallParen(infix, open[|open| - 1])
    case _ => true
  }

  predicate AllAllowed(table: Table, infix: seq<Token>, from: nat) {
    forall i :: from <= i < |infix| ==> Allowed(table, infix, i)
  }

  // --- The operator stack and the open parentheses. ---

  /** The stack holds the open parentheses, each over its function if it has one; `called` says that the top is a
      function that waits for its parenthesis. */
  predicate Shape(infix: seq<Token>, stack: seq<ParsedToken>, open: seq<nat>, called: bool)
    requires forall k :: 0 <= k < |open| ==> open[k] < |infix|
    decreases |stack|
  {
    if stack == [] then open == [] && !called
    else
      var top, below := Top(stack).tok, Below(stack);
      match top.kind
      case Operator => !called && Shape(infix, below, open, false)
      case Function => called && top.opId.None? && Shape(infix, below, open, false)
      case OpenParen =>
        !called && top.opId.None? && open != []
        && Shape(infix, below, open[..|open| - 1], IsCallParen(infix, open[|open| - 1]))
      case _ => false
  }

  lemma {:induction false} PoppedToParen(infix: seq<Token>, st: State, open: seq<nat>, called: bool)
    requires (forall k :: 0 <= k < |open| ==> open[k] < |infix|) && Shape(infix, st.stack, open, called)
    ensures var stack := PopToParen(st).stack;
      if open == [] then stack == [] else stack != [] && Shape(infix, stack, open, false)
    decreases |st.stack|
  {
    if st.stack != [] && Top(st.stack).tok.kind != OpenParen {
      PoppedToParen(infix, State(Below(st.stack), st.out + [Top(st.stack)]), open, false);
    }
  }

  lemma {:induction false} PoppedOperators(table: Table, info: FnInfo, infix: seq<Token>, st: State, open: seq<nat>)
    requires (forall k :: 0 <= k < |open| ==> open[k] < |infix|) && Shape(infix, st.stack, open, false)
    ensures Shape(infix, PopOperators(table, info, st).stack, open, false)
    decreases |st.stack|
  {
    if st.stack != [] && Yields(table, info, Top(st.stack)) {
      PoppedOperators(table, info, infix, State(Below(st.stack), st.out + [Top(st.stack)]), open);
    }
  }

  lemma {:induction false} Drained(infix: seq<Token>, st: State, open: seq<nat>, called: bool)
    requires (forall k :: 0 <= k < |open| ==> open[k] < |infix|) && Shape(infix, st.stack, open, called)
    ensures Drain(st).Some? <==> open == []
    decreases |st.stack|
  {
    if st.stack != [] && Top(st.stack).tok.kind != OpenParen {
      Drained(infix, State(Below(st.stack), st.out + [Top(st.stack)]), open, false);
    }
  }

  lemma Pushed(infix: seq<Token>, stack: seq<ParsedToken>, pt: ParsedToken)
    ensures Top(stack + [pt]) == pt && Below(stack + [pt]) == stack
  {
  }

  predicate AfterFunction(infix: seq<Token>, n: nat)
    requires n <= |infix|
  {
    n > 0 && infix[n - 1].kind == Function
  }

  /** One token keeps the shape, or stops the parser exactly when it is not allowed. */
  lemma TokenShape(table: Table, infix: seq<Token>, n: nat, st: State)
    requires Marked(infix) && n < |infix| && Shape(infix, st.stack, OpenAt(infix, n), AfterFunction(infix, n))
    ensures ShuntToken(table, st, infix[n]).Some? <==> Allowed(table, infix, n)
    ensures ShuntToken(table, st, infix[n]).Some? ==>
      Shape(infix, ShuntToken(table, st, infix[n]).value.stack, OpenAt(infix, n + 1), AfterFunction(infix, n + 1))
  {
    hide PopToParen, PopOperators, Yields;
    var tok, open := infix[n], OpenAt(infix, n);
    match tok.kind
    case Function => Pushed(infix, st.stack, ParsedToken(tok, 0, |st.out|, -1));
    case OpenParen =>
      Pushed(infix, st.stack, Plain(tok));
      assert (open + [n])[..|open|] == open;
    case Operator =>
      if Allowed(table, infix, n) {
        var info := table[tok.opId.value];
        PoppedOperators(table, info, infix, st, open);
        Pushed(infix, PopOperators(table, info, st).stack, ParsedToken(tok, |info.args|, -1, -1));
      }
    case Comma => CommaShape(table, infix, n, st);
    case CloseParen => CloseShape(table, infix, n, st);
    case _ =>
  }

  lemma CommaShape(table: Table, infix: seq<Token>, n: nat, st: State)
    requires Marked(infix) && n < |infix| && Shape(infix, st.stack, OpenAt(infix, n), AfterFunction(infix, n))
    requires infix[n].kind == Comma
    ensures ShuntToken(table, st, infix[n]).Some? <==> Allowed(table, infix, n)
    ensures ShuntToken(table, st, infix[n]).Some? ==>
      Shape(infix, ShuntToken(table, st, infix[n]).value.stack, OpenAt(infix, n + 1), AfterFunction(infix, n + 1))
  {
    var open := OpenAt(infix, n);
    PoppedToParen(infix, st, open, AfterFunction(infix, n));
    if Allowed(table, infix, n) {
      var popped := PopToParen(st);
      var below := Below(popped.stack);
      var counted := Top(below).(argCount := Top(below).argCount + 1);
      hide OpenAt, PopToParen;
      CallReplaced(infix, Below(below), counted, Top(popped.stack), open);
    }
  }

  /** A function under its open parenthesis. */
  lemma CallReplaced(infix: seq<Token>, low: seq<ParsedToken>, f: ParsedToken, paren: ParsedToken, open: seq<nat>)
    requires (forall k :: 0 <= k < |open| ==> open[k] < |infix|) && open != []
    requires Shape(infix, low, open[..|open| - 1], false) && IsCallParen(infix, open[|open| - 1])
    requires f.tok.kind == Function && f.tok.opId.None? && paren.tok.kind == OpenParen && paren.tok.opId.None?
    ensures Shape(infix, low + [f, paren], open, false)
  {
    Pushed(infix, low, f);
    Pushed(infix, low + [f], paren);
    assert low + [f, paren] == low + [f] + [paren];
    assert Shape(infix, low + [f], open[..|open| - 1], true);
  }

  lemma CloseShape(table: Table, infix: seq<Token>, n: nat, st: State)
    requires Marked(infix) && n < |infix| && Shape(infix, st.stack, OpenAt(infix, n), AfterFunction(infix, n))
    requires infix[n].kind == CloseParen
    ensures ShuntToken(table, st, infix[n]).Some? <==> Allowed(table, infix, n)
    ensures ShuntToken(table, st, infix[n]).Some? ==>
      Shape(infix, ShuntToken(table, st, infix[n]).value.stack, OpenAt(infix, n + 1), AfterFunction(infix, n + 1))
  {
    PoppedToParen(infix, st, OpenAt(infix, n), AfterFunction(infix, n));
  }

  lemma {:induction false} ParsedExactly(table: Table, infix: seq<Token>, n: nat, st: State)
    requires Marked(infix) && n <= |infix| && Shape(infix, st.stack, OpenAt(infix, n), AfterFunction(infix, n))
    ensures var end := ShuntAll(table, st, infix[n..]);
      (end.Some? && Drain(end.value).Some?) <==> AllAllowed(table, infix, n) && OpenAt(infix, |infix|) == []
    decreases |infix| - n
  {
    hide Allowed, Marked, Shape, OpenAt, ShuntToken, Drain;
    if n == |infix| {
      Drained(infix, st, OpenAt(infix, n), AfterFunction(infix, n));
    } else {
      TokenShape(table, infix, n, st);
      assert infix[n..][0] == infix[n] && infix[n..][1..] == infix[n + 1..];
      var next := ShuntToken(table, st, infix[n]);
      if next.Some? {
        ParsedExactly(table, infix, n + 1, next.value);
      }
    }
  }

  /** The parser accepts a list of tokens exactly when every token is allowed where it stands and every parenthesis is
      closed. */
  lemma AcceptedExactly(table: Table, infix: seq<Token>)
    requires Marked(infix)
    ensures ParseSpec(table, infix).Some? <==> AllAllowed(table, infix, 0) && OpenAt(infix, |infix|) == []
  {
    hide Allowed, Marked, ShuntAll, Drain;
    assert infix[0..] == infix;
    ParsedExactly(table, infix, 0, State([], []));
  }
}
