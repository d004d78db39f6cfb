/** The shunting yard turns the tokens of every well-written expression into exactly its post-order. */
module ShuntingYardProofs {
  import opened Wrappers
  import opened Tokens
  import opened FnTable
  import opened ShuntingYard
  import opened Grammar

  lemma {:induction false} ShuntConcat(table: Table, st: State, a: seq<Token>, b: seq<Token>)
    ensures ShuntAll(table, st, a + b)
         == match ShuntAll(table, st, a) case None => None case Some(mid) => ShuntAll(table, mid, b)
    decreases |a|
  {
    if a == [] {
      assert a + b == b;
    } else {
      assert (a + b)[0] == a[0] && (a + b)[1..] == a[1..] + b;
      var next := ShuntToken(table, st, a[0]);
      if next.Some? {
        ShuntConcat(table, next.value, a[1..], b);
      }
    }
  }

  lemma ShuntOne(table: Table, st: State, tok: Token)
    ensures ShuntAll(table, st, [tok]) == ShuntToken(table, st, tok)
  {
    assert [tok][1..] == [];
    var next := ShuntToken(table, st, tok);
    if next.Some? {
      assert ShuntAll(table, next.value, []) == next;
    }
  }

  function Reversed(s: seq<ParsedToken>): (r: seq<ParsedToken>)
    ensures |r| == |s|
  {
    if s == [] then [] else [Top(s)] + Reversed(Below(s))
  }

  lemma {:induction false} ReversedPrepend(x: ParsedToken, s: seq<ParsedToken>)
    ensures Reversed([x] + s) == Reversed(s) + [x]
    decreases |s|
  {
    if s == [] {
      assert Below([x] + s) == [];
    } else {
      assert Below([x] + s) == [x] + Below(s);
      ReversedPrepend(x, Below(s));
    }
  }

  /** Operators left on the stack after an expression: each is unary, or binds at least as tight as
      the expression's own top-level operator. */
  ghost predicate Pending(table: Table, e: Expr, pend: seq<ParsedToken>) {
    forall i :: 0 <= i < |pend| ==>
      && OperatorOf(table, pend[i].tok).Some?
      && pend[i].tok.kind.Operator?
      && (|OperatorOf(table, pend[i].tok).value.args| == 1
          || (e.Binary? && OperatorOf(table, e.op).Some?
              && Precedence(table, pend[i].tok) <= Precedence(table, e.op)))
  }

  /** What lies under an expression does not take part in it. */
  ghost predicate Shielded(table: Table, stack: seq<ParsedToken>, e: Expr) {
    stack == []
    || (var top := Top(stack);
        && top.tok.kind != Function
        && (e.Binary? && OperatorOf(table, e.op).Some? && OperatorOf(table, top.tok).Some? ==>
              Precedence(table, e.op) < Precedence(table, top.tok)))
  }

  lemma {:induction false} PopPendingToParen(stack: seq<ParsedToken>, pend: seq<ParsedToken>, out: seq<ParsedToken>)
    requires stack != [] && Top(stack).tok.kind == OpenParen
    requires forall i :: 0 <= i < |pend| ==> pend[i].tok.kind != OpenParen
    ensures PopToParen(State(stack + pend, out)) == State(stack, out + Reversed(pend))
    decreases |pend|
  {
    if pend == [] {
      assert stack + pend == stack;
      assert out + Reversed(pend) == out;
    } else {
      assert Below(stack + pend) == stack + Below(pend);
      PopPendingToParen(stack, Below(pend), out + [Top(pend)]);
      assert out + [Top(pend)] + Reversed(Below(pend)) == out + Reversed(pend);
    }
  }

  lemma {:induction false} PopPendingOperators(
    table: Table, info: FnInfo, stack: seq<ParsedToken>, pend: seq<ParsedToken>, out: seq<ParsedToken>)
    requires stack == [] || !Yields(table, info, Top(stack))
    requires forall i :: 0 <= i < |pend| ==> Yields(table, info, pend[i])
    ensures PopOperators(table, info, State(stack + pend, out)) == State(stack, out + Reversed(pend))
    decreases |pend|
  {
    if pend == [] {
      assert stack + pend == stack;
      assert out + Reversed(pend) == out;
    } else {
      assert Below(stack + pend) == stack + Below(pend);
      PopPendingOperators(table, info, stack, Below(pend), out + [Top(pend)]);
      assert out + [Top(pend)] + Reversed(Below(pend)) == out + Reversed(pend);
    }
  }

  lemma {:induction false} DrainPending(pend: seq<ParsedToken>, out: seq<ParsedToken>)
    requires forall i :: 0 <= i < |pend| ==> pend[i].tok.kind.Operator?
    ensures Drain(State(pend, out)) == Some(out + Reversed(pend))
    decreases |pend|
  {
    if pend == [] {
      assert out + Reversed(pend) == out;
    } else {
      DrainPending(Below(pend), out + [Top(pend)]);
      assert out + [Top(pend)] + Reversed(Below(pend)) == out + Reversed(pend);
    }
  }

  /** An operator token: whatever yields to it goes out, and it waits in their place. */
  lemma ShuntOperator(table: Table, op: Token, stack: seq<ParsedToken>, pend: seq<ParsedToken>, out: seq<ParsedToken>)
    requires op.kind.Operator? && OperatorOf(table, op).Some?
    requires stack == [] || !Yields(table, OperatorOf(table, op).value, Top(stack))
    requires forall i :: 0 <= i < |pend| ==> Yields(table, OperatorOf(table, op).value, pend[i])
    ensures ShuntAll(table, State(stack + pend, out), [op])
         == Some(State(stack + [ParsedToken(op, |OperatorOf(table, op).value.args|, -1, -1)], out + Reversed(pend)))
  {
    ShuntOne(table, State(stack + pend, out), op);
    PopPendingOperators(table, OperatorOf(table, op).value, stack, pend, out);
  }

  lemma ShuntOpenCall(table: Table, name: string, stack: seq<ParsedToken>, out: seq<ParsedToken>)
    ensures ShuntAll(table, State(stack, out), [FunctionToken(name)])
         == Some(State(stack + [ParsedToken(FunctionToken(name), 0, |out|, -1)], out))
  {
    ShuntOne(table, State(stack, out), FunctionToken(name));
  }

  lemma ShuntOpenParen(table: Table, stack: seq<ParsedToken>, out: seq<ParsedToken>)
    ensures ShuntAll(table, State(stack, out), [OPEN]) == Some(State(stack + [Plain(OPEN)], out))
  {
    ShuntOne(table, State(stack, out), OPEN);
  }

  /** A comma inside a call: the argument before it is complete and counted. */
  lemma ShuntComma(table: Table, stack: seq<ParsedToken>, f: ParsedToken, pend: seq<ParsedToken>, out: seq<ParsedToken>)
    requires f.tok.kind == Function
    requires forall i :: 0 <= i < |pend| ==> pend[i].tok.kind.Operator?
    ensures ShuntAll(table, State(stack + [f, Plain(OPEN)] + pend, out), [COMMA])
         == Some(State(stack + [f.(argCount := f.argCount + 1), Plain(OPEN)], out + Reversed(pend)))
  {
    var open := stack + [f, Plain(OPEN)];
    ShuntOne(table, State(open + pend, out), COMMA);
    PopPendingToParen(open, pend, out);
    assert Below(open) == stack + [f];
    assert Below(stack + [f]) == stack;
  }

  function Closed(f: ParsedToken, end: nat): ParsedToken {
    f.(end := end, argCount := f.argCount + if end != f.start then 1 else 0)
  }

  /** The parenthesis that closes a call counts the last argument and notes where the arguments end. */
  lemma ShuntCloseCall(table: Table, stack: seq<ParsedToken>, f: ParsedToken, pend: seq<ParsedToken>,
      out: seq<ParsedToken>)
    requires f.tok.kind == Function
    requires forall i :: 0 <= i < |pend| ==> pend[i].tok.kind.Operator?
    ensures ShuntAll(table, State(stack + [f, Plain(OPEN)] + pend, out), [CLOSE])
         == Some(State(stack, out + Reversed(pend) + [Closed(f, |out| + |pend|)]))
  {
    var open := stack + [f, Plain(OPEN)];
    ShuntOne(table, State(open + pend, out), CLOSE);
    PopPendingToParen(open, pend, out);
    assert Below(open) == stack + [f];
    assert Below(stack + [f]) == stack;
  }

  lemma ShuntCloseParen(table: Table, stack: seq<ParsedToken>, pend: seq<ParsedToken>, out: seq<ParsedToken>)
    requires stack == [] || Top(stack).tok.kind != Function
    requires forall i :: 0 <= i < |pend| ==> pend[i].tok.kind.Operator?
    ensures ShuntAll(table, State(stack + [Plain(OPEN)] + pend, out), [CLOSE])
        == Some(State(stack, out + Reversed(pend)))
  {
    var open := stack + [Plain(OPEN)];
    ShuntOne(table, State(open + pend, out), CLOSE);
    PopPendingToParen(open, pend, out);
    assert Below(open) == stack;
  }

  /** The main invariant: an expression's tokens put out its post-order, except for operators that
      still wait on the stack above what was there before. */
  lemma {:induction false} ShuntExpr(table: Table, e: Expr, stack: seq<ParsedToken>, out: seq<ParsedToken>)
    returns (pend: seq<ParsedToken>, done: seq<ParsedToken>)
    requires GoodOperators(table) && WellWritten(table, e) && Shielded(table, stack, e)
    ensures ShuntAll(table, State(stack, out), Infix(e)) == Some(State(stack + pend, out + done))
    ensures done + Reversed(pend) == PostOrder(e, |out|)
    ensures Pending(table, e, pend)
    decreases e, 2
  {
    match e
    case Atom(tok) =>
      pend, done := [], [Plain(tok)];
      ShuntOne(table, State(stack, out), tok);
      assert stack + [] == stack;
    case Unary(op, x) =>
      hide ShuntAll;
      pend, done := ShuntUnary(table, e, stack, out);
    case Binary(op, l, r) =>
      hide ShuntAll;
      pend, done := ShuntBinary(table, e, stack, out);
    case Call(name, args) =>
      hide ShuntAll;
      ShuntFunctionCall(table, e, stack, out);
      pend, done := [], PostOrder(e, |out|);
      assert stack + [] == stack;
    case IfThenElse(c, t, f) =>
      hide ShuntAll;
      ShuntIf(table, e, stack, out);
      pend, done := [], PostOrder(e, |out|);
      assert stack + [] == stack;
    case Paren(x) =>
      hide ShuntAll;
      ShuntParen(table, e, stack, out);
      pend, done := [], PostOrder(e, |out|);
      assert stack + [] == stack;
  }

  lemma {:induction false} ShuntParen(table: Table, e: Expr, stack: seq<ParsedToken>, out: seq<ParsedToken>)
    requires GoodOperators(table) && e.Paren? && WellWritten(table, e) && Shielded(table, stack, e)
    ensures ShuntAll(table, State(stack, out), Infix(e)) == Some(State(stack, out + PostOrder(e, |out|)))
    decreases e, 1
  {
    var x := e.inner;
    var inner := stack + [Plain(OPEN)];
    var st := State(stack, out);
    hide ShuntAll;
    ShuntOpenParen(table, stack, out);
    var pend, done := ShuntExpr(table, x, inner, out);
    ShuntConcat(table, st, [OPEN], Infix(x) + [CLOSE]);
    ShuntConcat(table, State(inner, out), Infix(x), [CLOSE]);
    ShuntCloseParen(table, stack, pend, out + done);
    assert out + done + Reversed(pend) == out + PostOrder(e, |out|);
  }

  lemma {:induction false} ShuntUnary(table: Table, e: Expr, stack: seq<ParsedToken>, out: seq<ParsedToken>)
    returns (pend: seq<ParsedToken>, done: seq<ParsedToken>)
    requires GoodOperators(table) && e.Unary? && WellWritten(table, e) && Shielded(table, stack, e)
    ensures ShuntAll(table, State(stack, out), Infix(e)) == Some(State(stack + pend, out + done))
    ensures done + Reversed(pend) == PostOrder(e, |out|)
    ensures Pending(table, e, pend)
    decreases e, 1
  {
    hide ShuntAll;
    var op, x := e.op, e.operand;
    var o := ParsedToken(op, 1, -1, -1);
    var st := State(stack, out);
    ShuntOperator(table, op, stack, [], out);
    assert stack + [] == stack && out + Reversed([]) == out;
    ShuntConcat(table, st, [op], Infix(x));
    var restPend, restDone := ShuntExpr(table, x, stack + [o], out);
    pend, done := [o] + restPend, restDone;
    assert stack + [o] + restPend == stack + pend;
    ReversedPrepend(o, restPend);
    assert done + Reversed(pend) == restDone + Reversed(restPend) + [o];
  }

  /** How the precedence levels of a binary operation and its operands fit together. */
  lemma BinaryLevels(table: Table, e: Expr, stack: seq<ParsedToken>)
    requires GoodOperators(table) && e.Binary? && WellWritten(table, e) && Shielded(table, stack, e)
    ensures Shielded(table, stack, e.left)
    ensures Shielded(table, stack + [ParsedToken(e.op, 2, -1, -1)], e.right)
    ensures stack == [] || !Yields(table, OperatorOf(table, e.op).value, Top(stack))
  {
  }

  lemma BinaryPending(table: Table, e: Expr, lPend: seq<ParsedToken>, rPend: seq<ParsedToken>)
    requires GoodOperators(table) && e.Binary? && WellWritten(table, e)
    requires Pending(table, e.left, lPend) && Pending(table, e.right, rPend)
    ensures forall i :: 0 <= i < |lPend| ==> Yields(table, OperatorOf(table, e.op).value, lPend[i])
    ensures Pending(table, e, [ParsedToken(e.op, 2, -1, -1)] + rPend)
  {
  }

  lemma {:induction false} ShuntBinary(table: Table, e: Expr, stack: seq<ParsedToken>, out: seq<ParsedToken>)
    returns (pend: seq<ParsedToken>, done: seq<ParsedToken>)
    requires GoodOperators(table) && e.Binary? && WellWritten(table, e) && Shielded(table, stack, e)
    ensures ShuntAll(table, State(stack, out), Infix(e)) == Some(State(stack + pend, out + done))
    ensures done + Reversed(pend) == PostOrder(e, |out|)
    ensures Pending(table, e, pend)
    decreases e, 1
  {
    hide ShuntAll, Pending, Reversed, Yields, GoodOperators, Shielded;
    BinaryLevels(table, e, stack);
    var lPend, lDone := ShuntExpr(table, e.left, stack, out);
    var left := PostOrder(e.left, |out|);
    var rPend, rDone := ShuntExpr(table, e.right, stack + [ParsedToken(e.op, 2, -1, -1)], out + left);
    ComposeBinary(table, e, stack, out, lPend, lDone, rPend, rDone);
    BinaryPending(table, e, lPend, rPend);
    BinaryOrder(ParsedToken(e.op, 2, -1, -1), left, PostOrder(e.right, |out + left|), rPend, rDone);
    pend, done := [ParsedToken(e.op, 2, -1, -1)] + rPend, left + rDone;
  }

  lemma ComposeBinary(
    table: Table, e: Expr, stack: seq<ParsedToken>, out: seq<ParsedToken>,
    lPend: seq<ParsedToken>, lDone: seq<ParsedToken>, rPend: seq<ParsedToken>, rDone: seq<ParsedToken>)
    requires GoodOperators(table) && e.Binary? && WellWritten(table, e) && Shielded(table, stack, e)
    requires Pending(table, e.left, lPend) && Pending(table, e.right, rPend)
    requires ShuntAll(table, State(stack, out), Infix(e.left)) == Some(State(stack + lPend, out + lDone))
    requires lDone + Reversed(lPend) == PostOrder(e.left, |out|)
    requires var o, left := ParsedToken(e.op, 2, -1, -1), PostOrder(e.left, |out|);
      ShuntAll(table, State(stack + [o], out + left), Infix(e.right))
      == Some(State(stack + [o] + rPend, out + left + rDone))
    ensures var o, left := ParsedToken(e.op, 2, -1, -1), PostOrder(e.left, |out|);
      ShuntAll(table, State(stack, out), Infix(e)) == Some(State(stack + ([o] + rPend), out + (left + rDone)))
  {
    hide ShuntAll, PostOrder;
    BinaryLevels(table, e, stack);
    BinaryPending(table, e, lPend, rPend);
    hide Shielded, Pending, GoodOperators, Yields;
    var left := PostOrder(e.left, |out|);
    ShuntBinaryTail(table, e.op, Infix(e.right), stack, lPend, out, lDone, left, rPend, rDone);
    ShuntConcat(table, State(stack, out), Infix(e.left), [e.op] + Infix(e.right));
  }

  lemma ShuntBinaryTail(
    table: Table, op: Token, right: seq<Token>, stack: seq<ParsedToken>, lPend: seq<ParsedToken>, out: seq<ParsedToken>,
    lDone: seq<ParsedToken>, left: seq<ParsedToken>, rPend: seq<ParsedToken>, rDone: seq<ParsedToken>)
    requires IsBinaryOperator(table, op)
    requires stack == [] || !Yields(table, OperatorOf(table, op).value, Top(stack))
    requires forall i :: 0 <= i < |lPend| ==> Yields(table, OperatorOf(table, op).value, lPend[i])
    requires lDone + Reversed(lPend) == left
    requires ShuntAll(table, State(stack + [ParsedToken(op, 2, -1, -1)], out + left), right)
          == Some(State(stack + [ParsedToken(op, 2, -1, -1)] + rPend, out + left + rDone))
    ensures ShuntAll(table, State(stack + lPend, out + lDone), [op] + right)
         == Some(State(stack + ([ParsedToken(op, 2, -1, -1)] + rPend), out + (left + rDone)))
  {
    hide ShuntAll, Yields;
    var o := ParsedToken(op, 2, -1, -1);
    ShuntOperator(table, op, stack, lPend, out + lDone);
    assert out + lDone + Reversed(lPend) == out + left;
    ShuntConcat(table, State(stack + lPend, out + lDone), [op], right);
    assert stack + [o] + rPend == stack + ([o] + rPend);
    assert out + left + rDone == out + (left + rDone);
  }

  lemma BinaryOrder(
    o: ParsedToken, left: seq<ParsedToken>, right: seq<ParsedToken>, pend: seq<ParsedToken>, done: seq<ParsedToken>)
    requires done + Reversed(pend) == right
    ensures left + done + Reversed([o] + pend) == left + right + [o]
  {
    ReversedPrepend(o, pend);
    assert left + done + (Reversed(pend) + [o]) == left + (done + Reversed(pend)) + [o];
  }

  /** A call whose argument tokens have been dealt with. */
  lemma ShuntCall(
    table: Table, name: string, n: nat, inner: seq<Token>, pend: seq<ParsedToken>, done: seq<ParsedToken>,
    args: seq<ParsedToken>, stack: seq<ParsedToken>, out: seq<ParsedToken>)
    requires var f := ParsedToken(FunctionToken(name), 0, |out|, -1);
             ShuntAll(table, State(stack + [f, Plain(OPEN)], out), inner)
             == Some(State(stack + [f.(argCount := if n == 0 then 0 else n - 1), Plain(OPEN)] + pend, out + done))
    requires forall i :: 0 <= i < |pend| ==> pend[i].tok.kind.Operator?
    requires done + Reversed(pend) == args
    requires n == 0 <==> args == []
    ensures ShuntAll(table, State(stack, out), CallTokens(name, inner))
         == Some(State(stack, out + AfterArguments(name, n, args, |out|)))
  {
    hide ShuntAll;
    var f := ParsedToken(FunctionToken(name), 0, |out|, -1);
    var g := f.(argCount := if n == 0 then 0 else n - 1);
    var st, st1, st2 := State(stack, out), State(stack + [f], out), State(stack + [f, Plain(OPEN)], out);
    var st3 := State(stack + [g, Plain(OPEN)] + pend, out + done);
    var st4 := State(stack, out + AfterArguments(name, n, args, |out|));
    assert ShuntAll(table, st3, [CLOSE]) == Some(st4) by {
      ShuntCloseCall(table, stack, g, pend, out + done);
      assert out + done + Reversed(pend) + [Closed(g, |out + done| + |pend|)] == st4.out;
    }
    assert ShuntAll(table, st2, inner + [CLOSE]) == Some(st4) by {
      ShuntConcat(table, st2, inner, [CLOSE]);
    }
    assert ShuntAll(table, st1, [OPEN] + (inner + [CLOSE])) == Some(st4) by {
      ShuntOpenParen(table, stack + [f], out);
      assert stack + [f] + [Plain(OPEN)] == st2.stack;
      ShuntConcat(table, st1, [OPEN], inner + [CLOSE]);
    }
    ShuntOpenCall(table, name, stack, out);
    ShuntConcat(table, st, [FunctionToken(name)], [OPEN] + (inner + [CLOSE]));
  }

  lemma {:induction false} ShuntFunctionCall(table: Table, e: Expr, stack: seq<ParsedToken>, out: seq<ParsedToken>)
    requires GoodOperators(table) && e.Call? && WellWritten(table, e)
    ensures ShuntAll(table, State(stack, out), Infix(e)) == Some(State(stack, out + PostOrder(e, |out|)))
    decreases e, 1
  {
    var f := ParsedToken(FunctionToken(e.name), 0, |out|, -1);
    var inner := stack + [f, Plain(OPEN)];
    var pend, done := [], [];
    if e.args == [] {
      assert inner + [] == inner && out + [] == out;
      assert f.(argCount := 0) == f;
      ShuntCall(table, e.name, 0, [], [], [], [], stack, out);
    } else {
      hide ShuntAll;
      pend, done := ShuntArgs(table, e.args, stack, f, out);
      ShuntCall(table, e.name, |e.args|, InfixArgs(e.args), pend, done, PostOrderArgs(e.args, |out|), stack, out);
    }
  }

  lemma {:induction false} ShuntArgs(
    table: Table, args: seq<Expr>, stack: seq<ParsedToken>, f: ParsedToken, out: seq<ParsedToken>)
    returns (pend: seq<ParsedToken>, done: seq<ParsedToken>)
    requires args != [] && GoodOperators(table) && forall a <- args :: WellWritten(table, a)
    requires f.tok.kind == Function
    ensures ShuntAll(table, State(stack + [f, Plain(OPEN)], out), InfixArgs(args))
         == Some(State(stack + [f.(argCount := f.argCount + |args| - 1), Plain(OPEN)] + pend, out + done))
    ensures done + Reversed(pend) == PostOrderArgs(args, |out|)
    ensures forall i :: 0 <= i < |pend| ==> pend[i].tok.kind.Operator?
    decreases args
  {
    hide ShuntAll;
    var open := stack + [f, Plain(OPEN)];
    pend, done := ShuntExpr(table, args[0], open, out);
    var first := PostOrder(args[0], |out|);
    if |args| == 1 {
      assert PostOrderArgs(args[1..], |out| + |first|) == [];
      assert PostOrderArgs(args, |out|) == first;
      assert f.(argCount := f.argCount + |args| - 1) == f;
    } else {
      var mid := State(open + pend, out + done);
      ShuntConcat(table, State(open, out), Infix(args[0]), [COMMA] + InfixArgs(args[1..]));
      ShuntConcat(table, mid, [COMMA], InfixArgs(args[1..]));
      ShuntComma(table, stack, f, pend, out + done);
      assert out + done + Reversed(pend) == out + first;
      var g := f.(argCount := f.argCount + 1);
      var restPend, restDone := ShuntArgs(table, args[1..], stack, g, out + first);
      assert g.(argCount := g.argCount + |args[1..]| - 1) == f.(argCount := f.argCount + |args| - 1);
      assert out + first + restDone == out + (first + restDone);
      pend, done := restPend, first + restDone;
      assert done + Reversed(pend) == first + (restDone + Reversed(restPend));
    }
  }

  /** One part of a conditional: a call with a single argument. */
  lemma {:induction false} ShuntBranch(table: Table, name: string, x: Expr, stack: seq<ParsedToken>,
      out: seq<ParsedToken>)
    requires GoodOperators(table) && WellWritten(table, x)
    ensures ShuntAll(table, State(stack, out), CallTokens(name, Infix(x)))
         == Some(State(stack, out + AfterArguments(name, 1, PostOrder(x, |out|), |out|)))
    decreases x, 3
  {
    hide ShuntAll;
    var f := ParsedToken(FunctionToken(name), 0, |out|, -1);
    var pend, done := ShuntExpr(table, x, stack + [f, Plain(OPEN)], out);
    assert f.(argCount := 0) == f;
    ShuntCall(table, name, 1, Infix(x), pend, done, PostOrder(x, |out|), stack, out);
  }

  lemma {:induction false} ShuntIf(table: Table, e: Expr, stack: seq<ParsedToken>, out: seq<ParsedToken>)
    requires GoodOperators(table) && e.IfThenElse? && WellWritten(table, e)
    ensures ShuntAll(table, State(stack, out), Infix(e)) == Some(State(stack, out + PostOrder(e, |out|)))
    decreases e, 1
  {
    hide ShuntAll, WellWritten, Infix, PostOrder, CallTokens, AfterArguments, GoodOperators;
    IfParts(table, e, |out|);
    var cond := AfterArguments("if", 1, PostOrder(e.cond, |out|), |out|);
    var thnAt := |out| + |cond|;
    var thn := AfterArguments("then", 1, PostOrder(e.thn, thnAt), thnAt);
    var elsAt := thnAt + |thn|;
    var els := AfterArguments("else", 1, PostOrder(e.els, elsAt), elsAt);
    var ifTokens, thenTokens, elseTokens :=
      CallTokens("if", Infix(e.cond)), CallTokens("then", Infix(e.thn)), CallTokens("else", Infix(e.els));
    var st, st1, st2 := State(stack, out), State(stack, out + cond), State(stack, out + cond + thn);
    ShuntBranch(table, "if", e.cond, stack, out);
    ShuntBranch(table, "then", e.thn, stack, st1.out);
    ShuntBranch(table, "else", e.els, stack, st2.out);
    ShuntConcat(table, st1, thenTokens, elseTokens);
    ShuntConcat(table, st, ifTokens, thenTokens + elseTokens);
    assert out + cond + thn + els == out + (cond + thn + els);
  }

  lemma IfParts(table: Table, e: Expr, base: nat)
    requires e.IfThenElse? && WellWritten(table, e)
    ensures WellWritten(table, e.cond) && WellWritten(table, e.thn) && WellWritten(table, e.els)
    ensures Infix(e) == CallTokens("if", Infix(e.cond)) + (CallTokens("then", Infix(e.thn)) + CallTokens("else",
        Infix(e.els)))
    ensures var cond := AfterArguments("if", 1, PostOrder(e.cond, base), base);
      var thn := AfterArguments("then", 1, PostOrder(e.thn, base + |cond|), base + |cond|);
      var els := AfterArguments("else", 1, PostOrder(e.els, base + |cond| + |thn|), base + |cond| + |thn|);
      PostOrder(e, base) == cond + thn + els
  {
    hide CallTokens, AfterArguments;
  }

  /** Parsing the tokens of any well-written expression gives exactly its post-order, every call with
      its true argument count and the offsets that delimit exactly its arguments. */
  lemma ParseGivesPostOrder(table: Table, e: Expr)
    requires GoodOperators(table) && WellWritten(table, e)
    ensures ParseSpec(table, Infix(e)) == Some(PostOrder(e, 0))
  {
    hide ShuntAll;
    var pend, done := ShuntExpr(table, e, [], []);
    assert [] + pend == pend;
    assert [] + done == done;
    DrainPending(pend, done);
  }
}
