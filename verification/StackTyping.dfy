/** The simulated stack as a static analysis: when it describes the real stack, and that it then keeps
    the machine from ever getting stuck. */
module StackTyping {
  import opened Wrappers
  import opened DataTypes
  import opened Tokens
  import opened FnTable
  import opened ShuntingYard
  import opened CompilerSpec
  import opened Machine
  import opened Grammar
  import opened Codegen
  import CompilerProofs
  import ShuntingYardProofs

  /** The types recorded for instruction `k`; past the last one, those the code ends with. */
  function TypesAt(u: CompileUnit, k: nat): seq<DataType>
    requires |u.at| == |u.code| && k <= |u.code|
  {
    if k == |u.code| then u.sim else u.at[k]
  }

  function Init(s: seq<DataType>): seq<DataType>
    requires s != []
  {
    s[..|s| - 1]
  }

  /** Instruction `k` takes the types recorded for it to those recorded for every instruction that can
      come next, and every jump goes forward and lands in the code or at its end. */
  predicate InstrTyped(table: Table, u: CompileUnit, k: nat)
    requires |u.at| == |u.code| && k < |u.code|
  {
    var before := u.at[k];
    && Bytes(before) < MAX_STACK_BYTE_SIZE
    && match u.code[k]
       case PushLiteral(t, l) => l < |u.lits| && u.lits[l].t == t && TypesAt(u, k + 1) == before + [t]
       case PushBool(_) => TypesAt(u, k + 1) == before + [TBool]
       case PushField(_, t, _) => TypesAt(u, k + 1) == before + [t]
       case PushRowNumber(_) => TypesAt(u, k + 1) == before + [TUint]
       case CallFn(id) =>
         && id < |table| && table[id].kind.Ordinary? && |table[id].args| <= |before|
         && before[|before| - |table[id].args|..] == table[id].args
         && TypesAt(u, k + 1) == before[..|before| - |table[id].args|] + [table[id].returnType]
       case If(d) =>
         && before != [] && before[|before| - 1] == TBool && 1 <= d && k + d <= |u.code|
         && TypesAt(u, k + 1) == Init(before) && TypesAt(u, k + d) == Init(before)
       case Goto(d) => 1 <= d && k + d <= |u.code| && TypesAt(u, k + d) == before
       case End => false
  }

  ghost predicate CodeTyped(table: Table, u: CompileUnit) {
    && |u.at| == |u.code|
    && Bytes(u.sim) < MAX_STACK_BYTE_SIZE
    && TypesAt(u, 0) == []
    && forall k :: 0 <= k < |u.code| ==> InstrTyped(table, u, k)
  }

  // ----- Typed code is safe to run

  /** A state the recorded types describe. */
  ghost predicate Described(u: CompileUnit, st: VmState) {
    |u.at| == |u.code| && st.pc <= |u.code| && TypesOf(st.stack) == TypesAt(u, st.pc)
  }

  predicate FieldPresent(input: Input, instr: Instr) {
    instr.PushField? ==> instr.field < |RecordOf(input, instr.isThis).fields|
  }

  lemma TypesOfPush(stack: seq<Value>, v: Value)
    ensures TypesOf(stack + [v]) == TypesOf(stack) + [TypeOfValue(v)]
    ensures StackBytes(stack + [v]) == Bytes(TypesOf(stack) + [TypeOfValue(v)])
  {
    assert TypesOf(stack + [v]) == TypesOf(stack) + [TypeOfValue(v)];
  }

  lemma TypesOfSlice(stack: seq<Value>, n: nat)
    requires n <= |stack|
    ensures TypesOf(stack[..n]) == TypesOf(stack)[..n] && TypesOf(stack[n..]) == TypesOf(stack)[n..]
  {
    assert TypesOf(stack[..n]) == TypesOf(stack)[..n];
    assert TypesOf(stack[n..]) == TypesOf(stack)[n..];
  }

  lemma BytesAt(table: Table, u: CompileUnit, k: nat)
    requires CodeTyped(table, u) && k <= |u.code|
    ensures Bytes(TypesAt(u, k)) < MAX_STACK_BYTE_SIZE
  {
    if k < |u.code| {
      assert InstrTyped(table, u, k);
    }
  }

  /** In typed code every step from a described state leads forward to a described state, and the only
      thing that can go wrong is a record without the field that is asked for. */
  lemma StepIsSafe(table: Table, host: Host, input: Input, u: CompileUnit, st: VmState)
    requires CodeTyped(table, u) && GoodHost(table, host) && input.lits == u.lits
    requires Described(u, st) && st.pc < |u.code|
    ensures var next := Step(table, host, input, u.code[st.pc], st);
      && (next.Some? <==> FieldPresent(input, u.code[st.pc]))
      && (next.Some? ==> Described(u, next.value) && st.pc < next.value.pc <= |u.code|)
  {
    hide Bytes;
    var k := st.pc;
    var stack := st.stack;
    assert InstrTyped(table, u, k);
    BytesAt(table, u, k + 1);
    match u.code[k]
    case PushLiteral(t, l) => TypesOfPush(stack, host.literal(t, u.lits[l].text));
    case PushBool(b) => TypesOfPush(stack, BoolV(b));
    case PushField(isThis, t, n) =>
      if n < |RecordOf(input, isThis).fields| {
        TypesOfPush(stack, host.field(t, RecordOf(input, isThis).fields[n]));
      }
    case PushRowNumber(isThis) => TypesOfPush(stack, UintV(RecordOf(input, isThis).number));
    case CallFn(id) =>
      var low := |stack| - |table[id].args|;
      TypesOfSlice(stack, low);
      TypesOfPush(stack[..low], host.call(id, st.history, stack[low..]));
    case If(d) =>
      assert TypeOfValue(stack[|stack| - 1]) == TypesOf(stack)[|stack| - 1];
      TypesOfSlice(stack, |stack| - 1);
    case Goto(d) =>
  }

  /** Every run of typed code: it ends at the sentinel with the types the compiler ended with, or at an
      instruction that asks for a field the record does not have. */
  lemma {:induction false} RunIsSafe(table: Table, host: Host, input: Input, u: CompileUnit, st: VmState)
    requires CodeTyped(table, u) && GoodHost(table, host) && input.lits == u.lits && Described(u, st)
    ensures var end := Run(table, host, input, u.code + [End], st);
      && (end.Some? ==> end.value.pc == |u.code| && TypesOf(end.value.stack) == u.sim)
      && ((forall k :: 0 <= k < |u.code| ==> FieldPresent(input, u.code[k])) ==> end.Some?)
    decreases |u.code| - st.pc
  {
    hide InstrTyped, Step, GoodHost;
    var code := u.code + [End];
    if st.pc < |u.code| {
      assert code[st.pc] == u.code[st.pc];
      assert !u.code[st.pc].End? by { NoSentinelInside(table, u, st.pc); }
      StepIsSafe(table, host, input, u, st);
      var next := Step(table, host, input, u.code[st.pc], st);
      if next.Some? {
        RunIsSafe(table, host, input, u, next.value);
      }
    }
  }

  lemma NoSentinelInside(table: Table, u: CompileUnit, k: nat)
    requires CodeTyped(table, u) && k < |u.code|
    ensures !u.code[k].End?
  {
    assert InstrTyped(table, u, k);
  }

  // ----- When compiled code is typed

  ghost predicate Sane(u: CompileUnit) {
    |u.at| == |u.code| && Bytes(u.sim) < MAX_STACK_BYTE_SIZE
  }

  /** An instruction that refers to nothing beyond what has been compiled so far. */
  predicate SelfContained(u: CompileUnit, k: nat)
    requires k < |u.code|
  {
    match u.code[k]
    case PushLiteral(_, l) => l < |u.lits|
    case If(d) => k + d <= |u.code|
    case Goto(d) => k + d <= |u.code|
    case _ => true
  }

  /** `v` continues `u`, and the first thing it adds was emitted with the stack `u` ends with. */
  ghost predicate Continues(u: CompileUnit, v: CompileUnit) {
    && Sane(u) && Sane(v)
    && u.code <= v.code && u.at <= v.at && u.lits <= v.lits
    && TypesAt(v, |u.code|) == u.sim
    && forall k :: |u.code| <= k < |v.code| ==> SelfContained(v, k)
  }

  ghost predicate TypedFrom(table: Table, u: CompileUnit, from: nat, end: nat)
    requires |u.at| == |u.code| && end <= |u.code|
  {
    forall k :: from <= k < end ==> InstrTyped(table, u, k)
  }

  lemma TypesAtLater(v: CompileUnit, w: CompileUnit, j: nat)
    requires Continues(v, w) && j <= |v.code|
    ensures TypesAt(v, j) == TypesAt(w, j)
  {
    hide Bytes, SelfContained;
  }

  lemma SelfContainedLater(v: CompileUnit, w: CompileUnit, k: nat)
    requires Continues(v, w) && k < |v.code| && SelfContained(v, k)
    ensures SelfContained(w, k)
  {
    hide Bytes;
  }

  lemma ContinuesTransitive(u: CompileUnit, v: CompileUnit, w: CompileUnit)
    requires Continues(u, v) && Continues(v, w)
    ensures Continues(u, w)
  {
    hide Bytes, SelfContained;
    TypesAtLater(v, w, |u.code|);
    forall k | |u.code| <= k < |w.code|
      ensures SelfContained(w, k)
    {
      if k < |v.code| {
        SelfContainedLater(v, w, k);
      }
    }
  }

  /** What comes later does not change whether an instruction is typed. */
  lemma InstrTypedLater(table: Table, v: CompileUnit, w: CompileUnit, k: nat)
    requires Continues(v, w) && k < |v.code| && SelfContained(v, k)
    ensures InstrTyped(table, v, k) <==> InstrTyped(table, w, k)
  {
    hide Bytes;
    TypesAtLater(v, w, k);
    TypesAtLater(v, w, k + 1);
    match v.code[k]
    case If(d) => TypesAtLater(v, w, k + d);
    case Goto(d) => TypesAtLater(v, w, k + d);
    case _ =>
  }

  lemma TypedFromSplit(table: Table, u: CompileUnit, v: CompileUnit, w: CompileUnit)
    requires Continues(u, v) && Continues(v, w)
    ensures Sane(w) && |u.code| <= |v.code| <= |w.code|
    ensures TypedFrom(table, w, |u.code|, |w.code|)
       <==> TypedFrom(table, v, |u.code|, |v.code|) && TypedFrom(table, w, |v.code|, |w.code|)
  {
    hide Bytes, SelfContained, InstrTyped, TypesAt;
    forall k | |u.code| <= k < |v.code|
      ensures InstrTyped(table, v, k) <==> InstrTyped(table, w, k)
    {
      InstrTypedLater(table, v, w, k);
    }
  }

  lemma BytesOfPrefix(s: seq<DataType>, n: nat)
    requires n <= |s|
    ensures Bytes(s[..n]) <= Bytes(s)
  {
    assert s == s[..n] + s[n..];
    BytesConcat(s[..n], s[n..]);
  }

  // ----- The compiler's own steps

  /** `v` is what compiling something after `u` gives, and its branches all restore the stack exactly
      when the code added is typed. */
  ghost predicate Sound(table: Table, u: CompileUnit, v: CompileUnit) {
    && Continues(u, v)
    && (v.restores <==> u.restores && TypedFrom(table, v, |u.code|, |v.code|))
  }

  lemma SoundTransitive(table: Table, u: CompileUnit, v: CompileUnit, w: CompileUnit)
    requires Sound(table, u, v) && Sound(table, v, w)
    ensures Sound(table, u, w)
  {
    hide Continues, TypedFrom;
    ContinuesTransitive(u, v, w);
    TypedFromSplit(table, u, v, w);
  }

  /** Emitting one instruction that pushes or calls. */
  lemma SoundEmit(table: Table, u: CompileUnit, instr: Instr, sim: seq<DataType>, lits: seq<Literal>, other: bool)
    requires Sane(u) && u.lits <= lits && Bytes(sim) < MAX_STACK_BYTE_SIZE
    requires var v := u.(sim := sim, lits := lits, code := u.code + [instr], at := u.at + [u.sim],
        refersToOther := other);
      SelfContained(v, |u.code|) && InstrTyped(table, v, |u.code|)
    ensures var v := u.(sim := sim, lits := lits, code := u.code + [instr], at := u.at + [u.sim],
        refersToOther := other);
      Sound(table, u, v)
  {
    hide Bytes, SelfContained, InstrTyped;
  }

  lemma CallIsSound(env: Env, pt: ParsedToken, u: CompileUnit)
    requires Sane(u) && Find(env.table, pt.tok.text, u.sim, pt.argCount).Some?
    requires pt.argCount >= 0 ==> IsOrdinaryName(env.table, pt.tok.text)
    requires var id := Find(env.table, pt.tok.text, u.sim, pt.argCount).value; CompileCall(id, env.table[id], u).Some?
    ensures var id := Find(env.table, pt.tok.text, u.sim, pt.argCount).value;
      Sound(env.table, u, CompileCall(id, env.table[id], u).value)
  {
    hide Bytes, FindFrom, Sound;
    var id := Find(env.table, pt.tok.text, u.sim, pt.argCount).value;
    var info := env.table[id];
    BytesPush(u.sim[..|u.sim| - |info.args|], info.returnType);
    SoundEmit(env.table, u, CallFn(id), u.sim[..|u.sim| - |info.args|] + [info.returnType], u.lits, u.refersToOther);
  }

  lemma PushIsSound(table: Table, u: CompileUnit, instr: Instr, t: DataType, other: bool)
    requires Sane(u) && PushType(u.sim, t).Some?
    requires (instr.PushBool? && t == TBool) || (instr.PushField? && instr.t == t)
        || (instr.PushRowNumber? && t == TUint)
    ensures Sound(table, u,
      u.(sim := u.sim + [t], code := u.code + [instr], at := u.at + [u.sim], refersToOther := other))
  {
    hide Bytes, Sound;
    BytesPush(u.sim, t);
    SoundEmit(table, u, instr, u.sim + [t], u.lits, other);
  }

  lemma LiteralIsSound(table: Table, tok: Token, t: DataType, u: CompileUnit)
    requires Sane(u) && CompileLiteral(tok, t, u).Some?
    ensures Sound(table, u, CompileLiteral(tok, t, u).value)
  {
    hide Bytes, StringBytes, Sound;
    BytesPush(u.sim, t);
    SoundEmit(table, u, PushLiteral(t, |u.lits|), u.sim + [t], u.lits + [Literal(t, tok.text)], u.refersToOther);
  }

  lemma TokenIsSound(env: Env, pt: ParsedToken, u: CompileUnit)
    requires Sane(u) && CompileToken(env, pt, u).Some?
    requires pt.argCount >= 0 ==> IsOrdinaryName(env.table, pt.tok.text)
    ensures Sound(env.table, u, CompileToken(env, pt, u).value)
  {
    hide Bytes, StringBytes, ResolveVariable, FindFrom, Sound, Sane, CompileLiteral, IsOrdinaryName;
    match pt.tok.kind
    case StringLiteral | IntLiteral | UintLiteral | DoubleLiteral =>
      LiteralIsSound(env.table, pt.tok, LiteralType(pt.tok.kind).value, u);
    case BoolTrue | BoolFalse =>
      PushIsSound(env.table, u, PushBool(pt.tok.kind == BoolTrue), TBool, u.refersToOther);
    case Variable =>
      var v := ResolveVariable(env, pt.tok.text).value;
      PushIsSound(env.table, u, VariableInstr(v), VariableType(v), u.refersToOther || !v.isThis);
    case _ =>
      CallIsSound(env, pt, u);
  }

  function Patched(u: CompileUnit, n: nat, instr: Instr): CompileUnit
    requires n < |u.code|
  {
    u.(code := u.code[n := instr])
  }

  /** Patching an earlier jump concerns nothing that came after it. */
  lemma PatchSound(table: Table, u: CompileUnit, v: CompileUnit, n: nat, instr: Instr)
    requires Sound(table, u, v) && n < |u.code|
    ensures Sound(table, Patched(u, n, instr), Patched(v, n, instr))
  {
    hide Bytes, InstrTyped, SelfContained;
    var u', v' := Patched(u, n, instr), Patched(v, n, instr);
    forall k | |u.code| <= k < |v.code|
      ensures SelfContained(v', k) && (InstrTyped(table, v, k) <==> InstrTyped(table, v', k))
    {
      PatchElsewhere(table, v, n, instr, k);
    }
  }

  lemma PatchElsewhere(table: Table, v: CompileUnit, n: nat, instr: Instr, k: nat)
    requires |v.at| == |v.code| && n < k < |v.code|
    ensures SelfContained(Patched(v, n, instr), k) <==> SelfContained(v, k)
    ensures InstrTyped(table, Patched(v, n, instr), k) <==> InstrTyped(table, v, k)
  {
    hide Bytes;
    var w := Patched(v, n, instr);
    assert w.code[k] == v.code[k];
    assert TypesAt(w, k + 1) == TypesAt(v, k + 1);
    match v.code[k]
    case If(d) => assert k + d <= |v.code| ==> TypesAt(w, k + d) == TypesAt(v, k + d);
    case Goto(d) => assert k + d <= |v.code| ==> TypesAt(w, k + d) == TypesAt(v, k + d);
    case _ =>
  }

  /** The unit once the jump around the first branch is out. */
  function BeforeThen(u: CompileUnit, low: seq<DataType>, jump: Instr): CompileUnit {
    u.(sim := low, code := u.code + [jump], at := u.at + [u.sim])
  }

  /** The unit once the jump over the second branch is out. */
  function BeforeElse(u: CompileUnit, low: seq<DataType>, jump: Instr): CompileUnit
    requires u.sim != []
  {
    u.(sim := Init(u.sim), code := u.code + [jump], at := u.at + [u.sim], restores := u.restores && Init(u.sim) == low)
  }

  lemma InitBytes(s: seq<DataType>)
    requires s != []
    ensures Bytes(Init(s)) <= Bytes(s)
  {
    BytesOfPrefix(s, |s| - 1);
  }

  /** The code before the second branch: the jump, the first branch, the jump. */
  lemma FirstBranchContinues(table: Table, u: CompileUnit, v: CompileUnit, w: CompileUnit, low: seq<DataType>, d: nat,
      e: nat)
    requires Sane(u) && u.sim != [] && Init(u.sim) == low && v.sim != []
    requires Sound(table, BeforeThen(u, low, If(d)), v)
    requires Continues(BeforeElse(v, low, Goto(e)), w)
    requires d == |v.code| - |u.code| + 1 && |v.code| + e == |w.code|
    ensures Continues(v, w) && Continues(u, w)
  {
    hide Bytes;
    var b, f := BeforeThen(u, low, If(d)), BeforeElse(v, low, Goto(e));
    assert w.code[|v.code|] == f.code[|v.code|] == Goto(e);
    assert w.at[|v.code|] == f.at[|v.code|] == v.sim;
    assert w.code[|u.code|] == v.code[|u.code|] == b.code[|u.code|] == If(d);
    assert w.at[|u.code|] == v.at[|u.code|] == b.at[|u.code|] == u.sim;
    forall k | |v.code| <= k < |w.code|
      ensures SelfContained(w, k)
    {
    }
    assert Continues(v, w);
    forall k | |u.code| <= k < |w.code|
      ensures SelfContained(w, k)
    {
      if |u.code| < k < |v.code| {
        SelfContainedLater(v, w, k);
      }
    }
  }

  /** The two jumps are typed exactly when both branches leave the stack below their result as they
      found it. */
  lemma JumpsTyped(table: Table, u: CompileUnit, v: CompileUnit, w: CompileUnit, low: seq<DataType>, d: nat, e: nat)
    requires Sane(u) && u.sim != [] && u.sim[|u.sim| - 1] == TBool && Init(u.sim) == low
    requires v.sim != [] && w.sim != [] && w.sim[|w.sim| - 1] == v.sim[|v.sim| - 1]
    requires Sound(table, BeforeThen(u, low, If(d)), v)
    requires Continues(BeforeElse(v, low, Goto(e)), w) && Continues(v, w) && Continues(u, w)
    requires d == |v.code| - |u.code| + 1 && e >= 1 && |v.code| + e == |w.code|
    ensures InstrTyped(table, w, |u.code|) && InstrTyped(table, w, |v.code|)
       <==> Init(v.sim) == low && Init(w.sim) == low
  {
    hide Bytes;
    var b, f := BeforeThen(u, low, If(d)), BeforeElse(v, low, Goto(e));
    assert w.code[|v.code|] == f.code[|v.code|] == Goto(e);
    assert w.at[|v.code|] == f.at[|v.code|] == v.sim;
    assert w.code[|u.code|] == v.code[|u.code|] == b.code[|u.code|] == If(d);
    assert w.at[|u.code|] == v.at[|u.code|] == b.at[|u.code|] == u.sim;
    TypesAtLater(b, v, |b.code|);
    TypesAtLater(v, w, |b.code|);
    assert TypesAt(w, |u.code| + 1) == low;
    assert TypesAt(w, |u.code| + d) == Init(v.sim);
    assert TypesAt(w, |v.code| + e) == w.sim;
    assert w.sim == Init(w.sim) + [w.sim[|w.sim| - 1]];
    assert v.sim == Init(v.sim) + [v.sim[|v.sim| - 1]];
  }

  lemma ConditionalIsSound(table: Table, u: CompileUnit, v: CompileUnit, w: CompileUnit, low: seq<DataType>, d: nat,
      e: nat)
    requires Sane(u) && u.sim != [] && u.sim[|u.sim| - 1] == TBool && Init(u.sim) == low
    requires v.sim != [] && w.sim != [] && w.sim[|w.sim| - 1] == v.sim[|v.sim| - 1]
    requires Sound(table, BeforeThen(u, low, If(d)), v)
    requires Sound(table, BeforeElse(v, low, Goto(e)), w)
    requires d == |v.code| - |u.code| + 1 && e >= 1 && |v.code| + e == |w.code|
    ensures Sound(table, u, w.(restores := w.restores && Init(w.sim) == low))
  {
    hide Bytes, InstrTyped, SelfContained;
    var b, f := BeforeThen(u, low, If(d)), BeforeElse(v, low, Goto(e));
    FirstBranchContinues(table, u, v, w, low, d, e);
    JumpsTyped(table, u, v, w, low, d, e);
    TypedFromSplit(table, b, v, w);
    var w' := w.(restores := w.restores && Init(w.sim) == low);
    SameButRestores(table, w, w');
    assert TypedFrom(table, w, |u.code|, |w.code|)
      <==> InstrTyped(table, w, |u.code|) && TypedFrom(table, w, |b.code|, |v.code|)
           && InstrTyped(table, w, |v.code|) && TypedFrom(table, w, |f.code|, |w.code|);
  }

  lemma SameButRestores(table: Table, u: CompileUnit, v: CompileUnit)
    requires v == u.(restores := v.restores) && Sane(u)
    ensures forall k :: 0 <= k < |u.code| ==> (InstrTyped(table, v, k) <==> InstrTyped(table, u, k))
    ensures forall k :: 0 <= k < |u.code| ==> (SelfContained(v, k) <==> SelfContained(u, k))
    ensures forall k :: 0 <= k <= |u.code| ==> TypesAt(v, k) == TypesAt(u, k)
  {
    hide Bytes;
  }

  // ----- Any list the compiler accepts

  /** No token that takes arguments has a name an internal entry answers to. */
  ghost predicate OrdinaryNames(table: Table, toks: seq<ParsedToken>) {
    forall j :: 0 <= j < |toks| && toks[j].argCount >= 0 ==> IsOrdinaryName(table, toks[j].tok.text)
  }

  lemma {:induction false} LoopIsSound(env: Env, toks: seq<ParsedToken>, i: nat, iz: nat, u: CompileUnit)
    requires i <= iz <= |toks| && OrdinaryNames(env.table, toks) && Sane(u)
    requires CompileLoop(env, toks, i, iz, u).Some?
    ensures Sound(env.table, u, CompileLoop(env, toks, i, iz, u).value)
    decreases iz - i, 1
  {
    hide Sane, Sound, CompileToken, CompileConditional, IsOrdinaryName;
    if i == iz {
      SoundNothing(env.table, u);
    } else if IsIf(toks[i]) {
      BranchesAreSound(env, toks, i, iz, u);
      var w := CompileConditional(env, toks, i, iz, u).value;
      SoundIsSane(env.table, u, w.1);
      LoopIsSound(env, toks, w.0 + 1, iz, w.1);
      SoundTransitive(env.table, u, w.1, CompileLoop(env, toks, i, iz, u).value);
    } else {
      TokenIsSound(env, toks[i], u);
      var v := CompileToken(env, toks[i], u).value;
      SoundIsSane(env.table, u, v);
      LoopIsSound(env, toks, i + 1, iz, v);
      SoundTransitive(env.table, u, v, CompileLoop(env, toks, i, iz, u).value);
    }
  }

  lemma SoundIsSane(table: Table, u: CompileUnit, v: CompileUnit)
    requires Sound(table, u, v)
    ensures Sane(v)
  {
  }

  lemma SoundNothing(table: Table, u: CompileUnit)
    requires Sane(u)
    ensures Sound(table, u, u)
  {
    hide Bytes, InstrTyped, SelfContained;
  }

  lemma {:induction false} BranchesAreSound(env: Env, toks: seq<ParsedToken>, i: nat, iz: nat, u: CompileUnit)
    requires i < iz <= |toks| && OrdinaryNames(env.table, toks) && Sane(u)
    requires CompileConditional(env, toks, i, iz, u).Some?
    ensures Sound(env.table, u, CompileConditional(env, toks, i, iz, u).value.1)
    decreases iz - i, 0
  {
    hide Sane, Sound, CompileRange, FindStartingAt, OrdinaryNames;
    var low := Init(u.sim);
    var thenI := FindStartingAt(toks, toks[i].end + 1, i + 1, iz, "then").value;
    var elseI := FindStartingAt(toks, toks[thenI].end + 1, thenI + 1, iz, "else").value;
    var d, v := ThenIsSound(env, toks, i, thenI, u, low);
    SoundIsSane(env.table, BeforeThen(u, low, If(d)), v);
    var e, w := ElseIsSound(env, toks, thenI, elseI, v, low);
    ConditionalIsSound(env.table, u, v, w, low, d, e);
  }

  lemma {:induction false} ThenIsSound(env: Env, toks: seq<ParsedToken>, i: nat, thenI: nat, u: CompileUnit,
      low: seq<DataType>)
    returns (d: nat, v: CompileUnit)
    requires i < thenI <= |toks| && OrdinaryNames(env.table, toks) && Sane(u) && u.sim != [] && Init(u.sim) == low
    requires CompileThen(env, toks, i, thenI, u, low).Some?
    ensures d == |v.code| - |u.code| + 1 && v.sim != []
    ensures Sound(env.table, BeforeThen(u, low, If(d)), v)
    ensures CompileThen(env, toks, i, thenI, u, low).value == (BeforeElse(v, low, Goto(UNPATCHED)), v.sim[|v.sim| - 1])
    decreases thenI - i - 1, 3
  {
    hide Sound, CompileLoop, Bytes;
    var u1 := BeforeThen(u, low, If(UNPATCHED));
    InitBytes(u.sim);
    LoopIsSound(env, toks, i + 1, thenI, u1);
    var u2 := CompileRange(env, toks, i + 1, thenI, u1).value;
    d := |u2.code| - |u.code| + 1;
    v := Patched(u2, |u.code|, If(d));
    PatchSound(env.table, u1, u2, |u.code|, If(d));
    assert Patched(u1, |u.code|, If(d)) == BeforeThen(u, low, If(d));
  }

  lemma {:induction false} ElseIsSound(env: Env, toks: seq<ParsedToken>, thenI: nat, elseI: nat, v: CompileUnit,
      low: seq<DataType>)
    returns (e: nat, w: CompileUnit)
    requires thenI < elseI <= |toks| && OrdinaryNames(env.table, toks) && Sane(v) && v.sim != []
    requires CompileElse(env, toks, thenI, elseI, BeforeElse(v, low, Goto(UNPATCHED)), low, v.sim[|v.sim| - 1]).Some?
    ensures |v.code| + e == |w.code| && e >= 1 && w.sim != [] && w.sim[|w.sim| - 1] == v.sim[|v.sim| - 1]
    ensures Sound(env.table, BeforeElse(v, low, Goto(e)), w)
    ensures CompileElse(env, toks, thenI, elseI, BeforeElse(v, low, Goto(UNPATCHED)), low, v.sim[|v.sim| - 1]).value
         == w.(restores := w.restores && Init(w.sim) == low)
    decreases elseI - thenI - 1, 3
  {
    hide Sound, CompileLoop, Bytes;
    var u4 := BeforeElse(v, low, Goto(UNPATCHED));
    InitBytes(v.sim);
    LoopIsSound(env, toks, thenI + 1, elseI, u4);
    var u5 := CompileRange(env, toks, thenI + 1, elseI, u4).value;
    e := |u5.code| - |v.code|;
    w := Patched(u5, |v.code|, Goto(e));
    PatchSound(env.table, u4, u5, |v.code|, Goto(e));
    assert Patched(u4, |v.code|, Goto(e)) == BeforeElse(v, low, Goto(e));
  }

  /** For every list of parsed tokens the compiler accepts: the simulated stack describes the real one
      at every instruction exactly when every branch leaves the stack below its result as it found it. */
  lemma AcceptedCodeIsTypedExactly(env: Env, toks: seq<ParsedToken>)
    requires OrdinaryNames(env.table, toks) && CompilePostfix(env, toks).Some?
    ensures var v := CompilePostfix(env, toks).value;
      && |v.at| == |v.code| && |v.sim| == 1
      && (CodeTyped(env.table, v) <==> v.restores)
  {
    hide CompileLoop, InstrTyped, SelfContained;
    LoopIsSound(env, toks, 0, |toks|, EMPTY_UNIT);
  }

  // ----- Expressions

  lemma {:induction false} PostOrderNames(table: Table, e: Expr, base: nat)
    requires WellWritten(table, e) && CallsOrdinaryOnly(table, e)
    requires IsOrdinaryName(table, "if") && IsOrdinaryName(table, "then") && IsOrdinaryName(table, "else")
    ensures OrdinaryNames(table, PostOrder(e, base))
    decreases e, 0
  {
    hide IsOrdinaryName;
    match e
    case Atom(_) =>
    case Unary(op, x) => PostOrderNames(table, x, base);
    case Binary(op, l, r) =>
      PostOrderNames(table, l, base);
      PostOrderNames(table, r, base + |PostOrder(l, base)|);
    case Call(name, args) => PostOrderArgsNames(table, args, base);
    case IfThenElse(_, _, _) => PostOrderIfNames(table, e, base);
    case Paren(x) => PostOrderNames(table, x, base);
  }

  lemma {:induction false} PostOrderIfNames(table: Table, e: Expr, base: nat)
    requires e.IfThenElse? && WellWritten(table, e) && CallsOrdinaryOnly(table, e)
    requires IsOrdinaryName(table, "if") && IsOrdinaryName(table, "then") && IsOrdinaryName(table, "else")
    ensures OrdinaryNames(table, PostOrder(e, base))
    decreases e, 0, 0
  {
    hide IsOrdinaryName;
    var cond := AfterArguments("if", 1, PostOrder(e.cond, base), base);
    PostOrderNames(table, e.cond, base);
    var thn := AfterArguments("then", 1, PostOrder(e.thn, base + |cond|), base + |cond|);
    PostOrderNames(table, e.thn, base + |cond|);
    PostOrderNames(table, e.els, base + |cond| + |thn|);
  }

  lemma {:induction false} PostOrderArgsNames(table: Table, args: seq<Expr>, base: nat)
    requires forall a <- args :: WellWritten(table, a) && CallsOrdinaryOnly(table, a)
    requires IsOrdinaryName(table, "if") && IsOrdinaryName(table, "then") && IsOrdinaryName(table, "else")
    ensures OrdinaryNames(table, PostOrderArgs(args, base))
    decreases args, 1
  {
    hide IsOrdinaryName;
    if args != [] {
      PostOrderNames(table, args[0], base);
      PostOrderArgsNames(table, args[1..], base + |PostOrder(args[0], base)|);
    }
  }

  /** Every well-written expression that compiles gives typed code: at every instruction a run reaches,
      the real stack has exactly the simulated stack's types, nothing underflows, it stays below the
      stack size and every jump goes forward. */
  lemma ExpressionCodeIsTyped(env: Env, e: Expr)
    requires GoodOperators(env.table) && WellWritten(env.table, e) && CallsOrdinaryOnly(env.table, e)
    requires IsOrdinaryName(env.table, "if") && IsOrdinaryName(env.table, "then") && IsOrdinaryName(env.table, "else")
    requires CompileExpression(env, Infix(e)).Some?
    ensures CodeTyped(env.table, CompileExpression(env, Infix(e)).value)
  {
    hide CompilePostfix, ParseSpec, PostOrder, Infix, Gen, CodeTyped, WellWritten, CallsOrdinaryOnly, IsOrdinaryName,
         GoodOperators, OrdinaryNames, LiteralsFit;
    var at := CompilerProofs.CompileExpressionExact(env, e);
    ShuntingYardProofs.ParseGivesPostOrder(env.table, e);
    PostOrderNames(env.table, e, 0);
    AcceptedCodeIsTypedExactly(env, PostOrder(e, 0));
  }
}
