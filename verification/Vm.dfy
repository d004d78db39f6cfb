/** The virtual machine as it runs: a stack of 8-byte words, a program counter that moves by the offset
    each instruction returns, and a sentinel that stops it. */
module Vm {
  import opened Wrappers
  import opened DataTypes
  import opened FnTable
  import opened CompilerSpec
  import opened Machine
  import opened StackTyping

  /** What one word of the stack holds. A string takes a pointer and a length. */
  datatype Word = Number(n: int) | Real(r: real) | Flag(b: bool) | Pointer(p: string) | Length(len: nat)

  function Words(v: Value): (r: seq<Word>)
    ensures |r| == WordCount(TypeOfValue(v))
  {
    match v
    case StringV(s) => [Pointer(s), Length(|s|)]
    case IStringV(s) => [Pointer(s), Length(|s|)]
    case IpV(s) => [Pointer(s), Length(|s|)]
    case IntV(i) => [Number(i)]
    case UintV(u) => [Number(u)]
    case DoubleV(d) => [Real(d)]
    case BoolV(b) => [Flag(b)]
  }

  function AllWords(vs: seq<Value>): seq<Word> {
    if vs == [] then [] else AllWords(vs[..|vs| - 1]) + Words(vs[|vs| - 1])
  }

  lemma AllWordsPush(vs: seq<Value>, v: Value)
    ensures AllWords(vs + [v]) == AllWords(vs) + Words(v)
  {
    assert (vs + [v])[..|vs|] == vs;
  }

  lemma {:induction false} AllWordsLength(vs: seq<Value>)
    ensures 8 * |AllWords(vs)| == StackBytes(vs)
  {
    if vs == [] {
      assert TypesOf(vs) == [];
    } else {
      var low, v := vs[..|vs| - 1], vs[|vs| - 1];
      AllWordsLength(low);
      assert TypesOf(vs) == TypesOf(low) + [TypeOfValue(v)];
      BytesPush(TypesOf(low), TypeOfValue(v));
    }
  }

  class VmStack {
    const data: array<Word>
    var ptr: nat

    ghost predicate Valid()
      reads this, data
    {
      8 * data.Length == MAX_STACK_BYTE_SIZE && ptr <= data.Length
    }

    ghost function Used(): seq<Word>
      reads this, data
      requires Valid()
    {
      data[..ptr]
    }

    constructor ()
      ensures Valid() && Used() == [] && fresh(data)
    {
      data := new Word[MAX_STACK_BYTE_SIZE / 8](_ => Number(0));
      ptr := 0;
    }

    method Reset()
      requires Valid()
      modifies this
      ensures Valid() && Used() == []
    {
      ptr := 0;
    }

    method PushWord(w: Word)
      requires Valid() && ptr < data.Length
      modifies this, data
      ensures Valid() && Used() == old(Used()) + [w]
    {
      ghost var before := data[..ptr];
      data[ptr] := w;
      ptr := ptr + 1;
      assert data[..ptr] == before + [w];
    }

    /** The overloads of push: nothing checks for room, the caller must know there is some. */
    method Push(v: Value)
      requires Valid() && ptr + WordCount(TypeOfValue(v)) <= data.Length
      modifies this, data
      ensures Valid() && Used() == old(Used()) + Words(v)
    {
      match v
      case StringV(s) => PushWord(Pointer(s)); PushWord(Length(|s|));
      case IStringV(s) => PushWord(Pointer(s)); PushWord(Length(|s|));
      case IpV(s) => PushWord(Pointer(s)); PushWord(Length(|s|));
      case IntV(i) => PushWord(Number(i));
      case UintV(u) => PushWord(Number(u));
      case DoubleV(d) => PushWord(Real(d));
      case BoolV(b) => PushWord(Flag(b));
    }

    method PopWord(ghost low: seq<Word>) returns (w: Word)
      requires Valid() && ptr > 0 && low == Used()[..ptr - 1]
      modifies this
      ensures Valid() && Used() == low && old(Used()) == low + [w]
    {
      ptr := ptr - 1;
      w := data[ptr];
    }

    /** A text: its length is on top of its pointer. */
    method PopText(ghost low: seq<Word>, ghost s: string) returns (r: string)
      requires Valid() && Used() == low + [Pointer(s), Length(|s|)]
      modifies this
      ensures Valid() && Used() == low && r == s
    {
      assert Used()[..ptr - 1] == low + [Pointer(s)];
      var length := PopWord(low + [Pointer(s)]);
      assert Used()[..ptr - 1] == low;
      var pointer := PopWord(low);
      r := pointer.p[..length.len];
    }

    method PopOne(ghost low: seq<Word>, ghost w: Word) returns (r: Word)
      requires Valid() && Used() == low + [w]
      modifies this
      ensures Valid() && Used() == low && r == w
    {
      assert Used()[..ptr - 1] == low;
      r := PopWord(low);
    }

    /** The overloads of pop: the words come back as a value of type `t` because one was pushed. */
    method Pop(t: DataType, ghost low: seq<Word>, ghost v: Value) returns (r: Value)
      requires Valid() && TypeOfValue(v) == t && Used() == low + Words(v)
      modifies this
      ensures Valid() && Used() == low && r == v
    {
      match t {
        case TString => var text := PopText(low, v.s); r := StringV(text);
        case TIString => var text := PopText(low, v.s); r := IStringV(text);
        case TIpAddress => var text := PopText(low, v.s); r := IpV(text);
        case TInt => var w := PopOne(low, Number(v.i)); r := IntV(w.n);
        case TUint => var w := PopOne(low, Number(v.u)); r := UintV(w.n);
        case TDouble => var w := PopOne(low, Real(v.d)); r := DoubleV(w.r);
        case TBool => var w := PopOne(low, Flag(v.b)); r := BoolV(w.b);
      }
    }
  }

  /** The stack holds the words of these values. */
  ghost predicate Holds(stack: VmStack, vs: seq<Value>)
    reads stack, stack.data
  {
    stack.Valid() && stack.Used() == AllWords(vs)
  }

  method PushValue(stack: VmStack, v: Value, ghost vs: seq<Value>)
    requires Holds(stack, vs) && StackBytes(vs + [v]) <= MAX_STACK_BYTE_SIZE
    modifies stack, stack.data
    ensures Holds(stack, vs + [v])
  {
    AllWordsPush(vs, v);
    AllWordsLength(vs + [v]);
    stack.Push(v);
  }

  method PopValue(stack: VmStack, t: DataType, ghost vs: seq<Value>) returns (r: Value)
    requires Holds(stack, vs) && vs != [] && TypeOfValue(vs[|vs| - 1]) == t
    modifies stack
    ensures Holds(stack, vs[..|vs| - 1]) && r == vs[|vs| - 1]
  {
    r := stack.Pop(t, AllWords(vs[..|vs| - 1]), vs[|vs| - 1]);
  }

  /** Pop the arguments of a call, the last one first. */
  method PopArgs(stack: VmStack, types: seq<DataType>, ghost vs: seq<Value>) returns (args: seq<Value>)
    requires Holds(stack, vs) && |types| <= |vs| && TypesOf(vs[|vs| - |types|..]) == types
    modifies stack
    ensures Holds(stack, vs[..|vs| - |types|]) && args == vs[|vs| - |types|..]
  {
    hide AllWords, Holds, TypeOfValue;
    args := [];
    var i := |types|;
    ghost var low: nat := |vs| - |types|;
    assert vs[..low + i] == vs && vs[low + i..] == [];
    while i > 0
      invariant 0 <= i <= |types| && args == vs[low + i..]
      invariant Holds(stack, vs[..low + i])
    {
      i := i - 1;
      ArgType(vs, types, low, i);
      var top := PopValue(stack, types[i], vs[..low + i + 1]);
      args := [top] + args;
    }
  }

  lemma ArgType(vs: seq<Value>, types: seq<DataType>, low: nat, i: nat)
    requires low <= |vs| && TypesOf(vs[low..]) == types && i < |types|
    ensures TypeOfValue(vs[..low + i + 1][low + i]) == types[i]
    ensures vs[..low + i + 1][..low + i] == vs[..low + i] && vs[low + i..] == [vs[low + i]] + vs[low + i + 1..]
  {
    assert TypesOf(vs[low..])[i] == TypeOfValue(vs[low + i]);
  }

  /** Is the state one the instruction can be carried out in, apart from a field that may be missing? */
  predicate CanStep(table: Table, input: Input, instr: Instr, st: VmState) {
    var room := MAX_STACK_BYTE_SIZE;
    match instr
    case PushLiteral(t, k) =>
      k < |input.lits| && input.lits[k].t == t && StackBytes(st.stack) + TypeSize(t) <= room
    case PushBool(_) => StackBytes(st.stack) + TypeSize(TBool) <= room
    case PushField(_, t, _) => StackBytes(st.stack) + TypeSize(t) <= room
    case PushRowNumber(_) => StackBytes(st.stack) + TypeSize(TUint) <= room
    case CallFn(id) =>
      && id < |table| && table[id].kind.Ordinary? && |table[id].args| <= |st.stack|
      && TypesOf(st.stack[|st.stack| - |table[id].args|..]) == table[id].args
      && StackBytes(st.stack[..|st.stack| - |table[id].args|]) + TypeSize(table[id].returnType) <= room
    case If(_) => st.stack != [] && st.stack[|st.stack| - 1].BoolV?
    case Goto(_) => true
    case End => false
  }

  lemma TypedCanStep(table: Table, input: Input, u: CompileUnit, st: VmState)
    requires CodeTyped(table, u) && input.lits == u.lits && Described(u, st) && st.pc < |u.code|
    ensures CanStep(table, input, u.code[st.pc], st)
  {
    hide Bytes;
    var k, stack := st.pc, st.stack;
    assert InstrTyped(table, u, k);
    BytesAt(table, u, k + 1);
    match u.code[k]
    case PushLiteral(t, l) => BytesPush(TypesOf(stack), t);
    case PushBool(b) => BytesPush(TypesOf(stack), TBool);
    case PushField(isThis, t, n) => BytesPush(TypesOf(stack), t);
    case PushRowNumber(isThis) => BytesPush(TypesOf(stack), TUint);
    case CallFn(id) =>
      var low := |stack| - |table[id].args|;
      TypesOfSlice(stack, low);
      BytesPush(TypesOf(stack[..low]), table[id].returnType);
    case If(d) => assert TypeOfValue(stack[|stack| - 1]) == TypesOf(stack)[|stack| - 1];
    case Goto(d) =>
  }

  lemma PushFits(stack: seq<Value>, v: Value, t: DataType)
    requires TypeOfValue(v) == t && StackBytes(stack) + TypeSize(t) <= MAX_STACK_BYTE_SIZE
    ensures StackBytes(stack + [v]) <= MAX_STACK_BYTE_SIZE
  {
    TypesOfPush(stack, v);
    BytesPush(TypesOf(stack), t);
  }

  /** Carry out one instruction: change the stack and say how far the program counter moves. `ok` is
      false when the record lacks the field. */
  method Execute(table: Table, host: Host, input: Input, instr: Instr, stack: VmStack, history0: seq<Event>,
                 ghost st: VmState)
    returns (ok: bool, advance: nat, history: seq<Event>)
    requires GoodHost(table, host) && CanStep(table, input, instr, st)
    requires Holds(stack, st.stack) && history0 == st.history
    modifies stack, stack.data
    ensures ok == Step(table, host, input, instr, st).Some?
    ensures ok ==> var next := Step(table, host, input, instr, st).value;
      Holds(stack, next.stack) && history == next.history && st.pc + advance == next.pc
  {
    hide Bytes, Holds, StackBytes, TypesOf;
    ok, advance, history := true, 1, history0;
    match instr
    case PushLiteral(t, k) =>
      var v := host.literal(t, input.lits[k].text);
      PushFits(st.stack, v, t);
      PushValue(stack, v, st.stack);
    case PushBool(b) =>
      PushFits(st.stack, BoolV(b), TBool);
      PushValue(stack, BoolV(b), st.stack);
    case PushField(isThis, t, n) =>
      var r := RecordOf(input, isThis);
      if n >= |r.fields| { return false, advance, history; }
      var v := host.field(t, r.fields[n]);
      PushFits(st.stack, v, t);
      PushValue(stack, v, st.stack);
    case PushRowNumber(isThis) =>
      var v := UintV(RecordOf(input, isThis).number);
      PushFits(st.stack, v, TUint);
      PushValue(stack, v, st.stack);
    case CallFn(id) =>
      var args := PopArgs(stack, table[id].args, st.stack);
      var v := host.call(id, history, args);
      history := history + [Event(id, args)];
      PushFits(st.stack[..|st.stack| - |table[id].args|], v, table[id].returnType);
      PushValue(stack, v, st.stack[..|st.stack| - |table[id].args|]);
    case If(offset) =>
      var cond := PopValue(stack, TBool, st.stack);
      advance := if cond.b then 1 else offset;
    case Goto(offset) =>
      advance := offset;
  }

  class Vm {
    const code: seq<Instr>
    const lits: seq<Literal>
    const stack: VmStack
    /** False where the source aborts: there is no room for the sentinel. */
    const ok: bool

    /** The code gets its sentinel here. */
    constructor (calls: seq<Instr>, lits: seq<Literal>)
      ensures ok == WithSentinel(calls).Some? && (ok ==> Some(code) == WithSentinel(calls)) && this.lits == lits
      ensures fresh(stack) && fresh(stack.data) && stack.Valid()
    {
      ok := |calls| + 1 < MAX_NUMBER_FUNCTION_CALLS;
      code := if |calls| + 1 < MAX_NUMBER_FUNCTION_CALLS then calls + [End] else calls;
      this.lits := lits;
      stack := new VmStack();
    }

    /** `run_no_heap_reset`: for code the simulated stack describes, the run ends, never reads or writes
        outside the stack, and leaves exactly what the machine leaves; `ok` is false only where the
        machine aborts. */
    method RunAll(table: Table, host: Host, thisRecord: Record, otherRecord: Record, ghost u: CompileUnit)
      returns (ok: bool, history: seq<Event>)
      requires CodeTyped(table, u) && GoodHost(table, host) && code == u.code + [End] && lits == u.lits
      requires stack.Valid()
      modifies stack, stack.data
      ensures var end := Run(table, host, Input(thisRecord, otherRecord, lits), code, VmState(0, [], []));
        && ok == end.Some?
        && (ok ==> Holds(stack, end.value.stack) && history == end.value.history)
    {
      hide InstrTyped, Step, CanStep, GoodHost, CodeTyped;
      stack.Reset();
      history := [];
      var pc := 0;
      var input := Input(thisRecord, otherRecord, lits);
      ghost var vals: seq<Value> := [];
      ghost var start := VmState(0, [], []);
      StartIsDescribed(table, u);
      while !code[pc].End?
        invariant pc <= |u.code| && Described(u, VmState(pc, vals, history)) && Holds(stack, vals)
        invariant Run(table, host, input, code, VmState(pc, vals, history)) == Run(table, host, input, code, start)
        decreases |u.code| - pc
      {
        ghost var st := VmState(pc, vals, history);
        TypedCanStep(table, input, u, st);
        StepIsSafe(table, host, input, u, st);
        var advance: nat;
        ok, advance, history := Execute(table, host, input, code[pc], stack, history, st);
        if !ok { return; }
        pc := pc + advance;
        vals := Step(table, host, input, code[st.pc], st).value.stack;
      }
      ok := true;
    }
  }

  lemma StartIsDescribed(table: Table, u: CompileUnit)
    requires CodeTyped(table, u)
    ensures Described(u, VmState(0, [], []))
  {
  }
}
