/** The virtual machine, one instruction at a time, on values. */
module Machine {
  import opened Wrappers
  import opened DataTypes
  import opened FnTable
  import opened CompilerSpec

  /** A call that has been made. What a function returns may depend on the calls made before it. */
  datatype Event = Event(id: nat, args: seq<Value>)

  /** What lies outside the machine: what the functions compute and how text converts to values. */
  datatype Host = Host(
    call: (nat, seq<Event>, seq<Value>) -> Value,
    literal: (DataType, string) -> Value,
    field: (DataType, string) -> Value)

  ghost predicate GoodHost(table: Table, host: Host) {
    && (forall t, s :: TypeOfValue(host.literal(t, s)) == t)
    && (forall t, s :: TypeOfValue(host.field(t, s)) == t)
    && (forall id: nat, h, args :: id < |table| && TypesOf(args) == table[id].args ==>
          TypeOfValue(host.call(id, h, args)) == table[id].returnType)
  }

  datatype Record = Record(fields: seq<string>, number: nat)

  datatype Input = Input(thisRecord: Record, otherRecord: Record, lits: seq<Literal>)

  datatype VmState = VmState(pc: nat, stack: seq<Value>, history: seq<Event>)

  function StackBytes(stack: seq<Value>): nat {
    Bytes(TypesOf(stack))
  }

  /** Push and go on to the next instruction; beyond the end of the stack there is nowhere to push. */
  function Push(st: VmState, stack: seq<Value>, v: Value): Option<VmState> {
    if StackBytes(stack + [v]) <= MAX_STACK_BYTE_SIZE
    then Some(st.(pc := st.pc + 1, stack := stack + [v])) else None
  }

  function RecordOf(input: Input, isThis: bool): Record {
    if isThis then input.thisRecord else input.otherRecord
  }

  /** One instruction. `None` is a state the machine has no defined behaviour in, or a missing field,
      for which it aborts. */
  function Step(table: Table, host: Host, input: Input, instr: Instr, st: VmState): Option<VmState> {
    match instr
    case PushLiteral(t, k) =>
      if k < |input.lits| && input.lits[k].t == t then Push(st, st.stack, host.literal(t, input.lits[k].text)) else None
    case PushBool(b) => Push(st, st.stack, BoolV(b))
    case PushField(isThis, t, n) =>
      var r := RecordOf(input, isThis);
      if n < |r.fields| then Push(st, st.stack, host.field(t, r.fields[n])) else None
    case PushRowNumber(isThis) => Push(st, st.stack, UintV(RecordOf(input, isThis).number))
    case CallFn(id) =>
      if id >= |table| || !table[id].kind.Ordinary? || |st.stack| < |table[id].args| then None else
      var low := |st.stack| - |table[id].args|;
      var args := st.stack[low..];
      if TypesOf(args) != table[id].args then None else
      Push(st.(history := st.history + [Event(id, args)]), st.stack[..low], host.call(id, st.history, args))
    case If(offset) =>
      if st.stack == [] || !st.stack[|st.stack| - 1].BoolV? then None else
      Some(VmState(st.pc + if st.stack[|st.stack| - 1].b then 1 else offset, st.stack[..|st.stack| - 1], st.history))
    case Goto(offset) => Some(st.(pc := st.pc + offset))
    case End => None
  }

  /** Run from `st` to the sentinel. A jump that does not go forward, or that leaves the code, is `None`. */
  function Run(table: Table, host: Host, input: Input, code: seq<Instr>, st: VmState): Option<VmState>
    decreases |code| - st.pc
  {
    if st.pc >= |code| then None
    else if code[st.pc].End? then Some(st)
    else
      var next :- Step(table, host, input, code[st.pc], st);
      if next.pc <= st.pc then None else Run(table, host, input, code, next)
  }

  /** What the VM constructor makes of compiled code: the code, then the sentinel that stops the run. */
  function WithSentinel(code: seq<Instr>): Option<seq<Instr>> {
    if |code| + 1 < MAX_NUMBER_FUNCTION_CALLS then Some(code + [End]) else None
  }
}
