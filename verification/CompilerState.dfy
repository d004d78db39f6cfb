/** The mutable state of the compiler: the simulated stack, the call list and the literals. A check that
    fails aborts the source; here it returns false and promises nothing more. */
module CompilerState {
  import opened DataTypes
  import opened CompilerSpec

  class SimulatedStack {
    const dataTypes: array<DataType>
    var size: nat
    var byteSize: nat

    ghost predicate Valid()
      reads this, dataTypes
    {
      && dataTypes.Length == MAX_STACK_BYTE_SIZE + 1
      && size <= dataTypes.Length
      && byteSize == Bytes(dataTypes[..size])
      && byteSize < MAX_STACK_BYTE_SIZE
    }

    ghost function Types(): seq<DataType>
      reads this, dataTypes
      requires Valid()
    {
      dataTypes[..size]
    }

    constructor ()
      ensures Valid() && Types() == [] && fresh(dataTypes)
    {
      dataTypes := new DataType[MAX_STACK_BYTE_SIZE + 1](_ => TInt);
      size, byteSize := 0, 0;
    }

    /** Refuses a push that would reach the size of the real stack. */
    method Push(t: DataType) returns (ok: bool)
      requires Valid()
      modifies this, dataTypes
      ensures ok == (Bytes(old(Types())) + TypeSize(t) < MAX_STACK_BYTE_SIZE)
      ensures ok ==> Valid() && Types() == old(Types()) + [t]
    {
      BytesAtLeastLength(dataTypes[..size]);
      BytesPush(dataTypes[..size], t);
      byteSize := byteSize + TypeSize(t);
      if byteSize >= MAX_STACK_BYTE_SIZE { return false; }
      ghost var before := dataTypes[..size];
      dataTypes[size] := t;
      size := size + 1;
      assert dataTypes[..size] == before + [t];
      return true;
    }

    method Pop() returns (ok: bool, t: DataType)
      requires Valid()
      modifies this
      ensures ok == (old(Types()) != [])
      ensures ok ==> Valid() && old(Types()) == Types() + [t]
    {
      if size == 0 { return false, TInt; }
      ghost var before := dataTypes[..size];
      size := size - 1;
      t := dataTypes[size];
      assert before == dataTypes[..size] + [t];
      BytesPush(dataTypes[..size], t);
      byteSize := byteSize - TypeSize(t);
      ok := true;
    }

    method Top() returns (ok: bool, t: DataType)
      requires Valid()
      ensures ok == (Types() != [])
      ensures ok ==> t == Types()[|Types()| - 1]
    {
      if size == 0 { return false, TInt; }
      return true, dataTypes[size - 1];
    }
  }

  class FunctionCallList {
    const functionCalls: array<Instr>
    var size: nat

    ghost predicate Valid()
      reads this, functionCalls
    {
      functionCalls.Length == MAX_NUMBER_FUNCTION_CALLS && size < MAX_NUMBER_FUNCTION_CALLS
    }

    ghost function Calls(): seq<Instr>
      reads this, functionCalls
      requires Valid()
    {
      functionCalls[..size]
    }

    constructor ()
      ensures Valid() && Calls() == [] && fresh(functionCalls)
    {
      functionCalls := new Instr[MAX_NUMBER_FUNCTION_CALLS](_ => End);
      size := 0;
    }

    method PushBack(call: Instr) returns (ok: bool)
      requires Valid()
      modifies this, functionCalls
      ensures ok == (|old(Calls())| + 1 < MAX_NUMBER_FUNCTION_CALLS)
      ensures ok ==> Valid() && Calls() == old(Calls()) + [call]
    {
      if size + 1 >= MAX_NUMBER_FUNCTION_CALLS { return false; }
      ghost var before := functionCalls[..size];
      functionCalls[size] := call;
      size := size + 1;
      assert functionCalls[..size] == before + [call];
      return true;
    }

    /** Back-patch a call that is already in the list. */
    method Patch(n: nat, call: Instr)
      requires Valid() && n < |Calls()|
      modifies functionCalls
      ensures Valid() && Calls() == old(Calls())[n := call]
    {
      functionCalls[n] := call;
    }
  }

  class LiteralStore {
    const literals: array<Literal>
    var nextLiteral: nat
    var nextString: nat

    ghost predicate Valid()
      reads this, literals
    {
      && literals.Length == MAX_NUMBER_LITERALS
      && nextLiteral <= literals.Length
      && nextString == StringBytes(literals[..nextLiteral])
    }

    ghost function Literals(): seq<Literal>
      reads this, literals
      requires Valid()
    {
      literals[..nextLiteral]
    }

    constructor ()
      ensures Valid() && Literals() == [] && fresh(literals)
    {
      literals := new Literal[MAX_NUMBER_LITERALS](_ => Literal(TInt, ""));
      nextLiteral, nextString := 0, 0;
    }

    method PushBack(literal: Literal) returns (ok: bool, offset: nat)
      requires Valid()
      modifies this, literals
      ensures ok == AddLiteral(old(Literals()), literal).Some?
      ensures ok ==> Valid() && Literals() == old(Literals()) + [literal] && offset == |old(Literals())|
    {
      if nextLiteral >= MAX_NUMBER_LITERALS { return false, 0; }
      ghost var before := literals[..nextLiteral];
      if literal.t == TString {
        if nextString + |literal.text| + 1 >= MAX_LITERAL_STRING_COMBINED_SIZE { return false, 0; }
        nextString := nextString + |literal.text| + 1;
      }
      literals[nextLiteral] := literal;
      offset := nextLiteral;
      nextLiteral := nextLiteral + 1;
      assert literals[..nextLiteral] == before + [literal];
      assert (before + [literal])[..|before|] == before;
      ok := true;
    }
  }
}
