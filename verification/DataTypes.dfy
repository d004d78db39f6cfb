/** The rlang data types, and how much of the value stack a value of each type takes. */
module DataTypes {
  datatype DataType = TString | TIString | TInt | TUint | TDouble | TBool | TIpAddress

  datatype Value =
    | StringV(s: string)
    | IStringV(s: string)
    | IpV(s: string)
    | IntV(i: int)
    | UintV(u: int)
    | DoubleV(d: real)
    | BoolV(b: bool)

  function TypeOfValue(v: Value): DataType {
    match v
    case StringV(_) => TString
    case IStringV(_) => TIString
    case IpV(_) => TIpAddress
    case IntV(_) => TInt
    case UintV(_) => TUint
    case DoubleV(_) => TDouble
    case BoolV(_) => TBool
  }

  function TypesOf(vs: seq<Value>): seq<DataType> {
    seq(|vs|, i requires 0 <= i < |vs| => TypeOfValue(vs[i]))
  }

  const MAX_STACK_BYTE_SIZE: nat := 1024

  /** A string is stored as a pointer and a length, everything else as one 8-byte word. */
  function WordCount(t: DataType): nat {
    match t
    case TString | TIString | TIpAddress => 2
    case TInt | TUint | TDouble | TBool => 1
  }

  function TypeSize(t: DataType): nat {
    8 * WordCount(t)
  }

  function Bytes(ts: seq<DataType>): nat {
    if ts == [] then 0 else Bytes(ts[..|ts| - 1]) + TypeSize(ts[|ts| - 1])
  }

  lemma BytesPush(ts: seq<DataType>, t: DataType)
    ensures Bytes(ts + [t]) == Bytes(ts) + TypeSize(t)
  {
    assert (ts + [t])[..|ts|] == ts;
  }

  lemma {:induction false} BytesConcat(a: seq<DataType>, b: seq<DataType>)
    ensures Bytes(a + b) == Bytes(a) + Bytes(b)
  {
    if b == [] {
      assert a + b == a;
    } else {
      var b' := b[..|b| - 1];
      assert a + b == (a + b') + [b[|b| - 1]];
      BytesPush(a + b', b[|b| - 1]);
      BytesConcat(a, b');
    }
  }

  lemma {:induction false} BytesAtLeastLength(ts: seq<DataType>)
    ensures 8 * |ts| <= Bytes(ts)
  {
    if ts != [] {
      BytesAtLeastLength(ts[..|ts| - 1]);
    }
  }
}
