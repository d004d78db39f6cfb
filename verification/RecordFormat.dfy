/** The native record format of np1/rel/record_ref.hpp: the size of what follows, the number of fields,
    each field behind its length, and eight bytes of checksum that are always zero. */
module RecordFormat {
  import opened Wrappers
  import opened CompressedInt

  type Bytes = seq<Byte>

  const POSTLUDE: Bytes := [0, 0, 0, 0, 0, 0, 0, 0]

  function WriteField(field: Bytes): Bytes {
    Encode(|field|) + field
  }

  function WriteFields(fields: seq<Bytes>): Bytes {
    if fields == [] then [] else WriteField(fields[0]) + WriteFields(fields[1..])
  }

  function SerializedSize(fieldLength: nat): nat {
    |Encode(fieldLength)| + fieldLength
  }

  function TotalSerializedSize(fields: seq<Bytes>): nat {
    if fields == [] then 0 else SerializedSize(|fields[0]|) + TotalSerializedSize(fields[1..])
  }

  /** The size field of the prelude: what comes behind it. */
  function ByteSizeInPrelude(totalFieldByteSize: nat, numberFields: nat): nat {
    totalFieldByteSize + |Encode(numberFields)| + |POSTLUDE|
  }

  function Assemble(fieldBytes: Bytes, totalFieldByteSize: nat, numberFields: nat): Bytes {
    Encode(ByteSizeInPrelude(totalFieldByteSize, numberFields)) + Encode(numberFields) + fieldBytes + POSTLUDE
  }

  /** `write_complete_record`. */
  function Write(fields: seq<Bytes>): Bytes {
    Assemble(WriteFields(fields), TotalSerializedSize(fields), |fields|)
  }

  /** Sizes fit the 64 bits they are kept in. */
  predicate Fits(fields: seq<Bytes>) {
    ByteSizeInPrelude(TotalSerializedSize(fields), |fields|) < TWO64
  }

  method TotalSize(fields: seq<Bytes>) returns (total: nat)
    ensures total == TotalSerializedSize(fields)
  {
    total := 0;
    var i := 0;
    while i < |fields|
      invariant 0 <= i <= |fields| && TotalSerializedSize(fields) == total + TotalSerializedSize(fields[i..])
    {
      assert fields[i..][1..] == fields[i + 1..];
      total := total + SerializedSize(|fields[i]|);
      i := i + 1;
    }
  }

  /** `write_complete_record`: the size is computed before anything is written. */
  method WriteCompleteRecord(fields: seq<Bytes>) returns (stream: Bytes)
    ensures stream == Write(fields)
  {
    var total := TotalSize(fields);
    var size := Compress(ByteSizeInPrelude(total, |fields|));
    var number := Compress(|fields|);
    stream := size + number;
    var i := 0;
    while i < |fields|
      invariant 0 <= i <= |fields| && size + number + WriteFields(fields) == stream + WriteFields(fields[i..])
    {
      assert fields[i..][1..] == fields[i + 1..];
      var length := Compress(|fields[i]|);
      assert stream + (length + fields[i] + WriteFields(fields[i + 1..]))
          == stream + length + fields[i] + WriteFields(fields[i + 1..]);
      stream := stream + length + fields[i];
      i := i + 1;
    }
    stream := stream + POSTLUDE;
  }

  /** The precomputed sizes are the sizes of what is written. */
  lemma {:induction false} FieldsSize(fields: seq<Bytes>)
    ensures |WriteFields(fields)| == TotalSerializedSize(fields)
  {
    if fields != [] { FieldsSize(fields[1..]); }
  }

  /** `required_record_data_size`. */
  function RequiredRecordDataSize(fields: seq<Bytes>): nat {
    var size := ByteSizeInPrelude(TotalSerializedSize(fields), |fields|);
    |Encode(size)| + size
  }

  lemma RequiredSizeIsWritten(fields: seq<Bytes>)
    ensures |Write(fields)| == RequiredRecordDataSize(fields)
  {
    FieldsSize(fields);
  }

  /** The bytes of a record: the number of bytes that come behind it, the number of fields, each field behind its
      length, and eight zeros. */
  lemma WrittenBytes(fields: seq<Bytes>) returns (body: Bytes)
    ensures Write(fields) == Encode(|body|) + body
    ensures body == Encode(|fields|) + WriteFields(fields) + [0, 0, 0, 0, 0, 0, 0, 0]
    ensures fields == [] ==> WriteFields(fields) == []
    ensures fields != [] ==> WriteFields(fields) == Encode(|fields[0]|) + fields[0] + WriteFields(fields[1..])
  {
    body := Encode(|fields|) + WriteFields(fields) + [0, 0, 0, 0, 0, 0, 0, 0];
    FieldsSize(fields);
  }

  // --- Finding the end of a record. ---

  datatype RecordEnd = NoEnd | Abort | At(end: nat)

  /** `get_record_end`. */
  function GetRecordEnd(buf: Bytes): (r: RecordEnd)
    ensures r.At? ==> 0 < r.end <= |buf|
  {
    match Decode(buf)
    case Incomplete => NoEnd
    case Malformed => Abort
    case Done(byteSize, p) => if p + byteSize <= |buf| then At(p + byteSize) else NoEnd
  }

  /** The exact boundary, whatever follows the record. */
  lemma EndOfWritten(fields: seq<Bytes>, rest: Bytes)
    requires Fits(fields)
    ensures GetRecordEnd(Write(fields) + rest) == At(|Write(fields)|)
  {
    var size := ByteSizeInPrelude(TotalSerializedSize(fields), |fields|);
    var tail := Encode(|fields|) + WriteFields(fields) + POSTLUDE;
    assert Write(fields) + rest == Encode(size) + (tail + rest);
    RoundTrip(size, tail + rest);
    FieldsSize(fields);
  }

  /** No end, and no complaint, while any byte of the record is missing. */
  lemma NoEndOfPrefix(fields: seq<Bytes>, n: nat)
    requires Fits(fields) && n < |Write(fields)|
    ensures GetRecordEnd(Write(fields)[..n]) == NoEnd
  {
    var size := ByteSizeInPrelude(TotalSerializedSize(fields), |fields|);
    var tail := Encode(|fields|) + WriteFields(fields) + POSTLUDE;
    assert Write(fields) == Encode(size) + tail;
    FieldsSize(fields);
    if n < |Encode(size)| {
      assert Write(fields)[..n] == Encode(size)[..n];
      PrefixIsIncomplete(size, n);
    } else {
      assert Write(fields)[..n] == Encode(size) + tail[..n - |Encode(size)|];
      RoundTrip(size, tail[..n - |Encode(size)|]);
    }
  }

  /** What is found in a buffer stays found when more bytes arrive. */
  lemma EndExtends(buf: Bytes, more: Bytes)
    requires !GetRecordEnd(buf).NoEnd?
    ensures GetRecordEnd(buf + more) == GetRecordEnd(buf)
  {
    DecodeExtends(buf, more);
  }

  // --- Reading fields. ---

  datatype Prelude = Prelude(numberFields: nat, firstField: nat)

  /** `mandatory_read_prelude`; none where the source aborts. */
  function ReadPrelude(r: Bytes): (p: Option<Prelude>)
    ensures p.Some? ==> p.value.firstField <= |r|
  {
    match Decode(r)
    case Incomplete => None
    case Malformed => None
    case Done(_, p) =>
      match Decode(r[p..])
      case Incomplete => None
      case Malformed => None
      case Done(numberFields, q) => Some(Prelude(numberFields, p + q))
  }

  datatype FieldResult = Aborted | Null | Text(text: Bytes)

  /** Walk over `k` fields from `at`, then read one; `end` is where the postlude begins. */
  function FieldFrom(r: Bytes, at: nat, end: nat, k: nat): FieldResult
    requires end <= |r|
    decreases k
  {
    if at > end then Aborted
    else if k == 0 then
      if at == end then Null
      else
        match Decode(r[at..end])
        case Incomplete => Aborted
        case Malformed => Aborted
        case Done(size, p) => if at + p + size <= |r| then Text(r[at + p..at + p + size]) else Aborted
    else
      match Decode(r[at..end])
      case Incomplete => Aborted
      case Malformed => Aborted
      case Done(size, p) => FieldFrom(r, at + p + size, end, k - 1)
  }

  function FieldOf(r: Bytes, fieldNumber: nat): FieldResult {
    match ReadPrelude(r)
    case None => Aborted
    case Some(prelude) =>
      if fieldNumber >= prelude.numberFields then Null
      else if |r| < |POSTLUDE| then Aborted
      else FieldFrom(r, prelude.firstField, |r| - |POSTLUDE|, fieldNumber)
  }

  /** `field`. */
  method ReadField(r: Bytes, fieldNumber: nat) returns (f: FieldResult)
    ensures f == FieldOf(r, fieldNumber)
  {
    hide Decode;
    if ReadPrelude(r).None? { return Aborted; }
    var prelude := ReadPrelude(r).value;
    if fieldNumber >= prelude.numberFields { return Null; }
    if |r| < |POSTLUDE| { return Aborted; }
    var end := |r| - |POSTLUDE|;
    var at: nat := prelude.firstField;
    var counter := 0;
    while counter < fieldNumber
      invariant 0 <= counter <= fieldNumber
      invariant FieldFrom(r, prelude.firstField, end, fieldNumber) == FieldFrom(r, at, end, fieldNumber - counter)
    {
      if at > end { return Aborted; }
      var size := Decompress(r[at..end]);
      if !size.Done? { return Aborted; }
      at := at + size.size + size.value;
      counter := counter + 1;
    }
    if at >= end { return if at == end then Null else Aborted; }
    var size := Decompress(r[at..end]);
    if !size.Done? || at + size.size + size.value > |r| { return Aborted; }
    f := Text(r[at + size.size..at + size.size + size.value]);
  }

  lemma WrittenPrelude(fields: seq<Bytes>)
    requires Fits(fields)
    ensures var r := Write(fields);
            && ReadPrelude(r).Some? && ReadPrelude(r).value.numberFields == |fields|
            && ReadPrelude(r).value.firstField + TotalSerializedSize(fields) + |POSTLUDE| == |r|
            && r[ReadPrelude(r).value.firstField..|r| - |POSTLUDE|] == WriteFields(fields)
  {
    var size := ByteSizeInPrelude(TotalSerializedSize(fields), |fields|);
    var tail := WriteFields(fields) + POSTLUDE;
    var r := Write(fields);
    assert r == Encode(size) + (Encode(|fields|) + tail);
    RoundTrip(size, Encode(|fields|) + tail);
    assert r[|Encode(size)|..] == Encode(|fields|) + tail;
    LengthsFit(fields);
    RoundTrip(|fields|, tail);
    FieldsSize(fields);
  }

  lemma {:induction false} LengthsFit(fields: seq<Bytes>)
    ensures |fields| <= TotalSerializedSize(fields) && forall i :: 0 <= i < |fields| ==>
        |fields[i]| <= TotalSerializedSize(fields)
  {
    if fields != [] { LengthsFit(fields[1..]); }
  }

  /** Every field that was written reads back, and one past the last is null. */
  lemma FieldsReadBack(fields: seq<Bytes>, k: nat)
    requires Fits(fields)
    ensures FieldOf(Write(fields), k) == if k < |fields| then Text(fields[k]) else Null
  {
    hide Write, Encode, Decode, ReadPrelude, WriteFields, FieldFrom, TotalSerializedSize;
    WrittenPrelude(fields);
    if k < |fields| {
      var r := Write(fields);
      LengthsFit(fields);
      WalkReads(r, fields, ReadPrelude(r).value.firstField, |r| - |POSTLUDE|, k);
    }
  }

  lemma SliceWithin(r: Bytes, at: nat, end: nat, i: nat, j: nat)
    requires at <= end <= |r| && i <= j <= end - at
    ensures r[at..end][i..j] == r[at + i..at + j]
  {
    var x, y := r[at..end][i..j], r[at + i..at + j];
    assert |x| == |y| && forall k :: 0 <= k < |x| ==> x[k] == y[k];
  }

  lemma SliceConcat(a: Bytes, b: Bytes, c: Bytes)
    ensures var s := a + b + c; s[|a|..|a + b|] == b && s[|a + b|..|s|] == c
  {
  }

  lemma {:induction false} WalkReads(r: Bytes, fields: seq<Bytes>, at: nat, end: nat, k: nat)
    requires at <= end <= |r| && r[at..end] == WriteFields(fields) && k < |fields|
    requires forall i :: 0 <= i < |fields| ==> |fields[i]| < TWO64
    ensures FieldFrom(r, at, end, k) == Text(fields[k])
    decreases k
  {
    hide Decode, Encode;
    var f, rest := fields[0], WriteFields(fields[1..]);
    assert r[at..end] == Encode(|f|) + (f + rest);
    RoundTrip(|f|, f + rest);
    var p := |Encode(|f|)|;
    var head := Encode(|f|) + f;
    assert r[at..end] == head + rest && |head| == p + |f|;
    SliceWithin(r, at, end, p, |head|);
    SliceWithin(r, at, end, |head|, end - at);
    SliceConcat(Encode(|f|), f, rest);
    if k > 0 {
      WalkReads(r, fields[1..], at + p + |f|, end, k - 1);
    }
  }

  // --- Writing a record and more fields as one record. ---

  /** `write(stream, record, fields)`: the bytes of the fields are copied. None where the source aborts. */
  function WriteMerged(r: Bytes, fields: seq<Bytes>): Option<Bytes> {
    match ReadPrelude(r)
    case None => None
    case Some(prelude) =>
      if prelude.firstField + |POSTLUDE| >= |r| then None
      else
        var end := |r| - |POSTLUDE|;
        var total := (end - prelude.firstField) + TotalSerializedSize(fields);
        Some(Assemble(r[prelude.firstField..end] + WriteFields(fields), total, prelude.numberFields + |fields|))
  }

  /** It writes the record of all the fields, exactly when the first record has a field at all. */
  lemma MergeIsConcatenation(first: seq<Bytes>, fields: seq<Bytes>)
    requires Fits(first)
    ensures first != [] ==> WriteMerged(Write(first), fields) == Some(Write(first + fields))
    ensures first == [] ==> WriteMerged(Write(first), fields) == None
  {
    hide Encode, Decode, ReadPrelude, WriteFields;
    WrittenPrelude(first);
    LengthsFit(first);
    FieldsConcat(first, fields);
  }

  lemma {:induction false} FieldsConcat(a: seq<Bytes>, b: seq<Bytes>)
    ensures WriteFields(a + b) == WriteFields(a) + WriteFields(b)
    ensures TotalSerializedSize(a + b) == TotalSerializedSize(a) + TotalSerializedSize(b)
  {
    hide Encode, WriteField;
    if a == [] {
      assert a + b == b;
    } else {
      FieldsConcat(a[1..], b);
      assert (a + b)[1..] == a[1..] + b && (a + b)[0] == a[0];
      assert WriteField(a[0]) + (WriteFields(a[1..]) + WriteFields(b))
          == WriteField(a[0]) + WriteFields(a[1..]) + WriteFields(b);
    }
  }
}
