/** np1/io/mandatory_record_input_stream.hpp: records are found in a buffer that is filled by reads of any
    size, moved up after each and enlarged when one record fills it. */
module RecordStream {
  import opened CompressedInt
  import opened RecordFormat

  const INITIAL_BUFFER_SIZE: nat := 256 * 1024

  /** What the callback is called with. */
  datatype Numbered = Numbered(bytes: Bytes, number: nat)

  /** The calls, and whether the process was stopped by a malformed record. */
  datatype Parsed = Parsed(records: seq<Numbered>, aborted: bool)

  /** Decoding a whole stream at once, its first record having the given number. */
  function DecodeAll(data: Bytes, number: nat): Parsed
    decreases |data|
  {
    match GetRecordEnd(data)
    case NoEnd => Parsed([], false)
    case Abort => Parsed([], true)
    case At(end) =>
      var rest := DecodeAll(data[end..], number + 1);
      Parsed([Numbered(data[..end], number)] + rest.records, rest.aborted)
  }

  function Prepend(records: seq<Numbered>, rest: Parsed): Parsed {
    Parsed(records + rest.records, rest.aborted)
  }

  /** A stream that delivers its data in reads of any size. */
  class Stream {
    const data: Bytes
    var position: nat

    ghost predicate Valid()
      reads this
    {
      position <= |data|
    }

    constructor (data: Bytes)
      ensures Valid() && this.data == data && position == 0
    {
      this.data, position := data, 0;
    }

    /** `read_some`: nothing at the end of the stream, otherwise at least one byte and at most `size`. */
    method ReadSome(size: nat) returns (bytes: Bytes)
      requires Valid() && size > 0
      modifies this
      ensures Valid() && old(position) <= position && bytes == data[old(position)..position] && |bytes| <= size
      ensures bytes == [] <==> old(position) == |data|
    {
      if position == |data| { return []; }
      var n: nat :| 0 < n <= size && n <= |data| - position;
      bytes := data[position..position + n];
      position := position + n;
    }
  }

  /** The buffer holds the bytes `start..position` of the stream, and everything before has been handed out. */
  ghost predicate Scanned(data: Bytes, start: nat, position: nat, records: seq<Numbered>, number: nat) {
    && start <= position <= |data|
    && DecodeAll(data, 1) == Prepend(records, DecodeAll(data[start..], number))
    && |records| == number - 1
  }

  lemma ScanRecord(data: Bytes, start: nat, position: nat, records: seq<Numbered>, number: nat)
    requires Scanned(data, start, position, records, number) && GetRecordEnd(data[start..position]).At?
    ensures var end := GetRecordEnd(data[start..position]).end;
            Scanned(data, start + end, position, records + [Numbered(data[start..start + end], number)], number + 1)
  {
    hide GetRecordEnd;
    var end := GetRecordEnd(data[start..position]).end;
    assert data[start..position] + data[position..] == data[start..];
    EndExtends(data[start..position], data[position..]);
    assert data[start..][end..] == data[start + end..] && data[start..][..end] == data[start..start + end];
    var rest := DecodeAll(data[start + end..], number + 1);
    var r := Numbered(data[start..start + end], number);
    assert records + ([r] + rest.records) == records + [r] + rest.records;
  }

  lemma ScanAbort(data: Bytes, start: nat, position: nat, records: seq<Numbered>, number: nat)
    requires Scanned(data, start, position, records, number) && GetRecordEnd(data[start..position]).Abort?
    ensures DecodeAll(data, 1) == Parsed(records, true)
  {
    hide GetRecordEnd;
    assert data[start..position] + data[position..] == data[start..];
    EndExtends(data[start..position], data[position..]);
  }

  lemma ScanEnd(data: Bytes, start: nat, records: seq<Numbered>, number: nat)
    requires Scanned(data, start, |data|, records, number) && GetRecordEnd(data[start..]).NoEnd?
    ensures DecodeAll(data, 1) == Parsed(records, false)
  {
  }

  lemma SliceOfSlice(buffer: Bytes, dataEnd: nat, data: Bytes, from: nat, start: nat)
    requires start <= dataEnd <= |buffer| && from + dataEnd <= |data| && buffer[..dataEnd] == data[from..from + dataEnd]
    ensures buffer[start..dataEnd] == data[from + start..from + dataEnd]
  {
    assert buffer[start..dataEnd] == buffer[..dataEnd][start..];
    assert data[from + start..from + dataEnd] == data[from..from + dataEnd][start..];
  }

  /** The inner loop: hand out every complete record in `buffer[start..dataEnd]`. */
  method ScanBuffer(buffer: Bytes, dataEnd: nat, records: seq<Numbered>, number: nat, ghost data: Bytes,
      ghost from: nat)
    returns (start: nat, records': seq<Numbered>, number': nat, aborted: bool)
    requires dataEnd <= |buffer| && from + dataEnd <= |data| && buffer[..dataEnd] == data[from..from + dataEnd]
    requires Scanned(data, from, from + dataEnd, records, number)
    ensures start <= dataEnd
    ensures aborted ==> DecodeAll(data, 1) == Parsed(records', true)
    ensures !aborted ==>
        && Scanned(data, from + start, from + dataEnd, records', number')
        && GetRecordEnd(buffer[start..dataEnd]).NoEnd?
  {
    hide GetRecordEnd, Scanned;
    start, records', number' := 0, records, number;
    while true
      invariant start <= dataEnd && Scanned(data, from + start, from + dataEnd, records', number')
      decreases dataEnd - start
    {
      SliceOfSlice(buffer, dataEnd, data, from, start);
      var recordEnd := GetRecordEnd(buffer[start..dataEnd]);
      if recordEnd.NoEnd? { return start, records', number', false; }
      if recordEnd.Abort? {
        ScanAbort(data, from + start, from + dataEnd, records', number');
        return start, records', number', true;
      }
      ScanRecord(data, from + start, from + dataEnd, records', number');
      records' := records' + [Numbered(buffer[start..start + recordEnd.end], number')];
      assert buffer[start..start + recordEnd.end] == buffer[start..dataEnd][..recordEnd.end];
      assert data[from + start..from + start + recordEnd.end] == data[from + start..from + dataEnd][..recordEnd.end];
      start := start + recordEnd.end;
      number' := number' + 1;
    }
  }

  /** `parse_records` with a callback that never asks to stop: however the reads split the stream, the calls
      are those of decoding it at once. Every read is offered room, also behind a record that fills the
      buffer. */
  method ParseRecords(stream: Stream) returns (parsed: Parsed)
    requires stream.Valid() && stream.position == 0
    modifies stream
    ensures parsed == DecodeAll(stream.data, 1)
  {
    hide GetRecordEnd, Scanned;
    var buffer: Bytes := seq(INITIAL_BUFFER_SIZE, _ => 0);
    var readPos: nat := 0;
    var records: seq<Numbered>, number := [], 1;
    StartScan(stream.data);
    ghost var from: nat := 0;
    while true
      invariant stream.Valid() && readPos < |buffer| && from + readPos == stream.position
      invariant buffer[..readPos] == stream.data[from..stream.position]
      invariant Scanned(stream.data, from, stream.position, records, number) && GetRecordEnd(buffer[..readPos]).NoEnd?
      decreases |stream.data| - stream.position
    {
      ghost var position := stream.position;
      var bytes := stream.ReadSome(|buffer| - readPos);
      if bytes == [] {
        assert stream.data[from..] == buffer[..readPos];
        ScanEnd(stream.data, from, records, number);
        return Parsed(records, false);
      }
      ReadMore(stream.data, from, position, stream.position, records, number);
      var dataEnd := readPos + |bytes|;
      buffer := buffer[..readPos] + bytes + buffer[dataEnd..];
      assert buffer[..dataEnd] == stream.data[from..from + dataEnd];
      var start, aborted;
      start, records, number, aborted := ScanBuffer(buffer, dataEnd, records, number, stream.data, from);
      if aborted { return Parsed(records, true); }
      SliceOfSlice(buffer, dataEnd, stream.data, from, start);
      buffer := MoveUp(buffer, start, dataEnd);
      readPos := dataEnd - start;
      from := from + start;
    }
  }

  /** Move the incomplete record at the end of the data to the front, in a larger buffer if it fills this one. */
  method MoveUp(buffer: Bytes, start: nat, dataEnd: nat) returns (moved: Bytes)
    requires start <= dataEnd <= |buffer|
    ensures |moved| > dataEnd - start && moved[..dataEnd - start] == buffer[start..dataEnd]
    ensures |moved| == |buffer| + if dataEnd - start >= |buffer| then INITIAL_BUFFER_SIZE else 0
  {
    var remainderLength := dataEnd - start;
    moved := buffer;
    if remainderLength >= |moved| {
      moved := moved + seq(INITIAL_BUFFER_SIZE, _ => 0);
    }
    moved := moved[start..dataEnd] + moved[remainderLength..];
  }

  lemma StartScan(data: Bytes)
    ensures Scanned(data, 0, 0, [], 1) && GetRecordEnd([]).NoEnd?
  {
    assert data[0..] == data;
    assert [] + DecodeAll(data, 1).records == DecodeAll(data, 1).records;
  }

  lemma ReadMore(data: Bytes, from: nat, position: nat, position': nat, records: seq<Numbered>, number: nat)
    requires Scanned(data, from, position, records, number) && position <= position' <= |data|
    ensures Scanned(data, from, position', records, number)
  {
  }

  // --- A stream of written records. ---

  function WriteAll(records: seq<seq<Bytes>>): Bytes {
    if records == [] then [] else Write(records[0]) + WriteAll(records[1..])
  }

  function NumberedFrom(records: seq<seq<Bytes>>, number: nat): seq<Numbered> {
    seq(|records|, i requires 0 <= i < |records| => Numbered(Write(records[i]), number + i))
  }

  /** A stream of written records, also one cut short in the middle of a further one, decodes to them. */
  lemma {:induction false} WrittenRecordsParse(records: seq<seq<Bytes>>, last: seq<Bytes>, n: nat, number: nat)
    requires (forall i :: 0 <= i < |records| ==> Fits(records[i])) && Fits(last) && n < |Write(last)|
    ensures DecodeAll(WriteAll(records) + Write(last)[..n], number) == Parsed(NumberedFrom(records, number), false)
    decreases |records|
  {
    hide Write, GetRecordEnd, Fits;
    var cut := Write(last)[..n];
    var data := WriteAll(records) + cut;
    if records == [] {
      assert data == cut;
      NoEndOfPrefix(last, n);
    } else {
      var rest := WriteAll(records[1..]) + cut;
      assert data == Write(records[0]) + rest;
      EndOfWritten(records[0], rest);
      WrittenRecordsParse(records[1..], last, n, number + 1);
      assert data[..|Write(records[0])|] == Write(records[0]) && data[|Write(records[0])|..] == rest;
      assert NumberedFrom(records, number) == [Numbered(Write(records[0]), number)] + NumberedFrom(records[1..],
          number + 1);
    }
  }
}
