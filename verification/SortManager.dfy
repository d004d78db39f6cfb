/** np1/rel/detail/sort_manager.hpp: sort an input of any length with one bounded chunk in memory. A
    spilled chunk is a sequence instead of a temporary file, the child process that sorts it a copy of the
    sorter. */
module SortManager {
  import opened StableOrder
  import opened MergeSort
  import MS = MergeSorter
  import opened ExternalSort
  import FM = FileMerger
  import SL = SkipList
  import opened Wrappers

  class SortManager<D(!new)> {
    const lessThan: (Record<D>, Record<D>) -> bool
    /** `byte_size` of a record. */
    const byteSize: D -> nat
    const maxChunkSize: nat
    var chunkSize: nat
    var chunkStartingRowNumber: nat
    const sorter: MS.MergeSorter<Record<D>>
    var childOutputs: seq<seq<D>>
    var chunkStartingRowNumbers: seq<nat>

    ghost const key: (D, D) -> bool
    ghost const descending: bool
    /** The records seen so far, and where the spilled chunks and the current one begin. */
    ghost var input: seq<Record<D>>
    ghost var cuts: seq<nat>

    ghost predicate Valid()
      reads this, sorter
    {
      && OrdersRecords(lessThan, key, descending) && Numbered(input) && Cuts(cuts, |input|)
      && sorter.Valid() && sorter.Sortable() && sorter.recs == input[cuts[|cuts| - 1]..]
      && (chunkSize == 0 <==> sorter.recs == [])
      && Spilled(lessThan, input, cuts, childOutputs, chunkStartingRowNumbers)
      && chunkStartingRowNumber == StartingNumber(cuts[|cuts| - 1])
    }

    constructor (lessThan: (Record<D>, Record<D>) -> bool, byteSize: D -> nat, maxChunkSize: nat,
                 ghost key: (D, D) -> bool, ghost descending: bool)
      requires OrdersRecords(lessThan, key, descending)
      ensures Valid() && input == [] && fresh(sorter)
      ensures this.lessThan == lessThan && this.byteSize == byteSize && this.maxChunkSize == maxChunkSize
    {
      this.lessThan, this.byteSize, this.maxChunkSize := lessThan, byteSize, maxChunkSize;
      this.key, this.descending := key, descending;
      chunkSize, chunkStartingRowNumber := 0, 1;
      sorter := new MS.MergeSorter();
      childOutputs, chunkStartingRowNumbers := [], [];
      input, cuts := [], [0];
    }

    /** Called once per record. `ok` is false where the source aborts. */
    method Add(r: Record<D>) returns (ok: bool)
      requires Valid() && r.number == |input| + 1
      modifies this, sorter
      ensures ok <==> 0 < byteSize(r.data) && (byteSize(r.data) < maxChunkSize
                                            || (byteSize(r.data) == maxChunkSize && old(input) == []))
      ensures ok ==> Valid() && input == old(input) + [r]
    {
      var size := byteSize(r.data);
      if size == 0 { return false; }
      if size + chunkSize > maxChunkSize {
        if size >= maxChunkSize { return false; }
        Spill(r);
      } else {
        AddToChunk(lessThan, input, cuts, childOutputs, chunkStartingRowNumbers, r);
      }
      chunkSize := chunkSize + size;
      sorter.Insert(r);
      input := input + [r];
      ok := true;
    }

    /** Hand the chunk to a child process and start a new one, that begins with `r`. */
    method Spill(r: Record<D>)
      requires Valid() && chunkSize > 0 && r.number == |input| + 1
      modifies this, sorter
      ensures sorter.Valid() && sorter.recs == [] && chunkSize == 0 && input == old(input)
      ensures Spilled(lessThan, input + [r], cuts, childOutputs, chunkStartingRowNumbers)
      ensures cuts[|cuts| - 1] == |input| && chunkStartingRowNumber == StartingNumber(|input|)
    {
      SpillChunk(lessThan, input, cuts, childOutputs, chunkStartingRowNumbers, r);
      var file := SortInChild();
      childOutputs := childOutputs + [file];
      chunkStartingRowNumbers := chunkStartingRowNumbers + [chunkStartingRowNumber];
      chunkSize := 0;
      chunkStartingRowNumber := r.number + 1;
      sorter.Clear();
      cuts := cuts + [|input|];
    }

    /** `async_sort_chunk` in the child, on its own copy of the sorter. */
    method SortInChild() returns (file: seq<D>)
      requires sorter.Valid() && sorter.Sortable()
      ensures file == SortedData(lessThan, sorter.recs)
    {
      var child := new MS.MergeSorter.Copy(sorter);
      child.Sort(lessThan);
      var visited := child.WalkSorted(SortedOrder(lessThan, child.recs));
      file := DataOf(visited);
    }

    /** What is emitted is what one in-memory sort of the whole input would emit. */
    method Finalize() returns (output: seq<D>)
      requires Valid()
      modifies this, sorter
      ensures output == SortedData(lessThan, old(input))
    {
      sorter.Sort(lessThan);
      var visited := sorter.WalkSorted(SortedOrder(lessThan, sorter.recs));
      if childOutputs == [] {
        return DataOf(visited);
      }
      AllSpilled(lessThan, input, cuts, childOutputs, chunkStartingRowNumbers);
      childOutputs := childOutputs + [DataOf(visited)];
      chunkStartingRowNumbers := chunkStartingRowNumbers + [chunkStartingRowNumber];
      output := MergeFiles();
    }

    method MergeFiles() returns (output: seq<D>)
      requires OrdersRecords(lessThan, key, descending) && Numbered(input)
      requires FM.FilesSorted(lessThan, input, cuts, childOutputs)
      requires |chunkStartingRowNumbers| == |childOutputs| > 1
      requires forall j :: 0 <= j < |childOutputs| ==> chunkStartingRowNumbers[j] == StartingNumber(cuts[j])
      ensures output == SortedData(lessThan, input)
    {
      hide FM.Merging, SL.SkipList.Valid, OrdersRecords, Numbered, FM.FilesSorted, StartingNumber, Reading,
          FM.EntryLess, FM.Unread, SortedOrder;
      ghost var job := FM.Job(lessThan, key, descending, input, cuts, childOutputs);
      var mfm := new FM.FileMerger(lessThan, childOutputs, chunkStartingRowNumbers, job);
      output := [];
      var r := Next(mfm, output);
      while r.Some?
        invariant mfm.Valid() && mfm.job == job && Positions(mfm.emitted, |input|)
        invariant r.Some?
            ==> |mfm.emitted| <= |input| && output + [r.value.data] == DataOf(MS.RecordsAt(input, mfm.emitted))
        invariant r.None? ==> mfm.emitted == SortedOrder(lessThan, input)
        invariant r.None? ==> output == DataOf(MS.RecordsAt(input, mfm.emitted))
        invariant fresh(mfm) && fresh(mfm.currentRecords) && fresh(mfm.currentRecords.heap)
        invariant fresh(mfm.currentRecords.heap.headers)
        decreases |input| + 1 - |mfm.emitted|, r.Some?
      {
        output := output + [r.value.data];
        r := Next(mfm, output);
      }
    }

    /** One step of the merge, seen from what has been output. */
    method Next(mfm: FM.FileMerger<D>, ghost output: seq<D>) returns (r: Option<Record<D>>)
      requires mfm.Valid() && Positions(mfm.emitted, |mfm.job.input|)
      requires output == DataOf(MS.RecordsAt(mfm.job.input, mfm.emitted))
      modifies mfm, mfm.currentRecords, mfm.currentRecords.heap, mfm.currentRecords.heap.headers
      ensures mfm.Valid() && Positions(mfm.emitted, |mfm.job.input|) && |mfm.emitted| <= |mfm.job.input|
      ensures r.None? ==> mfm.emitted == old(mfm.emitted) == SortedOrder(mfm.job.lt, mfm.job.input)
      ensures r.Some? ==> |mfm.emitted| == |old(mfm.emitted)| + 1
      ensures r.Some? ==> output + [r.value.data] == DataOf(MS.RecordsAt(mfm.job.input, mfm.emitted))
    {
      hide FM.Merging, DataOf, SL.SkipList.Valid, Reading, FM.EntryLess, FM.Unread, SortedOrder;
      ghost var before := mfm.emitted;
      r := mfm.ReadNextRecord();
      mfm.EmittedIsBounded();
      if r.Some? {
        ghost var p: nat :| p < |mfm.job.input| && mfm.emitted == before + [p] && r.value.data == mfm.job.input[p].data;
        DataOfNext(mfm.job.input, before, p);
      }
    }
  }

  /** The spilled chunks, each sorted, and the numbers their records will start from. */
  ghost predicate Spilled<D>(lt: (Record<D>, Record<D>) -> bool, input: seq<Record<D>>, cuts: seq<nat>,
                             files: seq<seq<D>>, starts: seq<nat>)
  {
    && Cuts(cuts, |input|) && |files| == |starts| == |cuts| - 1
    && forall j :: 0 <= j < |files|
        ==> files[j] == SortedData(lt, input[cuts[j]..cuts[j + 1]]) && starts[j] == StartingNumber(cuts[j])
  }

  lemma DataOfNext<D>(input: seq<Record<D>>, emitted: seq<nat>, p: nat)
    requires Positions(emitted, |input|) && p < |input|
    ensures DataOf(MS.RecordsAt(input, emitted + [p])) == DataOf(MS.RecordsAt(input, emitted)) + [input[p].data]
  {
  }

  lemma AddToChunk<D>(lt: (Record<D>, Record<D>) -> bool, input: seq<Record<D>>, cuts: seq<nat>,
                      files: seq<seq<D>>, starts: seq<nat>, r: Record<D>)
    requires Spilled(lt, input, cuts, files, starts)
    ensures Spilled(lt, input + [r], cuts, files, starts)
    ensures (input + [r])[cuts[|cuts| - 1]..] == input[cuts[|cuts| - 1]..] + [r]
  {
    forall j | 0 <= j < |files| ensures (input + [r])[cuts[j]..cuts[j + 1]] == input[cuts[j]..cuts[j + 1]] {
    }
  }

  lemma SpillChunk<D>(lt: (Record<D>, Record<D>) -> bool, input: seq<Record<D>>, cuts: seq<nat>,
                      files: seq<seq<D>>, starts: seq<nat>, r: Record<D>)
    requires Spilled(lt, input, cuts, files, starts) && input[cuts[|cuts| - 1]..] != []
    ensures var last := cuts[|cuts| - 1];
            Spilled(lt, input + [r], cuts + [|input|], files + [SortedData(lt, input[last..])],
              starts + [StartingNumber(last)])
  {
    var last := cuts[|cuts| - 1];
    var cuts', files' := cuts + [|input|], files + [SortedData(lt, input[last..])];
    AddToChunk(lt, input, cuts, files, starts, r);
    forall j | 0 <= j < |files'| ensures files'[j] == SortedData(lt, (input + [r])[cuts'[j]..cuts'[j + 1]]) {
      if j == |files| {
        assert (input + [r])[last..|input|] == input[last..];
      }
    }
  }

  /** With the last chunk written like the others, every chunk is in a file. */
  lemma AllSpilled<D>(lt: (Record<D>, Record<D>) -> bool, input: seq<Record<D>>, cuts: seq<nat>, files: seq<seq<D>>,
      starts: seq<nat>)
    requires Spilled(lt, input, cuts, files, starts)
    ensures FM.FilesSorted(lt, input, cuts, files + [SortedData(lt, input[cuts[|cuts| - 1]..])])
    ensures forall j :: 0 <= j < |files| ==> starts[j] == StartingNumber(cuts[j])
  {
    var last := cuts[|cuts| - 1];
    assert Chunk(input, cuts, |cuts| - 1) == input[last..];
  }

  /** The records as the parser numbers them. */
  function Number<D>(data: seq<D>): (r: seq<Record<D>>)
    ensures Numbered(r) && DataOf(r) == data
  {
    var r := seq(|data|, i requires 0 <= i < |data| => Record(data[i], i + 1));
    assert DataOf(r) == data;
    r
  }

  /** The inputs the sort accepts: no empty record, and a record as long as a whole chunk only at the front. */
  predicate Acceptable<D>(byteSize: D -> nat, maxChunkSize: nat, data: seq<D>) {
    forall i :: 0 <= i < |data| ==>
      0 < byteSize(data[i]) && (byteSize(data[i]) < maxChunkSize || (byteSize(data[i]) == maxChunkSize && i == 0))
  }

  /** order_by's sort: for every input, chunk size and direction the output is that of one in-memory sort,
      or the process aborts, which happens exactly on the inputs that are not acceptable. */
  method OrderBy<D(!new)>(lessThan: (Record<D>, Record<D>) -> bool, byteSize: D -> nat, maxChunkSize: nat, data: seq<D>,
                          ghost key: (D, D) -> bool, ghost descending: bool)
    returns (output: Option<seq<D>>)
    requires OrdersRecords(lessThan, key, descending)
    ensures output == if Acceptable(byteSize, maxChunkSize, data) then Some(SortedData(lessThan, Number(data)))
        else None
  {
    var sorter := new SortManager(lessThan, byteSize, maxChunkSize, key, descending);
    var i := 0;
    while i < |data|
      invariant 0 <= i <= |data| && sorter.Valid() && fresh(sorter) && fresh(sorter.sorter)
      invariant sorter.lessThan == lessThan && sorter.byteSize == byteSize && sorter.maxChunkSize == maxChunkSize
      invariant sorter.input == Number(data)[..i] && Acceptable(byteSize, maxChunkSize, data[..i])
    {
      var ok := sorter.Add(Record(data[i], i + 1));
      if !ok { return None; }
      assert Number(data)[..i + 1] == Number(data)[..i] + [Record(data[i], i + 1)];
      i := i + 1;
    }
    assert data[..|data|] == data && Number(data)[..|data|] == Number(data);
    var sorted := sorter.Finalize();
    output := Some(sorted);
  }
}
