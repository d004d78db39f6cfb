/** mapped_file_manager of np1/rel/detail/sort_manager.hpp: merge sorted files, keeping the next record of
    each in a skip list whose nodes come from a heap of one block per file. */
module FileMerger {
  import opened StableOrder
  import opened MergeSort
  import opened MergeSorter
  import opened ExternalSort
  import SL = SkipList
  import opened Wrappers

  /** current_record_entry. */
  datatype Entry<D> = Entry(r: Record<D>, file: nat)

  function EntryLess<D>(lt: (Record<D>, Record<D>) -> bool): (Entry<D>, Entry<D>) -> bool {
    (a: Entry<D>, b: Entry<D>) => lt(a.r, b.r)
  }

  lemma EntryLessIsStrictWeak<D(!new)>(lt: (Record<D>, Record<D>) -> bool)
    requires StrictWeakOrder(lt)
    ensures StrictWeakOrder(EntryLess(lt))
  {
    var e := EntryLess(lt);
    forall a: Entry<D>, b: Entry<D>, c: Entry<D>
      ensures !e(a, a) && (e(a, b) && e(b, c) ==> e(a, c)) && (!e(a, b) && !e(b, c) ==> !e(a, c))
    {
      assert e(a, a) == lt(a.r, a.r) && e(a, b) == lt(a.r, b.r) && e(b, c) == lt(b.r, c.r) && e(a, c) == lt(a.r, c.r);
    }
  }

  function Below(n: nat): (r: set<nat>)
    ensures forall i :: i in r <==> 0 <= i < n
  {
    if n == 0 then {} else Below(n - 1) + {n - 1}
  }

  /** The files still to be read from. */
  function Unread<D>(input: seq<Record<D>>, cuts: seq<nat>, pos: seq<nat>): set<nat>
    requires Reading(input, cuts, pos)
  {
    set j: nat | j < |cuts| && pos[j] < |Chunk(input, cuts, j)|
  }

  /** The list holds the next record of each file in `active`, and nothing else. */
  ghost predicate Loaded<D>(contents: seq<Entry<D>>, lt: (Record<D>, Record<D>) -> bool,
                            input: seq<Record<D>>, cuts: seq<nat>, pos: seq<nat>, active: set<nat>)
    requires Reading(input, cuts, pos)
  {
    && active <= Unread(input, cuts, pos)
    && (forall i :: 0 <= i < |contents| ==>
          contents[i].file in active && contents[i].r == Reread(lt, input, cuts, contents[i].file,
          pos[contents[i].file]))
    && (forall j :: j in active ==> exists i :: 0 <= i < |contents| && contents[i].file == j)
    && (forall i, k :: 0 <= i < k < |contents| ==> contents[i].file != contents[k].file)
  }

  /** A file whose record is not in the list: there is a block for it, and no record in the list equals it. */
  lemma RoomForOne<D(!new)>(contents: seq<Entry<D>>, lt: (Record<D>, Record<D>) -> bool, key: (D, D) -> bool,
      descending: bool,
                            input: seq<Record<D>>, cuts: seq<nat>, pos: seq<nat>, active: set<nat>, j: nat)
    requires OrdersRecords(lt, key, descending) && Reading(input, cuts, pos)
    requires Loaded(contents, lt, input, cuts, pos, active)
    requires j !in active && j in Unread(input, cuts, pos)
    ensures |contents| < |cuts|
    ensures forall i :: 0 <= i < |contents| ==>
              !SL.Equal(EntryLess(lt), contents[i], Entry(Reread(lt, input, cuts, j, pos[j]), j))
  {
    var files := seq(|contents|, i requires 0 <= i < |contents| => contents[i].file) + [j];
    DistinctSubset(files, |cuts|);
    forall i | 0 <= i < |contents|
      ensures !SL.Equal(EntryLess(lt), contents[i], Entry(Reread(lt, input, cuts, j, pos[j]), j))
    {
      DifferentNumbers(lt, key, descending, input, cuts, pos, contents[i].file, j);
    }
  }

  lemma DifferentNumbers<D(!new)>(lt: (Record<D>, Record<D>) -> bool, key: (D, D) -> bool, descending: bool,
                                  input: seq<Record<D>>, cuts: seq<nat>, pos: seq<nat>, j: nat, k: nat)
    requires OrdersRecords(lt, key, descending) && Reading(input, cuts, pos) && j != k
    requires j in Unread(input, cuts, pos) && k in Unread(input, cuts, pos)
    ensures var a, b := Reread(lt, input, cuts, j, pos[j]), Reread(lt, input, cuts, k, pos[k]);
            a.number != b.number && (lt(a, b) || lt(b, a))
  {
    OperatorIsTotal(lt, key, descending);
    if j < k {
      RangesInOrder(input, cuts, j, pos[j], k, pos[k]);
    } else {
      RangesInOrder(input, cuts, k, pos[k], j, pos[j]);
    }
  }

  lemma InsertLoads<D>(contents: seq<Entry<D>>, contents': seq<Entry<D>>, lt: (Record<D>, Record<D>) -> bool,
                       input: seq<Record<D>>, cuts: seq<nat>, pos: seq<nat>, active: set<nat>, j: nat, p: int)
    requires Reading(input, cuts, pos) && Loaded(contents, lt, input, cuts, pos, active)
    requires j !in active && j in Unread(input, cuts, pos)
    requires SL.InsertedAt(EntryLess(lt), contents, contents', Entry(Reread(lt, input, cuts, j, pos[j]), j), p)
    ensures Loaded(contents', lt, input, cuts, pos, active + {j})
  {
    hide Reread;
    forall k | k in active + {j} ensures exists i :: 0 <= i < |contents'| && contents'[i].file == k {
      if k == j {
        assert contents'[p].file == j;
      } else {
        var i :| 0 <= i < |contents| && contents[i].file == k;
        assert contents'[if i < p then i else i + 1].file == k;
      }
    }
  }

  /** Each file holds the data of its chunk, sorted. */
  ghost predicate FilesSorted<D>(lt: (Record<D>, Record<D>) -> bool, input: seq<Record<D>>, cuts: seq<nat>,
      files: seq<seq<D>>) {
    Cuts(cuts, |input|) && |files| == |cuts| && forall j :: 0 <= j < |files| ==>
      files[j] == SortedData(lt, Chunk(input, cuts, j))
  }

  /** What a file holds at the place where reading it has got to. */
  lemma FileHolds<D>(lt: (Record<D>, Record<D>) -> bool, input: seq<Record<D>>, cuts: seq<nat>, files: seq<seq<D>>,
      pos: seq<nat>, j: nat)
    requires FilesSorted(lt, input, cuts, files) && Reading(input, cuts, pos) && j < |files|
    ensures |files| == |cuts| == |pos| && (j in Unread(input, cuts, pos) <==> pos[j] < |files[j]|)
    ensures j in Unread(input, cuts, pos) ==>
              Record(files[j][pos[j]], StartingNumber(cuts[j]) + pos[j]) == Reread(lt, input, cuts, j, pos[j])
  {
  }

  lemma ChunkNotEmpty<D>(input: seq<Record<D>>, cuts: seq<nat>, j: nat)
    requires Cuts(cuts, |input|) && j < |cuts| && |cuts| > 1
    ensures |Chunk(input, cuts, j)| > 0
  {
    if j + 1 < |cuts| { assert cuts[j] < cuts[j + 1]; }
  }

  lemma InList<D>(contents: seq<Entry<D>>, lt: (Record<D>, Record<D>) -> bool,
                  input: seq<Record<D>>, cuts: seq<nat>, pos: seq<nat>, active: set<nat>, i: nat)
    requires Reading(input, cuts, pos) && Loaded(contents, lt, input, cuts, pos, active) && i < |contents|
    ensures var j := contents[i].file;
            && j in active && j < |cuts| && pos[j] < |Chunk(input, cuts, j)|
              && contents[i].r == Reread(lt, input, cuts, j, pos[j])
  {
  }

  /** The first record in the list is the least head. */
  lemma FirstIsLeast<D(!new)>(contents: seq<Entry<D>>, lt: (Record<D>, Record<D>) -> bool,
                              input: seq<Record<D>>, cuts: seq<nat>, pos: seq<nat>)
    requires Reading(input, cuts, pos) && Loaded(contents, lt, input, cuts, pos, Unread(input, cuts, pos))
    requires contents != []
    requires forall i, k :: 0 <= i < k < |contents| ==> EntryLess(lt)(contents[i], contents[k])
    ensures contents[0].file < |cuts| && pos[contents[0].file] < |Chunk(input, cuts, contents[0].file)|
    ensures LeastHead(lt, input, cuts, pos, contents[0].file)
  {
    hide Reread, Cuts, Chunk;
    InList(contents, lt, input, cuts, pos, Unread(input, cuts, pos), 0);
    var j := contents[0].file;
    forall k | 0 <= k < |cuts| && k != j && pos[k] < |Chunk(input, cuts, k)|
      ensures lt(Reread(lt, input, cuts, j, pos[j]), Reread(lt, input, cuts, k, pos[k]))
    {
      assert k in Unread(input, cuts, pos);
      var i :| 0 <= i < |contents| && contents[i].file == k;
      InList(contents, lt, input, cuts, pos, Unread(input, cuts, pos), i);
      assert EntryLess(lt)(contents[0], contents[i]);
    }
  }

  /** Popping it unloads its file. */
  lemma PopUnloads<D(!new)>(contents: seq<Entry<D>>, lt: (Record<D>, Record<D>) -> bool,
                            input: seq<Record<D>>, cuts: seq<nat>, pos: seq<nat>)
    requires Reading(input, cuts, pos) && Loaded(contents, lt, input, cuts, pos, Unread(input, cuts, pos))
    requires contents != []
    ensures var j := contents[0].file; var pos' := pos[j := pos[j] + 1];
            Reading(input, cuts, pos') && Loaded(contents[1..], lt, input, cuts, pos', Unread(input, cuts, pos) - {j})
  {
    hide Reread, Cuts;
    var j := contents[0].file;
    var pos' := pos[j := pos[j] + 1];
    forall k | k in Unread(input, cuts, pos) - {j} ensures
        exists i :: 0 <= i < |contents[1..]| && contents[1..][i].file == k {
      var i :| 0 <= i < |contents| && contents[i].file == k;
      assert contents[1..][i - 1].file == k;
    }
  }

  lemma UnreadAfter<D>(input: seq<Record<D>>, cuts: seq<nat>, pos: seq<nat>, j: nat)
    requires Reading(input, cuts, pos) && j in Unread(input, cuts, pos) && Reading(input, cuts, pos[j := pos[j] + 1])
    ensures Unread(input, cuts, pos[j := pos[j] + 1])
         == if pos[j] + 1 < |Chunk(input, cuts, j)| then Unread(input, cuts, pos) else Unread(input, cuts, pos) - {j}
  {
  }

  lemma AllRead<D>(contents: seq<Entry<D>>, lt: (Record<D>, Record<D>) -> bool, input: seq<Record<D>>, cuts: seq<nat>,
      pos: seq<nat>)
    requires Reading(input, cuts, pos) && Loaded(contents, lt, input, cuts, pos, Unread(input, cuts, pos))
    requires contents == []
    ensures forall j :: 0 <= j < |cuts| ==> pos[j] == |Chunk(input, cuts, j)|
  {
    assert Unread(input, cuts, pos) == {};
    forall j: nat | j < |cuts| ensures pos[j] == |Chunk(input, cuts, j)| {
      assert j !in Unread(input, cuts, pos);
    }
  }

  /** What is merged: the files are the sorted chunks of the input. */
  datatype Job<!D(!new)> = Job(lt: (Record<D>, Record<D>) -> bool, key: (D, D) -> bool, descending: bool,
                         input: seq<Record<D>>, cuts: seq<nat>, files: seq<seq<D>>)
  {
    ghost predicate Valid() {
      OrdersRecords(lt, key, descending) && Numbered(input) && FilesSorted(lt, input, cuts, files) && |files| > 1
    }
  }

  /** The merge in progress. Of each file `at` records have been read and the next gets the number in
      `numbers`; `pos` have been emitted; the files in `active` have their last read record in the list. */
  ghost predicate Merging<D(!new)>(job: Job<D>, pos: seq<nat>, emitted: seq<nat>, at: seq<nat>, numbers: seq<nat>,
                             active: set<nat>, contents: seq<Entry<D>>)
  {
    && job.Valid() && Reading(job.input, job.cuts, pos)
    && Emitted(job.lt, job.input, job.cuts, pos, emitted) && MergedSoFar(job.lt, job.input, job.cuts, pos, emitted)
    && Loaded(contents, job.lt, job.input, job.cuts, pos, active)
    && Counted(job.cuts, pos, at, numbers, active)
  }

  /** A file in `active` has been read one record further than has been emitted of it. */
  predicate Counted(cuts: seq<nat>, pos: seq<nat>, at: seq<nat>, numbers: seq<nat>, active: set<nat>) {
    && |at| == |numbers| == |pos| == |cuts|
    && forall j :: 0 <= j < |pos| ==>
         at[j] == pos[j] + (if j in active then 1 else 0) && numbers[j] == StartingNumber(cuts[j]) + at[j]
  }

  lemma CountPop(cuts: seq<nat>, pos: seq<nat>, at: seq<nat>, numbers: seq<nat>, active: set<nat>, j: nat)
    requires Counted(cuts, pos, at, numbers, active) && j < |pos| && j in active
    ensures Counted(cuts, pos[j := pos[j] + 1], at, numbers, active - {j})
  {
  }

  lemma MergingShape<D(!new)>(job: Job<D>, pos: seq<nat>, emitted: seq<nat>, at: seq<nat>, numbers: seq<nat>,
                              active: set<nat>, contents: seq<Entry<D>>)
    requires Merging(job, pos, emitted, at, numbers, active, contents)
    ensures Reading(job.input, job.cuts, pos) && |pos| == |at| == |numbers| == |job.cuts| == |job.files|
    ensures forall j :: j in Unread(job.input, job.cuts, pos) ==> j < |pos|
  {
  }

  lemma StartMerging<D(!new)>(job: Job<D>, numbers: seq<nat>)
    requires job.Valid() && |numbers| == |job.files| && forall j :: 0 <= j < |numbers| ==>
        numbers[j] == StartingNumber(job.cuts[j])
    ensures var zeros := seq(|job.files|, _ => 0);
            Reading(job.input, job.cuts, zeros) && Merging(job, zeros, [], zeros, numbers, {}, [])
              && Unread(job.input, job.cuts, zeros) == Below(|job.files|)
  {
    hide Origin, Reread, SortedData, OrdersRecords;
    var zeros: seq<nat> := seq(|job.files|, _ => 0);
    forall j: nat | j < |job.files| ensures j in Unread(job.input, job.cuts, zeros) {
      ChunkNotEmpty(job.input, job.cuts, j);
    }
    assert Unread(job.input, job.cuts, zeros) == Below(|job.files|);
  }

  /** A file whose record is not in the list and that is not at its end. */
  lemma ReadyToLoad<D(!new)>(job: Job<D>, pos: seq<nat>, emitted: seq<nat>, at: seq<nat>, numbers: seq<nat>,
                             active: set<nat>, contents: seq<Entry<D>>, j: nat)
    requires Merging(job, pos, emitted, at, numbers, active, contents)
    requires j !in active && j in Unread(job.input, job.cuts, pos)
    ensures j < |at| == |numbers| == |job.files| && at[j] < |job.files[j]| && |contents| < |job.files|
    ensures forall i :: 0 <= i < |contents| ==>
              !SL.Equal(EntryLess(job.lt), contents[i], Entry(Record(job.files[j][at[j]], numbers[j]), j))
  {
    hide Emitted, MergedSoFar, OrdersRecords, Loaded, Reread, EntryLess, Numbered, StartingNumber, Unread, FilesSorted,
        Cuts, Chunk,
      SL.Equal;
    MergingShape(job, pos, emitted, at, numbers, active, contents);
    FileHolds(job.lt, job.input, job.cuts, job.files, pos, j);
    RoomForOne(contents, job.lt, job.key, job.descending, job.input, job.cuts, pos, active, j);
  }

  lemma LoadedOne<D(!new)>(job: Job<D>, pos: seq<nat>, emitted: seq<nat>, at: seq<nat>, numbers: seq<nat>,
                           active: set<nat>, contents: seq<Entry<D>>, j: nat, contents': seq<Entry<D>>, p: int)
    requires Merging(job, pos, emitted, at, numbers, active, contents)
    requires j < |at| == |numbers| == |job.files| && at[j] < |job.files[j]|
    requires j !in active && j in Unread(job.input, job.cuts, pos)
    requires SL.InsertedAt(EntryLess(job.lt), contents, contents', Entry(Record(job.files[j][at[j]], numbers[j]), j), p)
    ensures Merging(job, pos, emitted, at[j := at[j] + 1], numbers[j := numbers[j] + 1], active + {j}, contents')
  {
    hide Emitted, MergedSoFar, OrdersRecords, Loaded, Reread, EntryLess, SL.InsertedAt, Numbered, StartingNumber,
        Unread, FilesSorted,
      Cuts, Chunk;
    FileHolds(job.lt, job.input, job.cuts, job.files, pos, j);
    InsertLoads(contents, contents', job.lt, job.input, job.cuts, pos, active, j, p);
  }

  lemma PoppedOne<D(!new)>(job: Job<D>, pos: seq<nat>, emitted: seq<nat>, at: seq<nat>, numbers: seq<nat>,
      contents: seq<Entry<D>>)
      returns (p: nat)
    requires Reading(job.input, job.cuts, pos)
    requires Merging(job, pos, emitted, at, numbers, Unread(job.input, job.cuts, pos), contents)
    requires contents != [] && forall i, k :: 0 <= i < k < |contents| ==> EntryLess(job.lt)(contents[i], contents[k])
    ensures var j := contents[0].file;
            && j in Unread(job.input, job.cuts, pos) && j < |pos| && p < |job.input|
              && job.input[p].data == contents[0].r.data
            && Merging(job, pos[j := pos[j] + 1], emitted + [p], at, numbers, Unread(job.input, job.cuts, pos) - {j},
              contents[1..])
  {
    hide Emitted, MergedSoFar, OrdersRecords, EntryLess, Numbered, StartingNumber, LeastHead, FilesSorted, Reread,
        Loaded, Cuts,
      Chunk, Unread, Counted, Reading;
    MergingShape(job, pos, emitted, at, numbers, Unread(job.input, job.cuts, pos), contents);
    var j := contents[0].file;
    InList(contents, job.lt, job.input, job.cuts, pos, Unread(job.input, job.cuts, pos), 0);
    FirstIsLeast(contents, job.lt, job.input, job.cuts, pos);
    PopUnloads(contents, job.lt, job.input, job.cuts, pos);
    CountPop(job.cuts, pos, at, numbers, Unread(job.input, job.cuts, pos), j);
    EmitLeastHead(job.lt, job.key, job.descending, job.input, job.cuts, pos, emitted, j);
    RereadData(job.lt, job.input, job.cuts, j, pos[j]);
    p := Origin(job.lt, job.input, job.cuts, j, pos[j]);
  }

  /** After a record of file `j` was popped: whether there is more to read of it. */
  lemma AfterPop<D(!new)>(job: Job<D>, pos: seq<nat>, emitted: seq<nat>, at: seq<nat>, numbers: seq<nat>,
      contents: seq<Entry<D>>, j: nat)
    requires Reading(job.input, job.cuts, pos) && j < |pos| && j in Unread(job.input, job.cuts, pos)
    requires Merging(job, pos[j := pos[j] + 1], emitted, at, numbers, Unread(job.input, job.cuts, pos) - {j}, contents)
    ensures j < |at| == |job.files|
    ensures Unread(job.input, job.cuts, pos[j := pos[j] + 1])
         == if at[j] < |job.files[j]| then Unread(job.input, job.cuts, pos) else Unread(job.input, job.cuts, pos) - {j}
  {
    hide Emitted, MergedSoFar, OrdersRecords, Numbered, Loaded, StartingNumber;
    UnreadAfter(job.input, job.cuts, pos, j);
  }

  lemma FinishMerging<D(!new)>(job: Job<D>, pos: seq<nat>, emitted: seq<nat>, at: seq<nat>, numbers: seq<nat>,
      contents: seq<Entry<D>>)
    requires Reading(job.input, job.cuts, pos) && contents == []
    requires Merging(job, pos, emitted, at, numbers, Unread(job.input, job.cuts, pos), contents)
    ensures emitted == SortedOrder(job.lt, job.input)
  {
    hide Emitted, MergedSoFar, OrdersRecords, Numbered, StartingNumber, Reread, SortedOrder;
    AllRead(contents, job.lt, job.input, job.cuts, pos);
    MergedAll(job.lt, job.key, job.descending, job.input, job.cuts, pos, emitted);
  }

  lemma EmittedBound<D(!new)>(job: Job<D>, pos: seq<nat>, emitted: seq<nat>, at: seq<nat>, numbers: seq<nat>,
                              active: set<nat>, contents: seq<Entry<D>>)
    requires Merging(job, pos, emitted, at, numbers, active, contents)
    ensures Positions(emitted, |job.input|) && |emitted| <= |job.input|
  {
    OperatorIsTotal(job.lt, job.key, job.descending);
    DistinctSubset(emitted, |job.input|);
  }

  class FileMerger<D(!new)> {
    const lt: (Record<D>, Record<D>) -> bool
    const files: seq<seq<D>>
    /** Of each mapped file: how many records have been read, and the number the next one will get. */
    var at: seq<nat>
    var recordNumbers: seq<nat>
    const currentRecords: SL.SkipList<Entry<D>>

    ghost const job: Job<D>
    /** How many records of each file have been handed out, and the positions in the input they came from. */
    ghost var pos: seq<nat>
    ghost var emitted: seq<nat>

    /** The files in `active` have one record in the list, the others have none. */
    ghost predicate Consistent(active: set<nat>)
      reads this, currentRecords, currentRecords.heap, currentRecords.heap.headers
    {
      && currentRecords.Valid() && currentRecords.lt == EntryLess(lt) && currentRecords.head == |files|
      && lt == job.lt && files == job.files
      && Merging(job, pos, emitted, at, recordNumbers, active, currentRecords.Contents())
    }

    ghost predicate Valid()
      reads this, currentRecords, currentRecords.heap, currentRecords.heap.headers
    {
      Reading(job.input, job.cuts, pos) && Consistent(Unread(job.input, job.cuts, pos))
    }

    constructor (lt: (Record<D>, Record<D>) -> bool, files: seq<seq<D>>, startingRowNumbers: seq<nat>,
        ghost job: Job<D>)
      requires job.Valid() && lt == job.lt && files == job.files
      requires |startingRowNumbers| == |files| && forall j :: 0 <= j < |files| ==>
          startingRowNumbers[j] == StartingNumber(job.cuts[j])
      ensures Valid() && this.job == job && emitted == []
      ensures fresh(currentRecords) && fresh(currentRecords.heap) && fresh(currentRecords.heap.headers)
    {
      hide OrdersRecords, Numbered, FilesSorted, Merging, SL.SkipList.Valid, StrictWeakOrder, Unread, StartingNumber,
          EntryLess, Below;
      OperatorIsTotal(lt, job.key, job.descending);
      EntryLessIsStrictWeak(lt);
      StartMerging(job, startingRowNumbers);
      this.lt, this.files, this.job := lt, files, job;
      at, recordNumbers := seq(|files|, _ => 0), startingRowNumbers;
      pos, emitted := seq(|files|, _ => 0), [];
      currentRecords := new SL.SkipList(EntryLess(lt), |files|);
      new;
      assert Below(0) == {};
      var j := 0;
      while j < |files|
        invariant 0 <= j <= |files| && pos == seq(|files|, _ => 0) && emitted == []
        invariant fresh(currentRecords.heap) && fresh(currentRecords.heap.headers)
        invariant Consistent(Below(j))
      {
        assert j in Below(|files|);
        LoadNext(j, Below(j));
        assert Below(j + 1) == Below(j) + {j};
        j := j + 1;
      }
    }

    /** `read_record` of one mapped file. */
    method ReadRecord(j: nat) returns (r: Option<Record<D>>)
      requires j < |files| == |at| == |recordNumbers|
      modifies this`at, this`recordNumbers
      ensures r == if old(at[j]) < |files[j]| then Some(Record(files[j][old(at[j])], old(recordNumbers[j]))) else None
      ensures r.Some?
          ==> at == old(at)[j := old(at[j]) + 1] && recordNumbers == old(recordNumbers)[j := old(recordNumbers[j]) + 1]
      ensures r.None? ==> at == old(at) && recordNumbers == old(recordNumbers)
    {
      if at[j] >= |files[j]| { return None; }
      r := Some(Record(files[j][at[j]], recordNumbers[j]));
      recordNumbers := recordNumbers[j := recordNumbers[j] + 1];
      at := at[j := at[j] + 1];
    }

    /** `mandatory_current_records_insert` of the next record of file `j`. There is a block for it and no
        equal record in the list, so neither of the two failures that would abort can happen. */
    method InsertNext(j: nat, r: Record<D>, ghost was: seq<nat>, ghost wasNumbers: seq<nat>, ghost active: set<nat>)
      requires currentRecords.Valid() && currentRecords.lt == EntryLess(lt) && currentRecords.head == |files|
      requires lt == job.lt && files == job.files && Reading(job.input, job.cuts, pos)
      requires Merging(job, pos, emitted, was, wasNumbers, active, currentRecords.Contents())
      requires j !in active && j in Unread(job.input, job.cuts, pos) && j < |files| == |was| == |wasNumbers|
      requires was[j] < |files[j]| && r == Record(files[j][was[j]], wasNumbers[j])
      requires at == was[j := was[j] + 1] && recordNumbers == wasNumbers[j := wasNumbers[j] + 1]
      modifies currentRecords, currentRecords.heap
      ensures Consistent(active + {j})
    {
      hide Merging, SL.SkipList.Valid, SL.Equal, SL.InsertedAt, Unread, EntryLess, Reading;
      var level: nat :| level < SL.MAX_LEVEL;
      ghost var before := currentRecords.Contents();
      ReadyToLoad(job, pos, emitted, was, wasNumbers, active, before, j);
      var result := currentRecords.Insert(Entry(r, j), level);
      ghost var p :| SL.InsertedAt(currentRecords.lt, before, currentRecords.Contents(), Entry(r, j), p);
      LoadedOne(job, pos, emitted, was, wasNumbers, active, before, j, currentRecords.Contents(), p);
    }

    /** Read the next record of file `j` and put it in the list. */
    method LoadNext(j: nat, ghost active: set<nat>)
      requires j !in active && Reading(job.input, job.cuts, pos) && j in Unread(job.input, job.cuts, pos)
      requires Consistent(active)
      modifies this`at, this`recordNumbers, currentRecords, currentRecords.heap
      ensures Consistent(active + {j})
    {
      hide Merging, SL.SkipList.Valid, Unread, EntryLess, SL.Equal;
      ReadyToLoad(job, pos, emitted, at, recordNumbers, active, currentRecords.Contents(), j);
      ghost var was, wasNumbers := at, recordNumbers;
      var r := ReadRecord(j);
      InsertNext(j, r.value, was, wasNumbers, active);
    }

    /** `read_next_record`. */
    method ReadNextRecord() returns (r: Option<Record<D>>)
      requires Valid()
      modifies this, currentRecords, currentRecords.heap, currentRecords.heap.headers
      ensures Valid()
      ensures r.None? ==> emitted == old(emitted) == SortedOrder(job.lt, job.input)
      ensures r.Some? ==>
          exists p: nat :: p < |job.input| && emitted == old(emitted) + [p] && r.value.data == job.input[p].data
    {
      hide Merging, SL.SkipList.Valid, Unread, EntryLess, SortedOrder;
      var next := currentRecords.Begin();
      if next == SL.NULL {
        FinishMerging(job, pos, emitted, at, recordNumbers, currentRecords.Contents());
        return None;
      }
      r := Some(currentRecords.values[next].r);
      ghost var was := pos;
      var j := PopFirst(next);
      AfterPop(job, was, emitted, at, recordNumbers, currentRecords.Contents(), j);
      if at[j] < |files[j]| {
        LoadNext(j, Unread(job.input, job.cuts, was) - {j});
        assert Unread(job.input, job.cuts, was) - {j} + {j} == Unread(job.input, job.cuts, was);
      }
    }

    lemma EmittedIsBounded()
      requires Valid()
      ensures Positions(emitted, |job.input|) && |emitted| <= |job.input|
    {
      EmittedBound(job, pos, emitted, at, recordNumbers, Unread(job.input, job.cuts, pos), currentRecords.Contents());
    }

    /** Remove the first record from the list and tell which file it came from. */
    method PopFirst(next: int) returns (j: nat)
      requires Valid() && next in currentRecords.values && currentRecords.size > 0
      requires currentRecords.values[next] == currentRecords.Contents()[0]
      modifies this`pos, this`emitted, currentRecords, currentRecords.heap, currentRecords.heap.headers
      ensures j < |old(pos)| && j in Unread(job.input, job.cuts, old(pos)) && pos == old(pos)[j := old(pos)[j] + 1]
      ensures Reading(job.input, job.cuts, pos) && Consistent(Unread(job.input, job.cuts, old(pos)) - {j})
      ensures exists p: nat :: p < |job.input| && emitted == old(emitted) + [p]
                            && old(currentRecords.Contents())[0].r.data == job.input[p].data
    {
      hide Merging, SL.SkipList.Valid, Unread, EntryLess;
      currentRecords.ContentsSorted();
      ghost var p := PoppedOne(job, pos, emitted, at, recordNumbers, currentRecords.Contents());
      currentRecords.PopFront();
      j := currentRecords.values[next].file;
      emitted := emitted + [p];
      pos := pos[j := pos[j] + 1];
      MergingShape(job, pos, emitted, at, recordNumbers, Unread(job.input, job.cuts, old(pos)) - {j},
        currentRecords.Contents());
    }
  }
}
