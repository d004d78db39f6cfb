/** Why spilling, renumbering and merging sorts: the pure part of np1/rel/detail/sort_manager.hpp.
    An input of numbered records is cut into chunks; each chunk is sorted on its own and only the data of
    its records is kept; the merge reads the chunks back with new record numbers. */
module ExternalSort {
  import opened StableOrder
  import opened MergeSort
  import opened MergeSorter

  datatype Record<D> = Record(data: D, number: nat)

  /** The sort operators: by key, and records with equal keys by their number, in the same direction. */
  ghost predicate OrdersRecords<D(!new)>(lt: (Record<D>, Record<D>) -> bool, key: (D, D) -> bool, descending: bool) {
    && StrictWeakOrder(key)
    && forall a, b :: lt(a, b)
        <==> key(a.data, b.data) || (!key(b.data, a.data) && Earlier(descending, a.number, b.number))
  }

  predicate Earlier(descending: bool, a: nat, b: nat) {
    if descending then a > b else a < b
  }

  lemma OperatorIsTotal<D(!new)>(lt: (Record<D>, Record<D>) -> bool, key: (D, D) -> bool, descending: bool)
    requires OrdersRecords(lt, key, descending)
    ensures StrictWeakOrder(lt)
    ensures forall a: Record<D>, b: Record<D> :: a.number != b.number ==> (lt(a, b) <==> !lt(b, a))
  {
  }

  /** Records as the parser hands them over: numbered from 1. */
  predicate Numbered<D>(input: seq<Record<D>>) {
    forall i :: 0 <= i < |input| ==> input[i].number == i + 1
  }

  /** Where the chunks begin: the first at 0, each later than the one before. */
  predicate Cuts(cuts: seq<nat>, n: nat) {
    && cuts != [] && cuts[0] == 0
    && (forall j :: 0 <= j < |cuts| ==> cuts[j] <= n)
    && (forall j, k :: 0 <= j < k < |cuts| ==> cuts[j] < cuts[k])
    && (|cuts| > 1 ==> cuts[|cuts| - 1] < n)
  }

  function End(cuts: seq<nat>, n: nat, j: nat): nat
    requires j < |cuts|
  {
    if j + 1 < |cuts| then cuts[j + 1] else n
  }

  /** The records of chunk `j`. */
  function Chunk<D>(input: seq<Record<D>>, cuts: seq<nat>, j: nat): (c: seq<Record<D>>)
    requires Cuts(cuts, |input|) && j < |cuts|
    ensures |c| == End(cuts, |input|, j) - cuts[j]
    ensures forall t :: 0 <= t < |c| ==> c[t] == input[cuts[j] + t]
  {
    input[cuts[j]..End(cuts, |input|, j)]
  }

  function DataOf<D>(recs: seq<Record<D>>): (r: seq<D>)
    ensures |r| == |recs| && forall i :: 0 <= i < |r| ==> r[i] == recs[i].data
  {
    seq(|recs|, i requires 0 <= i < |recs| => recs[i].data)
  }

  /** The data one in-memory sort of `recs` would emit. */
  function SortedData<D>(lt: (Record<D>, Record<D>) -> bool, recs: seq<Record<D>>): (r: seq<D>)
    ensures |r| == |recs|
  {
    DataOf(RecordsAt(recs, SortedOrder(lt, recs)))
  }

  /** The number the merge gives the first record of a chunk: 1 for the first chunk, and for every later one
      the number of the chunk's first record plus one. */
  function StartingNumber(cut: nat): nat {
    if cut == 0 then 1 else cut + 2
  }

  /** The position in the input of the record that is read `t`-th from the sorted chunk `j`. */
  function Origin<D>(lt: (Record<D>, Record<D>) -> bool, input: seq<Record<D>>, cuts: seq<nat>, j: nat,
      t: nat): (p: nat)
    requires Cuts(cuts, |input|) && j < |cuts| && t < |Chunk(input, cuts, j)|
    ensures cuts[j] <= p < End(cuts, |input|, j)
  {
    cuts[j] + SortedOrder(lt, Chunk(input, cuts, j))[t]
  }

  /** That record as the merge reads it: the same data, renumbered. */
  function Reread<D>(lt: (Record<D>, Record<D>) -> bool, input: seq<Record<D>>, cuts: seq<nat>, j: nat,
      t: nat): Record<D>
    requires Cuts(cuts, |input|) && j < |cuts| && t < |Chunk(input, cuts, j)|
  {
    Record(SortedData(lt, Chunk(input, cuts, j))[t], StartingNumber(cuts[j]) + t)
  }

  lemma RereadData<D>(lt: (Record<D>, Record<D>) -> bool, input: seq<Record<D>>, cuts: seq<nat>, j: nat, t: nat)
    requires Cuts(cuts, |input|) && j < |cuts| && t < |Chunk(input, cuts, j)|
    ensures Origin(lt, input, cuts, j, t) < |input|
    ensures Reread(lt, input, cuts, j, t).data == input[Origin(lt, input, cuts, j, t)].data
  {
  }

  /** The renumbered ranges of different chunks are disjoint and lie in the order of the chunks. */
  lemma RangesInOrder<D>(input: seq<Record<D>>, cuts: seq<nat>, j: nat, t: nat, k: nat, u: nat)
    requires Cuts(cuts, |input|) && j < k < |cuts|
    requires t < |Chunk(input, cuts, j)| && u < |Chunk(input, cuts, k)|
    ensures StartingNumber(cuts[j]) + t < StartingNumber(cuts[k]) + u
  {
    assert End(cuts, |input|, j) <= cuts[k];
  }

  /** So between different chunks, renumbered records compare as the records they were. */
  lemma RenumberingKeepsOrder<D(!new)>(lt: (Record<D>, Record<D>) -> bool, key: (D, D) -> bool, descending: bool,
                                       input: seq<Record<D>>, cuts: seq<nat>, j: nat, t: nat, k: nat, u: nat)
    requires OrdersRecords(lt, key, descending) && Numbered(input) && Cuts(cuts, |input|)
    requires j < |cuts| && k < |cuts| && j != k && t < |Chunk(input, cuts, j)| && u < |Chunk(input, cuts, k)|
    ensures lt(Reread(lt, input, cuts, j, t), Reread(lt, input, cuts, k, u))
       <==> lt(input[Origin(lt, input, cuts, j, t)], input[Origin(lt, input, cuts, k, u)])
  {
    RereadData(lt, input, cuts, j, t);
    RereadData(lt, input, cuts, k, u);
    if j < k {
      RangesInOrder(input, cuts, j, t, k, u);
      assert End(cuts, |input|, j) <= cuts[k];
    } else {
      RangesInOrder(input, cuts, k, u, j, t);
      assert End(cuts, |input|, k) <= cuts[j];
    }
  }

  /** Within a chunk the records are read back in order. */
  lemma ChunkInOrder<D(!new)>(lt: (Record<D>, Record<D>) -> bool, key: (D, D) -> bool, descending: bool,
                              input: seq<Record<D>>, cuts: seq<nat>, j: nat, t: nat, u: nat)
    requires OrdersRecords(lt, key, descending) && Numbered(input) && Cuts(cuts, |input|)
    requires j < |cuts| && t < u < |Chunk(input, cuts, j)|
    ensures lt(input[Origin(lt, input, cuts, j, t)], input[Origin(lt, input, cuts, j, u)])
  {
    hide OrdersRecords, Cuts, Numbered;
    ChunkNumbers(input, cuts, j);
    SortedPairInOrder(lt, key, descending, Chunk(input, cuts, j), t, u);
    OriginInChunk(lt, input, cuts, j, t);
    OriginInChunk(lt, input, cuts, j, u);
  }

  /** The records of a chunk have different numbers. */
  lemma ChunkNumbers<D>(input: seq<Record<D>>, cuts: seq<nat>, j: nat)
    requires Numbered(input) && Cuts(cuts, |input|) && j < |cuts|
    ensures forall a, b :: 0 <= a < b < |Chunk(input, cuts, j)| ==>
        Chunk(input, cuts, j)[a].number != Chunk(input, cuts, j)[b].number
  {
  }

  lemma OriginInChunk<D>(lt: (Record<D>, Record<D>) -> bool, input: seq<Record<D>>, cuts: seq<nat>, j: nat, t: nat)
    requires Cuts(cuts, |input|) && j < |cuts| && t < |Chunk(input, cuts, j)|
    ensures Origin(lt, input, cuts, j, t) < |input|
    ensures input[Origin(lt, input, cuts, j, t)] == Chunk(input, cuts, j)[SortedOrder(lt, Chunk(input, cuts, j))[t]]
  {
  }

  /** Of two records the one emitted first is the lesser. */
  lemma SortedPairInOrder<D(!new)>(lt: (Record<D>, Record<D>) -> bool, key: (D, D) -> bool, descending: bool,
                                   c: seq<Record<D>>, t: nat, u: nat)
    requires OrdersRecords(lt, key, descending) && t < u < |c|
    requires forall a, b :: 0 <= a < b < |c| ==> c[a].number != c[b].number
    ensures lt(c[SortedOrder(lt, c)[t]], c[SortedOrder(lt, c)[u]])
  {
    hide OrdersRecords, StrictWeakOrder, Before, SortedOrder;
    var o := SortedOrder(lt, c);
    OperatorIsTotal(lt, key, descending);
    SortIsStable(lt, c);
    AscendingIsDistinct(lt, c, o);
    assert Before(lt, c, o[t], o[u]) && o[t] != o[u];
    assert c[o[t]].number != c[o[u]].number by {
      if o[t] < o[u] {
        assert c[o[t]].number != c[o[u]].number;
      } else {
        assert c[o[u]].number != c[o[t]].number;
      }
    }
    BeforeIsLess(lt, key, descending, c, o[t], o[u]);
  }

  lemma BeforeIsLess<D(!new)>(lt: (Record<D>, Record<D>) -> bool, key: (D, D) -> bool, descending: bool,
                              recs: seq<Record<D>>, a: nat, b: nat)
    requires OrdersRecords(lt, key, descending) && a < |recs| && b < |recs| && recs[a].number != recs[b].number
    ensures Before(lt, recs, a, b) <==> lt(recs[a], recs[b])
  {
  }

  /** How far each chunk has been read: `pos[j]` records of chunk `j` have been emitted. */
  predicate Reading<D>(input: seq<Record<D>>, cuts: seq<nat>, pos: seq<nat>) {
    Cuts(cuts, |input|) && |pos| == |cuts| && forall j :: 0 <= j < |pos| ==> pos[j] <= |Chunk(input, cuts, j)|
  }

  predicate Emitted<D>(lt: (Record<D>, Record<D>) -> bool, input: seq<Record<D>>, cuts: seq<nat>, pos: seq<nat>,
      emitted: seq<nat>)
    requires Reading(input, cuts, pos)
  {
    && Positions(emitted, |input|)
    && (forall j, t :: 0 <= j < |cuts| && 0 <= t < pos[j] ==> Origin(lt, input, cuts, j, t) in emitted)
  }

  /** Everything emitted so far is in order, and before everything that is still to be read. */
  ghost predicate MergedSoFar<D>(lt: (Record<D>, Record<D>) -> bool, input: seq<Record<D>>, cuts: seq<nat>,
      pos: seq<nat>, emitted: seq<nat>)
    requires Reading(input, cuts, pos) && Emitted(lt, input, cuts, pos, emitted)
  {
    && (forall a, b :: 0 <= a < b < |emitted| ==> lt(input[emitted[a]], input[emitted[b]]))
    && (forall a, j, t :: 0 <= a < |emitted| && 0 <= j < |cuts| && pos[j] <= t < |Chunk(input, cuts, j)| ==>
          lt(input[emitted[a]], input[Origin(lt, input, cuts, j, t)]))
  }

  /** The record at the head of chunk `j` is before the heads of all the others. */
  ghost predicate LeastHead<D>(lt: (Record<D>, Record<D>) -> bool, input: seq<Record<D>>, cuts: seq<nat>, pos: seq<nat>,
      j: nat)
    requires Reading(input, cuts, pos) && j < |cuts| && pos[j] < |Chunk(input, cuts, j)|
  {
    forall k :: 0 <= k < |cuts| && k != j && pos[k] < |Chunk(input, cuts, k)| ==>
      lt(Reread(lt, input, cuts, j, pos[j]), Reread(lt, input, cuts, k, pos[k]))
  }

  /** Then it is before everything else that is still to be read. */
  lemma LeastHeadIsLeast<D(!new)>(lt: (Record<D>, Record<D>) -> bool, key: (D, D) -> bool, descending: bool,
                                  input: seq<Record<D>>, cuts: seq<nat>, pos: seq<nat>, j: nat, k: nat, t: nat)
    requires OrdersRecords(lt, key, descending) && Numbered(input) && Reading(input, cuts, pos)
    requires j < |cuts| && pos[j] < |Chunk(input, cuts, j)| && LeastHead(lt, input, cuts, pos, j)
    requires k < |cuts| && pos[k] <= t < |Chunk(input, cuts, k)| && (k == j ==> t != pos[j])
    ensures lt(input[Origin(lt, input, cuts, j, pos[j])], input[Origin(lt, input, cuts, k, t)])
  {
    hide OrdersRecords, Numbered, Chunk, Origin, Reread, StrictWeakOrder;
    if k == j {
      ChunkInOrder(lt, key, descending, input, cuts, j, pos[j], t);
    } else {
      RenumberingKeepsOrder(lt, key, descending, input, cuts, j, pos[j], k, pos[k]);
      if pos[k] < t {
        ChunkInOrder(lt, key, descending, input, cuts, k, pos[k], t);
        LessIsTransitive(lt, key, descending, input[Origin(lt, input, cuts, j, pos[j])],
                         input[Origin(lt, input, cuts, k, pos[k])], input[Origin(lt, input, cuts, k, t)]);
      }
    }
  }

  lemma LessIsTransitive<D(!new)>(lt: (Record<D>, Record<D>) -> bool, key: (D, D) -> bool, descending: bool,
                                  a: Record<D>, b: Record<D>, c: Record<D>)
    requires OrdersRecords(lt, key, descending) && lt(a, b) && lt(b, c)
    ensures lt(a, c)
  {
  }

  lemma EmitLeastHead<D(!new)>(lt: (Record<D>, Record<D>) -> bool, key: (D, D) -> bool, descending: bool,
                               input: seq<Record<D>>, cuts: seq<nat>, pos: seq<nat>, emitted: seq<nat>, j: nat)
    requires OrdersRecords(lt, key, descending) && Numbered(input) && Reading(input, cuts, pos)
    requires Emitted(lt, input, cuts, pos, emitted) && MergedSoFar(lt, input, cuts, pos, emitted)
    requires j < |cuts| && pos[j] < |Chunk(input, cuts, j)| && LeastHead(lt, input, cuts, pos, j)
    ensures var pos', emitted' := pos[j := pos[j] + 1], emitted + [Origin(lt, input, cuts, j, pos[j])];
            && Reading(input, cuts, pos') && Emitted(lt, input, cuts, pos', emitted')
            && MergedSoFar(lt, input, cuts, pos', emitted')
  {
    hide OrdersRecords, Origin, Reread, LeastHead, Numbered;
    var p := Origin(lt, input, cuts, j, pos[j]);
    var pos', emitted' := pos[j := pos[j] + 1], emitted + [p];
    forall a, k, t | 0 <= a < |emitted'| && 0 <= k < |cuts| && pos'[k] <= t < |Chunk(input, cuts, k)|
      ensures lt(input[emitted'[a]], input[Origin(lt, input, cuts, k, t)])
    {
      if a == |emitted| {
        LeastHeadIsLeast(lt, key, descending, input, cuts, pos, j, k, t);
      }
    }
  }

  /** When every chunk has been read to its end, what was emitted is the in-memory sort of the input. */
  lemma MergedAll<D(!new)>(lt: (Record<D>, Record<D>) -> bool, key: (D, D) -> bool, descending: bool,
                           input: seq<Record<D>>, cuts: seq<nat>, pos: seq<nat>, emitted: seq<nat>)
    requires OrdersRecords(lt, key, descending) && Numbered(input) && Reading(input, cuts, pos)
    requires Emitted(lt, input, cuts, pos, emitted) && MergedSoFar(lt, input, cuts, pos, emitted)
    requires forall j :: 0 <= j < |cuts| ==> pos[j] == |Chunk(input, cuts, j)|
    ensures emitted == SortedOrder(lt, input)
  {
    OperatorIsTotal(lt, key, descending);
    assert Ascending(lt, input, emitted);
    AscendingIsDistinct(lt, input, emitted);
    forall p | 0 <= p < |input| ensures p in emitted {
      EveryRecordIsRead(lt, key, descending, input, cuts, p);
      var j, t :| 0 <= j < |cuts| && 0 <= t < |Chunk(input, cuts, j)| && Origin(lt, input, cuts, j, t) == p;
    }
    AllPositions(emitted, |input|);
    SortIsStable(lt, input);
    StableSortIsUnique(lt, input, emitted, SortedOrder(lt, input), |input|);
    assert emitted[..|input|] == emitted && SortedOrder(lt, input)[..|input|] == SortedOrder(lt, input);
  }

  lemma EveryRecordIsRead<D(!new)>(lt: (Record<D>, Record<D>) -> bool, key: (D, D) -> bool, descending: bool,
                                   input: seq<Record<D>>, cuts: seq<nat>, p: nat)
    requires OrdersRecords(lt, key, descending) && Cuts(cuts, |input|) && p < |input|
    ensures exists j: nat, t: nat :: j < |cuts| && t < |Chunk(input, cuts, j)| && Origin(lt, input, cuts, j, t) == p
  {
    var j := ChunkOf(cuts, |input|, p, 0);
    var c := Chunk(input, cuts, j);
    OperatorIsTotal(lt, key, descending);
    SortIsStable(lt, c);
    assert p - cuts[j] in SortedOrder(lt, c);
    var t: nat :| t < |c| && SortedOrder(lt, c)[t] == p - cuts[j];
    assert Origin(lt, input, cuts, j, t) == p;
  }

  lemma {:induction false} ChunkOf(cuts: seq<nat>, n: nat, p: nat, from: nat) returns (j: nat)
    requires Cuts(cuts, n) && from < |cuts| && cuts[from] <= p < n
    ensures j < |cuts| && cuts[j] <= p < End(cuts, n, j)
    decreases |cuts| - from
  {
    if p < End(cuts, n, from) {
      j := from;
    } else {
      j := ChunkOf(cuts, n, p, from + 1);
    }
  }

  /** A list of distinct positions that holds all of them has their number. */
  lemma {:induction false} AllPositions(s: seq<nat>, n: nat)
    requires Positions(s, n) && (forall i, j :: 0 <= i < j < |s| ==> s[i] != s[j])
    requires forall p :: 0 <= p < n ==> p in s
    ensures |s| == n
    decreases n
  {
    if n > 0 {
      assert n - 1 in s;
      var k :| 0 <= k < |s| && s[k] == n - 1;
      var rest := s[..k] + s[k + 1..];
      forall p | 0 <= p < n - 1 ensures p in rest {
        assert p in s;
        var i :| 0 <= i < |s| && s[i] == p;
        assert rest[if i < k then i else i - 1] == p;
      }
      AllPositions(rest, n - 1);
    }
  }
}
