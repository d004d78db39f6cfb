/** np1/rel/join_natural.hpp, join_left.hpp and join_anti.hpp. */
module Joins {
  import opened Wrappers
  import opened DataTypes
  import opened Headings
  import opened Compare
  import opened CompareSpecs
  import opened Multimap
  import opened HashTable
  import RM = RecordMultiHashMap
  import opened JoinHelper
  import opened HeadingTexts
  import opened JoinedRows

  type Map = RM.RecordMultiHashMap<()>

  /** What the two files are joined on. */
  datatype Keys = Keys(specs1: seq<Spec>, specs2: seq<Spec>) {
    predicate Valid() {
      |specs1| == |specs2| && Kinds(specs1) == Kinds(specs2)
    }

    /** The records have equal keys. */
    predicate Match(r1: Fields, r2: Fields)
      requires Valid()
    {
      CompareTexts(Kinds(specs2), Texts(specs2, r2), Texts(specs1, r1)) == 0
    }
  }

  /** The records of the second file that match `r1`, in file order. */
  function Matches(keys: Keys, r1: Fields, file2: seq<Fields>): seq<Fields>
    requires keys.Valid()
  {
    if file2 == [] then []
    else (if keys.Match(r1, file2[0]) then [file2[0]] else []) + Matches(keys, r1, file2[1..])
  }

  function MergeAll(r1: Fields, matches: seq<Fields>, nonCommon: seq<nat>): (r: seq<Fields>)
    ensures |r| == |matches|
  {
    seq(|matches|, i requires 0 <= i < |matches| => Merge(r1, matches[i], nonCommon))
  }

  /** The nested-loop joins. */
  function NaturalJoin(keys: Keys, nonCommon: seq<nat>, file1: seq<Fields>, file2: seq<Fields>): seq<Fields>
    requires keys.Valid()
  {
    if file1 == [] then []
    else MergeAll(file1[0], Matches(keys, file1[0], file2), nonCommon) + NaturalJoin(keys, nonCommon, file1[1..], file2)
  }

  function LeftJoin(keys: Keys, nonCommon: seq<nat>, empty2: Fields, file1: seq<Fields>,
      file2: seq<Fields>): seq<Fields>
    requires keys.Valid()
  {
    if file1 == [] then []
    else
      var matches := Matches(keys, file1[0], file2);
      (if matches == [] then [Merge(file1[0], empty2, nonCommon)] else MergeAll(file1[0], matches, nonCommon))
      + LeftJoin(keys, nonCommon, empty2, file1[1..], file2)
  }

  function AntiJoin(keys: Keys, file1: seq<Fields>, file2: seq<Fields>): seq<Fields>
    requires keys.Valid()
  {
    if file1 == [] then []
    else (if Matches(keys, file1[0], file2) == [] then [file1[0]] else []) + AntiJoin(keys, file1[1..], file2)
  }

  // --- The nested-loop joins, place by place. ---

  lemma {:induction false} MatchPlaces(keys: Keys, r1: Fields, file2: seq<Fields>, from: nat) returns (places: seq<nat>)
    requires keys.Valid() && from <= |file2|
    ensures var matches := Matches(keys, r1, file2[from..]);
      |places| == |matches| && forall k :: 0 <= k < |places| ==> places[k] < |file2| && matches[k] == file2[places[k]]
    ensures Ascending(places)
    ensures forall y :: y in places <==> from <= y < |file2| && keys.Match(r1, file2[y])
    decreases |file2| - from
  {
    hide CompareTexts;
    places := [];
    if from < |file2| {
      var rest := MatchPlaces(keys, r1, file2, from + 1);
      assert file2[from..][1..] == file2[from + 1..];
      assert forall k :: 0 <= k < |rest| ==> rest[k] in rest;
      places := (if keys.Match(r1, file2[from]) then [from] else []) + rest;
    }
  }

  /** The pairs record `i` of the first file makes with records of the second. */
  function PairsAt(i: nat, places: seq<nat>): (r: seq<Pair>)
    ensures |r| == |places|
  {
    seq(|places|, k requires 0 <= k < |places| => Pair(i, Some(places[k])))
  }

  lemma PairsAtAre(i: nat, places: seq<nat>)
    requires Ascending(places)
    ensures Ordered(PairsAt(i, places))
    ensures forall p :: p in PairsAt(i, places) <==> p.left == i && p.right.Some? && p.right.value in places
  {
    var pairs := PairsAt(i, places);
    forall y: nat | y in places ensures Pair(i, Some(y)) in pairs {
      var k :| 0 <= k < |places| && places[k] == y;
      assert pairs[k] == Pair(i, Some(y));
    }
  }

  predicate MatchedBy(keys: Keys, p: Pair, from: nat, file1: seq<Fields>, file2: seq<Fields>)
    requires keys.Valid()
  {
    from <= p.left < |file1| && p.right.Some? && p.right.value < |file2|
    && keys.Match(file1[p.left], file2[p.right.value])
  }

  predicate UnmatchedBy(keys: Keys, p: Pair, from: nat, file1: seq<Fields>, file2: seq<Fields>)
    requires keys.Valid()
  {
    from <= p.left < |file1| && p.right.None? && forall y :: 0 <= y < |file2| ==> !keys.Match(file1[p.left], file2[y])
  }

  /** The rows are merged from the records at those places. */
  predicate MergedRows(output: seq<Fields>, pairs: seq<Pair>, nonCommon: seq<nat>, empty2: Fields,
      file1: seq<Fields>, file2: seq<Fields>)
  {
    |output| == |pairs| && forall k :: 0 <= k < |output| ==>
      var p := pairs[k];
      && p.left < |file1| && (p.right.Some? ==> p.right.value < |file2|)
      && output[k] == Merge(file1[p.left], if p.right.Some? then file2[p.right.value] else empty2, nonCommon)
  }

  lemma {:induction false} NaturalPairs(keys: Keys, nonCommon: seq<nat>, file1: seq<Fields>, from: nat,
      file2: seq<Fields>) returns (pairs: seq<Pair>)
    requires keys.Valid() && from <= |file1|
    ensures MergedRows(NaturalJoin(keys, nonCommon, file1[from..], file2), pairs, nonCommon, [], file1, file2)
    ensures Ordered(pairs) && forall p :: p in pairs <==> MatchedBy(keys, p, from, file1, file2)
    decreases |file1| - from
  {
    hide NaturalJoin, Matches, CompareTexts, Merge, Ordered;
    if from == |file1| {
      JoinNothing(keys, nonCommon, [], file2);
      pairs := [];
      NoPairs();
    } else {
      var rest := NaturalPairs(keys, nonCommon, file1, from + 1, file2);
      JoinStep(keys, nonCommon, [], file1, from, file2);
      var places := MatchPlaces(keys, file1[from], file2, 0);
      assert file2[0..] == file2;
      PairsAtAre(from, places);
      OrderedConcat(PairsAt(from, places), rest, from);
      pairs := PairsAt(from, places) + rest;
    }
  }

  lemma NoPairs()
    ensures Ordered([])
  {
  }

  lemma {:induction false} LeftPairs(keys: Keys, nonCommon: seq<nat>, empty2: Fields, file1: seq<Fields>, from: nat,
      file2: seq<Fields>) returns (pairs: seq<Pair>)
    requires keys.Valid() && from <= |file1|
    ensures MergedRows(LeftJoin(keys, nonCommon, empty2, file1[from..], file2), pairs, nonCommon, empty2, file1, file2)
    ensures Ordered(pairs) && forall p :: p in pairs <==>
      MatchedBy(keys, p, from, file1, file2) || UnmatchedBy(keys, p, from, file1, file2)
    decreases |file1| - from
  {
    hide LeftJoin, Matches, MergeAll, Merge, Ordered, MergedRows, MatchedBy, UnmatchedBy;
    if from == |file1| {
      JoinNothing(keys, nonCommon, empty2, file2);
      pairs := [];
      NoPairs();
      NoRows(keys, nonCommon, empty2, file1, file2);
      assert file1[from..] == [];
    } else {
      var rest := LeftPairs(keys, nonCommon, empty2, file1, from + 1, file2);
      JoinStep(keys, nonCommon, empty2, file1, from, file2);
      var block := LeftBlock(keys, nonCommon, empty2, file1, from, file2);
      forall p
        ensures MatchedBy(keys, p, from, file1, file2) || UnmatchedBy(keys, p, from, file1, file2) <==>
          p in block || p in rest
      {
        Onwards(keys, p, from, file1, file2);
      }
      forall p | p in rest ensures p.left > from {
        Onwards(keys, p, from, file1, file2);
      }
      OrderedConcat(block, rest, from);
      var head := if Matches(keys, file1[from], file2) == [] then [Merge(file1[from], empty2, nonCommon)]
        else MergeAll(file1[from], Matches(keys, file1[from], file2), nonCommon);
      MergedConcat(head, block, LeftJoin(keys, nonCommon, empty2, file1[from + 1..], file2), rest, nonCommon, empty2,
        file1, file2);
      pairs := block + rest;
    }
  }

  lemma NoRows(keys: Keys, nonCommon: seq<nat>, empty2: Fields, file1: seq<Fields>, file2: seq<Fields>)
    requires keys.Valid()
    ensures MergedRows([], [], nonCommon, empty2, file1, file2)
    ensures forall p ::
      !MatchedBy(keys, p, |file1|, file1, file2) && !UnmatchedBy(keys, p, |file1|, file1, file2)
  {
  }

  lemma MergedConcat(out1: seq<Fields>, pairs1: seq<Pair>, out2: seq<Fields>, pairs2: seq<Pair>, nonCommon: seq<nat>,
      empty2: Fields, file1: seq<Fields>, file2: seq<Fields>)
    requires MergedRows(out1, pairs1, nonCommon, empty2, file1, file2)
    requires MergedRows(out2, pairs2, nonCommon, empty2, file1, file2)
    ensures MergedRows(out1 + out2, pairs1 + pairs2, nonCommon, empty2, file1, file2)
  {
    hide Merge;
  }

  lemma Onwards(keys: Keys, p: Pair, from: nat, file1: seq<Fields>, file2: seq<Fields>)
    requires keys.Valid()
    ensures MatchedBy(keys, p, from, file1, file2)
       <==> (p.left == from && MatchedBy(keys, p, from, file1, file2)) || MatchedBy(keys, p, from + 1, file1, file2)
    ensures UnmatchedBy(keys, p, from, file1, file2)
       <==> (p.left == from && UnmatchedBy(keys, p, from, file1, file2)) || UnmatchedBy(keys, p, from + 1, file1, file2)
    ensures MatchedBy(keys, p, from + 1, file1, file2) || UnmatchedBy(keys, p, from + 1, file1, file2) ==>
      p.left > from
  {
    hide CompareTexts;
  }

  /** The rows of one record of the first file. */
  lemma LeftBlock(keys: Keys, nonCommon: seq<nat>, empty2: Fields, file1: seq<Fields>, i: nat, file2: seq<Fields>)
    returns (block: seq<Pair>)
    requires keys.Valid() && i < |file1|
    ensures var matches := Matches(keys, file1[i], file2);
      MergedRows(if matches == [] then [Merge(file1[i], empty2, nonCommon)] else MergeAll(file1[i], matches, nonCommon),
                 block, nonCommon, empty2, file1, file2)
    ensures Ordered(block) && forall p :: p in block <==>
      p.left == i && (MatchedBy(keys, p, i, file1, file2) || UnmatchedBy(keys, p, i, file1, file2))
  {
    hide Matches, CompareTexts, Merge, Ordered;
    var places := MatchPlaces(keys, file1[i], file2, 0);
    assert file2[0..] == file2;
    PairsAtAre(i, places);
    if places == [] {
      block := [Pair(i, None)];
      OnePair(block[0]);
      assert forall y: nat :: y !in places;
    } else {
      block := PairsAt(i, places);
      assert places[0] in places;
    }
  }

  lemma OnePair(p: Pair)
    ensures Ordered([p])
  {
  }

  function Entries(file: seq<Fields>): (r: seq<Entry<()>>)
    ensures |r| == |file|
  {
    seq(|file|, i requires 0 <= i < |file| => Entry(file[i], ()))
  }

  function RecordsOf(entries: seq<Entry<()>>): (r: seq<Fields>)
    ensures |r| == |entries|
  {
    seq(|entries|, i requires 0 <= i < |entries| => entries[i].r)
  }

  lemma {:induction false} MatchingIsMatches(keys: Keys, r1: Fields, file2: seq<Fields>)
    requires keys.Valid()
    ensures RecordsOf(Matching(keys.specs2, Entries(file2), Texts(keys.specs1, r1))) == Matches(keys, r1, file2)
  {
    hide CompareTexts;
    if file2 != [] {
      MatchingIsMatches(keys, r1, file2[1..]);
      var entries, key := Entries(file2), Texts(keys.specs1, r1);
      assert entries[1..] == Entries(file2[1..]);
      var rest := Matching(keys.specs2, entries[1..], key);
      var first := if KeyIs(keys.specs2, entries[0], key) then [entries[0]] else [];
      assert RecordsOf(first + rest) == RecordsOf(first) + RecordsOf(rest);
    }
  }

  /** Read the second file into a map. The result is none where the source aborts: memory ran out, or a record
      lacks a key column. */
  method ReadIntoMap(hashing: Hashing, memory: RM.Memory, file2: seq<Fields>) returns (map2: Option<Map>)
    requires AllHashable(hashing.specs, file2)
    ensures map2.Some? ==> fresh(map2.value) && map2.value.Valid() && map2.value.hashing == hashing
    ensures map2.Some? ==> map2.value.inserted == Entries(file2)
    ensures map2.Some? ==> AllCheck(hashing.specs, file2)
    ensures memory.ample && AllCheck(hashing.specs, file2) ==> map2.Some?
  {
    hide RM.RecordMultiHashMap.Valid, HasFields, HashableTexts;
    var m := new RM.RecordMultiHashMap<()>(hashing, memory, RM.INITIAL_HASH_TABLE_SIZE);
    if m.table == [] { return None; }
    var i := 0;
    while i < |file2|
      invariant 0 <= i <= |file2| && m.Valid() && m.inserted == Entries(file2[..i])
      invariant forall k :: 0 <= k < i ==> CheckFields(hashing.specs, file2[k])
    {
      if !CheckFields(hashing.specs, file2[i]) { return None; }
      assert HashableTexts(Kinds(hashing.specs), Texts(hashing.specs, file2[i]));
      var ok := m.Insert(file2[i], ());
      if !ok { return None; }
      assert Entries(file2[..i + 1]) == Entries(file2[..i]) + [Entry(file2[i], ())];
      i := i + 1;
    }
    assert file2[..i] == file2;
    map2 := Some(m);
  }

  /** The merge callback: each matching record of the second file in turn. */
  method WriteMatches(r1: Fields, list: seq<Entry<()>>, nonCommon: seq<nat>) returns (output: seq<Fields>)
    ensures output == MergeAll(r1, RecordsOf(list), nonCommon)
  {
    output := [];
    var i := 0;
    while i < |list|
      invariant 0 <= i <= |list| && output == MergeAll(r1, RecordsOf(list[..i]), nonCommon)
    {
      var r := RecordMergeWrite(r1, list[i].r, nonCommon);
      output := output + [r];
      assert RecordsOf(list[..i + 1]) == RecordsOf(list[..i]) + [list[i].r];
      i := i + 1;
    }
    assert list[..i] == list;
  }

  /** What the next record of the first file adds to each of the joins. */
  lemma JoinStep(keys: Keys, nonCommon: seq<nat>, empty2: Fields, file1: seq<Fields>, i: nat, file2: seq<Fields>)
    requires keys.Valid() && i < |file1|
    ensures var matches := Matches(keys, file1[i], file2);
            && NaturalJoin(keys, nonCommon, file1[i..], file2)
               == MergeAll(file1[i], matches, nonCommon) + NaturalJoin(keys, nonCommon, file1[i + 1..], file2)
            && LeftJoin(keys, nonCommon, empty2, file1[i..], file2)
               == (if matches == [] then [Merge(file1[i], empty2, nonCommon)]
                 else MergeAll(file1[i], matches, nonCommon))
                  + LeftJoin(keys, nonCommon, empty2, file1[i + 1..], file2)
            && AntiJoin(keys, file1[i..], file2)
               == (if matches == [] then [file1[i]] else []) + AntiJoin(keys, file1[i + 1..], file2)
  {
    hide Matches;
    assert file1[i..][1..] == file1[i + 1..] && file1[i..][0] == file1[i];
  }

  lemma JoinNothing(keys: Keys, nonCommon: seq<nat>, empty2: Fields, file2: seq<Fields>)
    requires keys.Valid()
    ensures NaturalJoin(keys, nonCommon, [], file2) == LeftJoin(keys, nonCommon, empty2, [], file2)
        == AntiJoin(keys, [], file2) == []
  {
  }

  /** The hash join emits exactly the nested-loop join, in order. */
  method Natural(keys: Keys, add: (char, int) -> int, init: int, memory: RM.Memory,
                 nonCommon: seq<nat>, file1: seq<Fields>, file2: seq<Fields>) returns (output: Option<seq<Fields>>)
    requires keys.Valid() && AllHashable(keys.specs1, file1) && AllHashable(keys.specs2, file2)
    ensures output.Some? ==> output.value == NaturalJoin(keys, nonCommon, file1, file2)
    ensures output.Some? ==> AllCheck(keys.specs1, file1) && AllCheck(keys.specs2, file2)
    ensures memory.ample && AllCheck(keys.specs1, file1) && AllCheck(keys.specs2, file2) ==> output.Some?
  {
    hide CompareTexts, HashableTexts, HasFields, RM.RecordMultiHashMap.Valid, NaturalJoin, LeftJoin, AntiJoin, Matching,
        Matches, Merge;
    JoinNothing(keys, nonCommon, [], file2);
    var map2 := ReadIntoMap(Hashing(keys.specs2, add, init), memory, file2);
    if map2.None? { return None; }
    var out: seq<Fields> := [];
    assert file1[0..] == file1;
    var i := 0;
    while i < |file1|
      invariant 0 <= i <= |file1| && map2.value.Valid() && map2.value.inserted == Entries(file2)
      invariant forall k :: 0 <= k < i ==> CheckFields(keys.specs1, file1[k])
      invariant NaturalJoin(keys, nonCommon, file1, file2) == out + NaturalJoin(keys, nonCommon, file1[i..], file2)
    {
      if !CheckFields(keys.specs1, file1[i]) { return None; }
      var list := map2.value.Find(file1[i], keys.specs1);
      MatchingIsMatches(keys, file1[i], file2);
      var rows := WriteMatches(file1[i], list, nonCommon);
      JoinStep(keys, nonCommon, [], file1, i, file2);
      out := out + rows;
      i := i + 1;
    }
    assert file1[i..] == [] && out + [] == out;
    output := Some(out);
  }

  method Left(keys: Keys, add: (char, int) -> int, init: int, memory: RM.Memory, nonCommon: seq<nat>, empty2: Fields,
              file1: seq<Fields>, file2: seq<Fields>) returns (output: Option<seq<Fields>>)
    requires keys.Valid() && AllHashable(keys.specs1, file1) && AllHashable(keys.specs2, file2)
    ensures output.Some? ==> output.value == LeftJoin(keys, nonCommon, empty2, file1, file2)
    ensures output.Some? ==> AllCheck(keys.specs1, file1) && AllCheck(keys.specs2, file2)
    ensures memory.ample && AllCheck(keys.specs1, file1) && AllCheck(keys.specs2, file2) ==> output.Some?
  {
    hide CompareTexts, HashableTexts, HasFields, RM.RecordMultiHashMap.Valid, NaturalJoin, LeftJoin, AntiJoin, Matching,
        Matches, Merge;
    JoinNothing(keys, nonCommon, empty2, file2);
    var map2 := ReadIntoMap(Hashing(keys.specs2, add, init), memory, file2);
    if map2.None? { return None; }
    var out: seq<Fields> := [];
    assert file1[0..] == file1;
    var i := 0;
    while i < |file1|
      invariant 0 <= i <= |file1| && map2.value.Valid() && map2.value.inserted == Entries(file2)
      invariant forall k :: 0 <= k < i ==> CheckFields(keys.specs1, file1[k])
      invariant LeftJoin(keys, nonCommon, empty2, file1, file2)
          == out + LeftJoin(keys, nonCommon, empty2, file1[i..], file2)
    {
      if !CheckFields(keys.specs1, file1[i]) { return None; }
      var list := map2.value.Find(file1[i], keys.specs1);
      MatchingIsMatches(keys, file1[i], file2);
      var rows := WriteMatches(file1[i], list, nonCommon);
      var found := |list| > 0;
      if !found {
        var padded := RecordMergeWrite(file1[i], empty2, nonCommon);
        rows := [padded];
      }
      JoinStep(keys, nonCommon, empty2, file1, i, file2);
      out := out + rows;
      i := i + 1;
    }
    assert file1[i..] == [] && out + [] == out;
    output := Some(out);
  }

  method Anti(keys: Keys, add: (char, int) -> int, init: int, memory: RM.Memory,
              file1: seq<Fields>, file2: seq<Fields>) returns (output: Option<seq<Fields>>)
    requires keys.Valid() && AllHashable(keys.specs1, file1) && AllHashable(keys.specs2, file2)
    ensures output.Some? ==> output.value == AntiJoin(keys, file1, file2)
    ensures output.Some? ==> AllCheck(keys.specs1, file1) && AllCheck(keys.specs2, file2)
    ensures memory.ample && AllCheck(keys.specs1, file1) && AllCheck(keys.specs2, file2) ==> output.Some?
  {
    hide CompareTexts, HashableTexts, HasFields, RM.RecordMultiHashMap.Valid, NaturalJoin, LeftJoin, AntiJoin, Matching,
        Matches, Merge;
    JoinNothing(keys, [], [], file2);
    var map2 := ReadIntoMap(Hashing(keys.specs2, add, init), memory, file2);
    if map2.None? { return None; }
    var out: seq<Fields> := [];
    assert file1[0..] == file1;
    var i := 0;
    while i < |file1|
      invariant 0 <= i <= |file1| && map2.value.Valid() && map2.value.inserted == Entries(file2)
      invariant forall k :: 0 <= k < i ==> CheckFields(keys.specs1, file1[k])
      invariant AntiJoin(keys, file1, file2) == out + AntiJoin(keys, file1[i..], file2)
    {
      if !CheckFields(keys.specs1, file1[i]) { return None; }
      var list := map2.value.Find(file1[i], keys.specs1);
      MatchingIsMatches(keys, file1[i], file2);
      if |list| == 0 { out := out + [file1[i]]; }
      JoinStep(keys, [], [], file1, i, file2);
      i := i + 1;
    }
    assert file1[i..] == [] && out + [] == out;
    output := Some(out);
  }

  /** The rows of the records that have no match, padded. */
  function Padded(unmatched: seq<Fields>, empty2: Fields, nonCommon: seq<nat>): seq<Fields> {
    seq(|unmatched|, i requires 0 <= i < |unmatched| => Merge(unmatched[i], empty2, nonCommon))
  }

  /** A left join is the natural join and one padded row for each record the anti join emits. */
  lemma {:induction false} LeftIsNaturalPlusAnti(keys: Keys, nonCommon: seq<nat>, empty2: Fields, file1: seq<Fields>,
      file2: seq<Fields>)
    requires keys.Valid()
    ensures multiset(LeftJoin(keys, nonCommon, empty2, file1, file2))
         == multiset(NaturalJoin(keys, nonCommon, file1, file2)) + multiset(Padded(AntiJoin(keys, file1, file2), empty2,
           nonCommon))
  {
    hide Matches, Merge, MergeAll, NaturalJoin, LeftJoin, AntiJoin;
    if file1 == [] {
      JoinNothing(keys, nonCommon, empty2, file2);
    } else {
      LeftIsNaturalPlusAnti(keys, nonCommon, empty2, file1[1..], file2);
      JoinStep(keys, nonCommon, empty2, file1, 0, file2);
      assert file1[0..] == file1;
      PaddedConcat(if Matches(keys, file1[0], file2) == [] then [file1[0]]
        else [], AntiJoin(keys, file1[1..], file2), empty2, nonCommon);
    }
  }

  lemma PaddedConcat(a: seq<Fields>, b: seq<Fields>, empty2: Fields, nonCommon: seq<nat>)
    ensures Padded(a + b, empty2, nonCommon) == Padded(a, empty2, nonCommon) + Padded(b, empty2, nonCommon)
    ensures |a| == 1 ==> Padded(a, empty2, nonCommon) == [Merge(a[0], empty2, nonCommon)]
  {
  }

  /** The text that stands for a missing value in a column of the given heading. */
  function EmptyValue(t: DataType): string {
    match t
    case TString | TIString => ""
    case TInt | TUint => "0"
    case TDouble => "0.0"
    case TBool => "false"
    case TIpAddress => "0.0.0.0"
  }

  /** `make_record_with_empty_fields`; none where a heading has no known type tag. */
  method MakeRecordWithEmptyFields(headings: Fields) returns (r: Option<Fields>)
    ensures r.Some? <==> forall i :: 0 <= i < |headings| ==> HeadingType(headings[i]).Some?
    ensures r.Some? ==> |r.value| == |headings|
    ensures r.Some? ==> forall i :: 0 <= i < |headings| ==> r.value[i] == EmptyValue(HeadingType(headings[i]).value)
  {
    hide HeadingType;
    var fields: Fields := [];
    var i := 0;
    while i < |headings|
      invariant 0 <= i <= |headings| && |fields| == i
      invariant forall k :: 0 <= k < i ==>
          HeadingType(headings[k]).Some? && fields[k] == EmptyValue(HeadingType(headings[k]).value)
    {
      if HeadingType(headings[i]).None? { return None; }
      fields := fields + [EmptyValue(HeadingType(headings[i]).value)];
      i := i + 1;
    }
    r := Some(fields);
  }

  /** The keys of a join of two files: every heading they have in common. */
  ghost predicate KeysFor(keys: Keys, headings1: Fields, headings2: Fields) {
    && SpecsFor(keys.specs1, headings1, CommonHeadings(headings1, headings2))
    && SpecsFor(keys.specs2, headings2, CommonHeadings(headings1, headings2))
  }

  /** All common columns are of kinds the map supports. */
  predicate KindsKnown(headings1: Fields, headings2: Fields) {
    forall h <- CommonHeadings(headings1, headings2) :: KindOf(h).Some?
  }

  /** Every record has the common columns. */
  ghost predicate AllHaveKeys(headings1: Fields, headings2: Fields, file1: seq<Fields>, file2: seq<Fields>) {
    forall keys :: KeysFor(keys, headings1, headings2) ==> AllCheck(keys.specs1, file1) && AllCheck(keys.specs2, file2)
  }

  ghost predicate JoinInput(headings1: Fields, headings2: Fields, file1: seq<Fields>, file2: seq<Fields>) {
    && Tagged(headings1) && Distinct(headings1) && Tagged(headings2) && Distinct(headings2)
    && forall keys :: KeysFor(keys, headings1, headings2) ==>
      AllHashable(keys.specs1, file1) && AllHashable(keys.specs2, file2)
  }

  /** The headings determine the keys. */
  lemma OneKeys(a: Keys, b: Keys, headings1: Fields, headings2: Fields)
    requires Distinct(headings1) && Distinct(headings2) && KeysFor(a, headings1, headings2)
    requires KeysFor(b, headings1, headings2)
    ensures a == b
  {
    hide KindOf;
    OneSpecs(a.specs1, b.specs1, headings1, CommonHeadings(headings1, headings2));
    OneSpecs(a.specs2, b.specs2, headings2, CommonHeadings(headings1, headings2));
  }

  lemma OneSpecs(a: seq<Spec>, b: seq<Spec>, headings: Fields, selected: Fields)
    requires Distinct(headings) && SpecsFor(a, headings, selected) && SpecsFor(b, headings, selected)
    ensures a == b
  {
    hide KindOf;
    forall i | 0 <= i < |a| ensures a[i] == b[i] {
      assert headings[a[i].fieldNumber] == headings[b[i].fieldNumber] && Some(a[i].kind) == Some(b[i].kind);
    }
  }

  lemma HaveTheirKeys(keys: Keys, headings1: Fields, headings2: Fields, file1: seq<Fields>, file2: seq<Fields>)
    requires Distinct(headings1) && Distinct(headings2) && KeysFor(keys, headings1, headings2)
    ensures AllHaveKeys(headings1, headings2, file1, file2)
        <==> AllCheck(keys.specs1, file1) && AllCheck(keys.specs2, file2)
  {
    hide AllCheck, SpecsFor, Distinct;
    forall other | KeysFor(other, headings1, headings2) ensures other == keys {
      OneKeys(keys, other, headings1, headings2);
    }
  }

  /** The columns both files are joined on, and the columns only the second has. */
  method Prepare(headings1: Fields, headings2: Fields) returns (keys: Option<Keys>, nonCommon: seq<nat>)
    requires Tagged(headings1) && Distinct(headings1) && Tagged(headings2) && Distinct(headings2)
    ensures nonCommon == OtherColumns(headings1, headings2, 0)
    ensures keys.Some? ==> KeysFor(keys.value, headings1, headings2) && keys.value.Valid()
    ensures keys.Some? <==> KindsKnown(headings1, headings2)
  {
    hide KindOf, WithoutTypeTag;
    var common;
    common, nonCommon := FindCommonAndNonCommonHeadings(headings1, headings2);
    CommonAreInBoth(headings1, headings2);
    var specs2 := MakeSpecs(headings2, common);
    var specs1 := MakeSpecs(headings1, common);
    if specs1.None? || specs2.None? { return None, nonCommon; }
    PairedSpecs(headings1, headings2, common, specs1.value, specs2.value);
    keys := Some(Keys(specs1.value, specs2.value));
  }

  // --- The joins in terms of the two files. ---

  /** The keys match exactly when the records agree under every common heading. */
  lemma MatchIsSameKeys(keys: Keys, headings1: Fields, headings2: Fields, r1: Fields, r2: Fields)
    requires Distinct(headings1) && Distinct(headings2) && KeysFor(keys, headings1, headings2) && keys.Valid()
    ensures keys.Match(r1, r2) <==> SameKeys(headings1, headings2, r1, r2)
  {
    hide CommonHeadings, CompareTexts, SameKeys, SpecsFor, Distinct;
    KeysAreCommonHeadings(keys.specs1, keys.specs2, headings1, headings2, r1, r2);
  }

  lemma PairsAreMatched(keys: Keys, headings1: Fields, headings2: Fields, p: Pair, file1: seq<Fields>,
      file2: seq<Fields>)
    requires Distinct(headings1) && Distinct(headings2) && KeysFor(keys, headings1, headings2) && keys.Valid()
    ensures MatchedBy(keys, p, 0, file1, file2) <==> Matched(p, headings1, headings2, file1, file2)
    ensures UnmatchedBy(keys, p, 0, file1, file2) <==> Unmatched(p, headings1, headings2, file1, file2)
  {
    hide CompareTexts, SameKeys, KeysFor, Distinct;
    if p.left < |file1| {
      forall y | 0 <= y < |file2|
        ensures keys.Match(file1[p.left], file2[y]) <==> SameKeys(headings1, headings2, file1[p.left], file2[y])
      {
        MatchIsSameKeys(keys, headings1, headings2, file1[p.left], file2[y]);
      }
    }
  }

  lemma RowsAreMerged(output: seq<Fields>, pairs: seq<Pair>, empty2: Fields, headings1: Fields, headings2: Fields,
      file1: seq<Fields>, file2: seq<Fields>)
    requires Distinct(headings1) && Distinct(headings2)
    requires MergedRows(output, pairs, OtherColumns(headings1, headings2, 0), empty2, file1, file2)
    requires (forall p <- pairs :: p.right.Some?) || (|empty2| == |headings2| && IsEmptyRecord(empty2, headings2))
    ensures RowsOf(output, pairs, Merge(headings1, headings2, OtherColumns(headings1, headings2, 0)), headings1,
                   headings2, file1, file2)
  {
    hide OtherColumns, Merge, RowOf, Distinct, IsEmptyRecord;
    var headings := Merge(headings1, headings2, OtherColumns(headings1, headings2, 0));
    forall k | 0 <= k < |output|
      ensures RowOf(output[k], file1[pairs[k].left],
                    if pairs[k].right.Some? then Some(file2[pairs[k].right.value]) else None, headings, headings1,
                    headings2)
    {
      var p := pairs[k];
      var r1, r2 := file1[p.left], if p.right.Some? then file2[p.right.value] else empty2;
      MergedRow(r1, r2, headings, headings1, headings2);
      if p.right.None? {
        assert p in pairs;
        EmptyTexts(empty2, headings2);
        MergedIsLonger(headings1, headings2, OtherColumns(headings1, headings2, 0));
        PaddedRow(output[k], r1, r2, headings, headings1, headings2);
      }
    }
  }

  lemma MergedIsLonger(r1: Fields, r2: Fields, nonCommon: seq<nat>)
    ensures |r1| <= |Merge(r1, r2, nonCommon)|
  {
  }

  lemma EmptyTexts(empty2: Fields, headings: Fields)
    requires |empty2| == |headings| && IsEmptyRecord(empty2, headings)
    ensures forall y :: 0 <= y < |headings| ==> IsEmptyText(headings[y], empty2[y])
  {
    hide HeadingType, HasType;
    forall y | 0 <= y < |headings| ensures IsEmptyText(headings[y], empty2[y]) {
      forall t ensures HasType(headings[y], t) <==> HeadingType(headings[y]) == Some(t) {
        TypedHeading(headings[y], t);
      }
    }
  }

  lemma NaturalJoinIs(keys: Keys, headings1: Fields, headings2: Fields, file1: seq<Fields>, file2: seq<Fields>)
    requires Distinct(headings1) && Distinct(headings2) && KeysFor(keys, headings1, headings2) && keys.Valid()
    ensures var nonCommon := OtherColumns(headings1, headings2, 0);
      IsNaturalJoin(NaturalJoin(keys, nonCommon, file1, file2), Merge(headings1, headings2, nonCommon), headings1,
                    headings2, file1, file2)
  {
    hide NaturalJoin, KeysFor, Distinct, Merge, OtherColumns, MergedRows, RowsOf, Matched, MatchedBy, Ordered;
    var nonCommon := OtherColumns(headings1, headings2, 0);
    var pairs := NaturalPairs(keys, nonCommon, file1, 0, file2);
    assert file1[0..] == file1;
    forall p ensures MatchedBy(keys, p, 0, file1, file2) <==> Matched(p, headings1, headings2, file1, file2) {
      PairsAreMatched(keys, headings1, headings2, p, file1, file2);
    }
    forall p | p in pairs ensures p.right.Some? {
      assert MatchedBy(keys, p, 0, file1, file2);
      MatchedHasRight(keys, p, file1, file2);
    }
    RowsAreMerged(NaturalJoin(keys, nonCommon, file1, file2), pairs, [], headings1, headings2, file1, file2);
  }

  lemma MatchedHasRight(keys: Keys, p: Pair, file1: seq<Fields>, file2: seq<Fields>)
    requires keys.Valid() && MatchedBy(keys, p, 0, file1, file2)
    ensures p.right.Some?
  {
  }

  lemma LeftJoinIs(keys: Keys, empty2: Fields, headings1: Fields, headings2: Fields, file1: seq<Fields>,
      file2: seq<Fields>)
    requires Distinct(headings1) && Distinct(headings2) && KeysFor(keys, headings1, headings2) && keys.Valid()
    requires |empty2| == |headings2| && IsEmptyRecord(empty2, headings2)
    ensures var nonCommon := OtherColumns(headings1, headings2, 0);
      IsLeftJoin(LeftJoin(keys, nonCommon, empty2, file1, file2), Merge(headings1, headings2, nonCommon), headings1,
                 headings2, file1, file2)
  {
    hide LeftJoin, KeysFor, Distinct, Merge, OtherColumns, MergedRows, RowsOf, Matched, Unmatched, MatchedBy,
      UnmatchedBy, Ordered, IsEmptyRecord;
    var nonCommon := OtherColumns(headings1, headings2, 0);
    var pairs := LeftPairs(keys, nonCommon, empty2, file1, 0, file2);
    assert file1[0..] == file1;
    forall p
      ensures MatchedBy(keys, p, 0, file1, file2) <==> Matched(p, headings1, headings2, file1, file2)
      ensures UnmatchedBy(keys, p, 0, file1, file2) <==> Unmatched(p, headings1, headings2, file1, file2)
    {
      PairsAreMatched(keys, headings1, headings2, p, file1, file2);
    }
    RowsAreMerged(LeftJoin(keys, nonCommon, empty2, file1, file2), pairs, empty2, headings1, headings2, file1, file2);
  }

  lemma {:induction false} AntiPlaces(keys: Keys, file1: seq<Fields>, from: nat, file2: seq<Fields>)
    returns (places: seq<nat>)
    requires keys.Valid() && from <= |file1|
    ensures var output := AntiJoin(keys, file1[from..], file2);
      |output| == |places| && forall k :: 0 <= k < |places| ==> places[k] < |file1| && output[k] == file1[places[k]]
    ensures Ascending(places)
    ensures forall x: nat :: x in places <==> UnmatchedBy(keys, Pair(x, None), from, file1, file2)
    decreases |file1| - from
  {
    hide AntiJoin, Matches, UnmatchedBy, Ascending;
    places := [];
    if from == |file1| {
      JoinNothing(keys, [], [], file2);
      NoRows(keys, [], [], file1, file2);
      NoPlaces();
      assert file1[from..] == [];
    } else {
      var rest := AntiPlaces(keys, file1, from + 1, file2);
      JoinStep(keys, [], [], file1, from, file2);
      NoMatchHere(keys, file1, from, file2);
      var first := if Matches(keys, file1[from], file2) == [] then [from] else [];
      forall x: nat
        ensures UnmatchedBy(keys, Pair(x, None), from, file1, file2) <==> x in first + rest
      {
        Onwards(keys, Pair(x, None), from, file1, file2);
      }
      forall x: nat | x in rest ensures x > from {
        Onwards(keys, Pair(x, None), from, file1, file2);
      }
      AscendingConcat(first, rest, from);
      places := first + rest;
    }
  }

  lemma NoPlaces()
    ensures Ascending([])
  {
  }

  lemma AscendingConcat(first: seq<nat>, rest: seq<nat>, from: nat)
    requires (first == [] || first == [from]) && Ascending(rest) && forall x <- rest :: x > from
    ensures Ascending(first + rest)
  {
    assert forall k :: 0 <= k < |rest| ==> rest[k] in rest;
  }

  lemma NoMatchHere(keys: Keys, file1: seq<Fields>, i: nat, file2: seq<Fields>)
    requires keys.Valid() && i < |file1|
    ensures UnmatchedBy(keys, Pair(i, None), i, file1, file2) <==> Matches(keys, file1[i], file2) == []
  {
    hide CompareTexts, Matches;
    var places := MatchPlaces(keys, file1[i], file2, 0);
    assert file2[0..] == file2;
    assert places != [] ==> places[0] in places;
    assert places == [] ==> forall y: nat :: y !in places;
  }

  lemma AntiJoinIs(keys: Keys, headings1: Fields, headings2: Fields, file1: seq<Fields>, file2: seq<Fields>)
    requires Distinct(headings1) && Distinct(headings2) && KeysFor(keys, headings1, headings2) && keys.Valid()
    ensures IsAntiJoin(AntiJoin(keys, file1, file2), headings1, headings2, file1, file2)
  {
    hide AntiJoin, KeysFor, Distinct, HasNoMatch, CompareTexts;
    var places := AntiPlaces(keys, file1, 0, file2);
    assert file1[0..] == file1;
    forall x: nat
      ensures UnmatchedBy(keys, Pair(x, None), 0, file1, file2)
          <==> x < |file1| && HasNoMatch(file1[x], headings1, headings2, file2)
    {
      PairsAreMatched(keys, headings1, headings2, Pair(x, None), file1, file2);
    }
  }

  /** When a join can be had at all: the columns both files have are of types it can compare, and no record lacks
      one of them. */
  lemma KeysInTexts(headings1: Fields, headings2: Fields, file1: seq<Fields>, file2: seq<Fields>)
    requires Distinct(headings1) && Distinct(headings2)
    ensures KindsKnown(headings1, headings2) <==> KeyTypesKnown(headings1, headings2)
    ensures (exists keys :: KeysFor(keys, headings1, headings2) && keys.Valid()) ==>
      (AllHaveKeys(headings1, headings2, file1, file2) <==> KeysPresent(headings1, headings2, file1, file2))
  {
    hide KindOf, AllHaveKeys, KeysPresent, CommonHeadings, Distinct, KeysFor;
    CommonAreInBoth(headings1, headings2);
    forall h { KindsByText(h); }
    if keys :| KeysFor(keys, headings1, headings2) && keys.Valid() {
      HaveTheirKeys(keys, headings1, headings2, file1, file2);
      PresentIsCheck(keys, headings1, headings2, file1, file2);
    }
  }

  lemma PresentIsCheck(keys: Keys, headings1: Fields, headings2: Fields, file1: seq<Fields>, file2: seq<Fields>)
    requires Distinct(headings1) && Distinct(headings2) && KeysFor(keys, headings1, headings2)
    ensures AllCheck(keys.specs1, file1) && AllCheck(keys.specs2, file2)
        <==> KeysPresent(headings1, headings2, file1, file2)
  {
    hide KindOf, CommonHeadings;
    CommonAreInBoth(headings1, headings2);
    var common := CommonHeadings(headings1, headings2);
    assert forall i :: 0 <= i < |common| ==> common[i] in common;
    assert forall i :: 0 <= i < |common| ==>
      headings1[keys.specs1[i].fieldNumber] == common[i] == headings2[keys.specs2[i].fieldNumber];
    if AllCheck(keys.specs1, file1) && AllCheck(keys.specs2, file2) {
      forall x, y | 0 <= x < |headings1| && 0 <= y < |headings2| && headings1[x] == headings2[y]
        ensures forall i :: 0 <= i < |file1| ==> x < |file1[i]|
        ensures forall j :: 0 <= j < |file2| ==> y < |file2[j]|
      {
        assert headings1[x] in common;
        var i :| 0 <= i < |common| && common[i] == headings1[x];
        assert keys.specs1[i].fieldNumber == x && keys.specs2[i].fieldNumber == y;
      }
    }
  }

  /** join_natural on two files with their headings. */
  method JoinNatural(add: (char, int) -> int, init: int, memory: RM.Memory, headings1: Fields, file1: seq<Fields>,
                     headings2: Fields, file2: seq<Fields>) returns (headings: Fields, output: Option<seq<Fields>>)
    requires JoinInput(headings1, headings2, file1, file2)
    ensures headings == Merge(headings1, headings2, OtherColumns(headings1, headings2, 0))
    ensures output.Some? ==> exists keys ::
              && KeysFor(keys, headings1, headings2) && keys.Valid()
              && output.value == NaturalJoin(keys, OtherColumns(headings1, headings2, 0), file1, file2)
    ensures output.Some? ==> KindsKnown(headings1, headings2) && AllHaveKeys(headings1, headings2, file1, file2)
    ensures memory.ample && KindsKnown(headings1, headings2) && AllHaveKeys(headings1, headings2, file1, file2) ==>
        output.Some?
    ensures HeadingsJoined(headings, headings1, headings2)
    ensures output.Some? ==> IsNaturalJoin(output.value, headings, headings1, headings2, file1, file2)
  {
    hide HeadingsJoined, IsNaturalJoin, Tagged, Distinct, SpecsFor, NaturalJoin, AllHashable, AllCheck, KindsKnown;
    var keys, nonCommon := Prepare(headings1, headings2);
    headings := RecordMergeWrite(headings1, headings2, nonCommon);
    MergedHeadings(headings1, headings2);
    if keys.None? { return headings, None; }
    HaveTheirKeys(keys.value, headings1, headings2, file1, file2);
    NaturalJoinIs(keys.value, headings1, headings2, file1, file2);
    output := Natural(keys.value, add, init, memory, nonCommon, file1, file2);
  }

  /** join_left on two files with their headings. */
  method JoinLeft(add: (char, int) -> int, init: int, memory: RM.Memory, headings1: Fields, file1: seq<Fields>,
                  headings2: Fields, file2: seq<Fields>) returns (headings: Fields, output: Option<seq<Fields>>)
    requires JoinInput(headings1, headings2, file1, file2)
    ensures headings == Merge(headings1, headings2, OtherColumns(headings1, headings2, 0))
    ensures output.Some? ==> exists keys, empty2: Fields ::
              && KeysFor(keys, headings1, headings2) && keys.Valid()
              && |empty2| == |headings2| && IsEmptyRecord(empty2, headings2)
              && output.value == LeftJoin(keys, OtherColumns(headings1, headings2, 0), empty2, file1, file2)
    ensures output.Some? ==> KindsKnown(headings1, headings2) && AllHaveKeys(headings1, headings2, file1, file2)
    ensures memory.ample && KindsKnown(headings1, headings2) && AllHaveKeys(headings1, headings2, file1, file2) ==>
      (output.Some? <==> forall i :: 0 <= i < |headings2| ==> HeadingType(headings2[i]).Some?)
    ensures HeadingsJoined(headings, headings1, headings2)
    ensures output.Some? ==> IsLeftJoin(output.value, headings, headings1, headings2, file1, file2)
  {
    hide HeadingsJoined, IsLeftJoin, Tagged, Distinct, SpecsFor, LeftJoin, AllHashable, HeadingType, AllCheck,
      KindsKnown;
    var keys, nonCommon := Prepare(headings1, headings2);
    headings := RecordMergeWrite(headings1, headings2, nonCommon);
    MergedHeadings(headings1, headings2);
    var empty2 := MakeRecordWithEmptyFields(headings2);
    if keys.None? || empty2.None? { return headings, None; }
    HaveTheirKeys(keys.value, headings1, headings2, file1, file2);
    LeftJoinIs(keys.value, empty2.value, headings1, headings2, file1, file2);
    output := Left(keys.value, add, init, memory, nonCommon, empty2.value, file1, file2);
  }

  predicate IsEmptyRecord(r: Fields, headings: Fields)
    requires |r| == |headings|
  {
    forall i :: 0 <= i < |headings|
        ==> HeadingType(headings[i]).Some? && r[i] == EmptyValue(HeadingType(headings[i]).value)
  }

  /** join_anti on two files with their headings. */
  method JoinAnti(add: (char, int) -> int, init: int, memory: RM.Memory, headings1: Fields, file1: seq<Fields>,
                  headings2: Fields, file2: seq<Fields>) returns (headings: Fields, output: Option<seq<Fields>>)
    requires JoinInput(headings1, headings2, file1, file2)
    ensures headings == headings1
    ensures output.Some? ==> exists keys ::
              && KeysFor(keys, headings1, headings2) && keys.Valid()
              && output.value == AntiJoin(keys, file1, file2)
    ensures output.Some? ==> KindsKnown(headings1, headings2) && AllHaveKeys(headings1, headings2, file1, file2)
    ensures memory.ample && KindsKnown(headings1, headings2) && AllHaveKeys(headings1, headings2, file1, file2) ==>
        output.Some?
    ensures output.Some? ==> IsAntiJoin(output.value, headings1, headings2, file1, file2)
  {
    hide IsAntiJoin, Tagged, Distinct, SpecsFor, AntiJoin, AllHashable, AllCheck, KindsKnown;
    headings := headings1;
    var keys, nonCommon := Prepare(headings1, headings2);
    if keys.None? { return headings, None; }
    HaveTheirKeys(keys.value, headings1, headings2, file1, file2);
    AntiJoinIs(keys.value, headings1, headings2, file1, file2);
    output := Anti(keys.value, add, init, memory, file1, file2);
  }
}
