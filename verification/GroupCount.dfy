/** count_record_callback of np1/rel/group.hpp: a map from each group to the number of its records. */
module GroupCount {
  import opened Wrappers
  import opened Compare
  import opened CompareSpecs
  import opened Multimap
  import opened HashTable
  import ColumnOrder
  import RM = RecordMultiHashMap

  type CountMap = RM.RecordMultiHashMap<nat>

  /** How many of the records have the key. */
  function CountOf(specs: seq<Spec>, input: seq<Fields>, key: seq<string>): nat
    requires |key| == |specs|
  {
    if input == [] then 0
    else
      var n := |input| - 1;
      CountOf(specs, input[..n], key) + if CompareTexts(Kinds(specs), Texts(specs, input[n]), key) == 0 then 1 else 0
  }

  /** The number of places at which a record has the same columns. */
  lemma {:induction false} CountIsNumber(specs: seq<Spec>, input: seq<Fields>, r: Fields)
    ensures CountOf(specs, input, Texts(specs, r))
         == |set x: nat | x < |input| && ColumnOrder.EqualColumns(specs, input[x], r)|
  {
    hide CompareTexts, ColumnOrder.EqualColumns;
    var all := set x: nat | x < |input| && ColumnOrder.EqualColumns(specs, input[x], r);
    if input != [] {
      var n := |input| - 1;
      CountIsNumber(specs, input[..n], r);
      ColumnOrder.EqualKeyByColumns(specs, input[n], r);
      var before := set x: nat | x < |input[..n]| && ColumnOrder.EqualColumns(specs, input[..n][x], r);
      assert all == before + if ColumnOrder.EqualColumns(specs, input[n], r) then {n} else {};
    }
  }

  /** What the map holds for a key: nothing, or one entry with the number of records. */
  predicate Counts(specs: seq<Spec>, found: seq<Entry<nat>>, count: nat) {
    if count == 0 then found == [] else |found| == 1 && found[0].v == count
  }

  ghost predicate AllCounted(specs: seq<Spec>, inserted: seq<Entry<nat>>, input: seq<Fields>) {
    forall key: seq<string> :: |key| == |specs| && HashableTexts(Kinds(specs), key) ==>
      Counts(specs, Matching(specs, inserted, key), CountOf(specs, input, key))
  }

  predicate Keyed(specs: seq<Spec>, r: Fields) {
    HasFields(specs, r) && HashableTexts(Kinds(specs), Texts(specs, r))
  }

  predicate AllKeyed(specs: seq<Spec>, input: seq<Fields>) {
    forall i :: 0 <= i < |input| ==> Keyed(specs, input[i])
  }

  /** Count one more record. `ok` is false where the source aborts: memory ran out, or the record lacks a column. */
  method CountRecord(m: CountMap, r: Fields, ghost input: seq<Fields>) returns (ok: bool)
    requires m.Valid() && AllCounted(m.hashing.specs, m.inserted, input)
    requires HashableTexts(Kinds(m.hashing.specs), Texts(m.hashing.specs, r))
    modifies m
    ensures m.memory.ample ==> (ok <==> CheckFields(m.hashing.specs, r))
    ensures ok ==> CheckFields(m.hashing.specs, r)
    ensures ok ==> m.Valid() && AllCounted(m.hashing.specs, m.inserted, input + [r])
  {
    hide RM.RecordMultiHashMap.Valid, AllCounted, HasFields, HashableTexts, Matching, CompareTexts;
    if !CheckFields(m.hashing.specs, r) { return false; }
    ghost var before := m.inserted;
    var eqList := m.Find(r, m.hashing.specs);
    if |eqList| > 0 {
      m.UpdateFront(r, eqList[0].v + 1);
      CountedAgain(m.hashing.specs, before, m.inserted, input, r, eqList);
      ok := true;
    } else {
      ok := m.Insert(r, 1);
      if ok { CountedFirst(m.hashing.specs, before, input, r, Entry(r, 1)); }
    }
  }

  lemma CountNext(specs: seq<Spec>, input: seq<Fields>, r: Fields, key: seq<string>)
    requires |key| == |specs|
    ensures CountOf(specs, input + [r], key)
         == CountOf(specs, input, key) + if CompareTexts(Kinds(specs), Texts(specs, r), key) == 0 then 1 else 0
  {
    hide CompareTexts;
    assert (input + [r])[..|input|] == input;
  }

  lemma CountedAgain(specs: seq<Spec>, before: seq<Entry<nat>>, after: seq<Entry<nat>>, input: seq<Fields>, r: Fields,
      eqList: seq<Entry<nat>>)
    requires AllCounted(specs, before, input) && Keyed(specs, r) && eqList == Matching(specs, before, Texts(specs, r))
    requires eqList != []
    requires forall key: seq<string> :: |key| == |specs| && HashableTexts(Kinds(specs), key) ==>
               Matching(specs, after, key)
               == if CompareTexts(Kinds(specs), Texts(specs, r), key) == 0
                 then SetFront(Matching(specs, before, key), eqList[0].v + 1)
                  else Matching(specs, before, key)
    ensures AllCounted(specs, after, input + [r])
  {
    hide Matching, HashableTexts, HasFields, CompareTexts, CountOf;
    forall key: seq<string> | |key| == |specs| && HashableTexts(Kinds(specs), key)
      ensures Counts(specs, Matching(specs, after, key), CountOf(specs, input + [r], key))
    {
      CountNext(specs, input, r, key);
      if CompareTexts(Kinds(specs), Texts(specs, r), key) == 0 {
        SameKeyCounts(specs, input, Texts(specs, r), key);
      }
    }
  }

  lemma CountedFirst(specs: seq<Spec>, before: seq<Entry<nat>>, input: seq<Fields>, r: Fields, e: Entry<nat>)
    requires AllCounted(specs, before, input) && Keyed(specs, r) && Matching(specs, before, Texts(specs, r)) == []
    requires e == Entry(r, 1)
    ensures AllCounted(specs, before + [e], input + [r])
  {
    hide Matching, HashableTexts, HasFields, CompareTexts, CountOf;
    forall key: seq<string> | |key| == |specs| && HashableTexts(Kinds(specs), key)
      ensures Counts(specs, Matching(specs, before + [e], key), CountOf(specs, input + [r], key))
    {
      CountNext(specs, input, r, key);
      MatchingConcat(specs, before, [e], key);
      MatchingOne(specs, e, key);
      assert Counts(specs, Matching(specs, before, Texts(specs, r)), CountOf(specs, input, Texts(specs, r)));
      var found := Matching(specs, before, key);
      assert Counts(specs, found, CountOf(specs, input, key)) && found + [] == found;
      if KeyIs(specs, e, key) {
        SameKeyCounts(specs, input, Texts(specs, r), key);
      }
    }
  }

  /** Equal keys are counted alike. */
  lemma {:induction false} SameKeyCounts(specs: seq<Spec>, input: seq<Fields>, a: seq<string>, b: seq<string>)
    requires |a| == |b| == |specs| && CompareTexts(Kinds(specs), a, b) == 0
    ensures CountOf(specs, input, a) == CountOf(specs, input, b)
  {
    hide CompareTexts;
    if input != [] {
      var n := |input| - 1;
      SameKeyCounts(specs, input[..n], a, b);
      CompareTextsIsOrder(Kinds(specs), Texts(specs, input[n]), a, b);
      CompareTextsIsOrder(Kinds(specs), Texts(specs, input[n]), b, a);
      CompareTextsIsOrder(Kinds(specs), a, b, a);
    }
  }

  /** Count all records of the input. */
  method CountAll(hashing: Hashing, memory: RM.Memory, input: seq<Fields>) returns (m: Option<CountMap>)
    requires AllHashable(hashing.specs, input)
    ensures memory.ample ==> (m.Some? <==> AllCheck(hashing.specs, input))
    ensures m.Some? ==> AllKeyed(hashing.specs, input)
    ensures m.Some? ==> fresh(m.value) && m.value.Valid() && m.value.hashing == hashing
    ensures m.Some? ==> AllCounted(hashing.specs, m.value.inserted, input)
  {
    hide RM.RecordMultiHashMap.Valid, AllCounted, HasFields, HashableTexts;
    var groupMap := new RM.RecordMultiHashMap<nat>(hashing, memory, RM.INITIAL_HASH_TABLE_SIZE);
    if groupMap.table == [] { return None; }
    NothingCounted(hashing.specs);
    var i := 0;
    assert input[..0] == [];
    while i < |input|
      invariant 0 <= i <= |input| && groupMap.Valid() && AllCounted(hashing.specs, groupMap.inserted, input[..i])
      invariant forall k :: 0 <= k < i ==> CheckFields(hashing.specs, input[k])
    {
      var ok := CountRecord(groupMap, input[i], input[..i]);
      if !ok { return None; }
      assert input[..i + 1] == input[..i] + [input[i]];
      i := i + 1;
    }
    assert input[..i] == input;
    m := Some(groupMap);
  }

  lemma NothingCounted(specs: seq<Spec>)
    ensures AllCounted(specs, [], [])
  {
  }

  /** Counting does not depend on the order of the records. */
  lemma {:induction false} CountOfPermutation(specs: seq<Spec>, a: seq<Fields>, b: seq<Fields>, key: seq<string>)
    requires |key| == |specs| && multiset(a) == multiset(b)
    ensures CountOf(specs, a, key) == CountOf(specs, b, key)
    decreases |a|
  {
    hide CompareTexts, CountOf;
    if a == [] {
      assert |b| == |multiset(b)| == |multiset(a)| == 0;
    } else {
      var n := |a| - 1;
      var r := a[n];
      assert a == a[..n] + [r];
      assert r in multiset(b);
      var k :| 0 <= k < |b| && b[k] == r;
      var rest := b[..k] + b[k + 1..];
      assert b == b[..k] + [r] + b[k + 1..];
      assert multiset(rest) == multiset(b) - multiset{r} == multiset(a[..n]);
      CountOfPermutation(specs, a[..n], rest, key);
      CountWithout(specs, b, k, key);
      CountNext(specs, a[..n], r, key);
    }
  }

  lemma CountWithout(specs: seq<Spec>, b: seq<Fields>, k: nat, key: seq<string>)
    requires |key| == |specs| && k < |b|
    ensures CountOf(specs, b, key)
         == CountOf(specs, b[..k] + b[k + 1..], key)
            + if CompareTexts(Kinds(specs), Texts(specs, b[k]), key) == 0 then 1 else 0
  {
    hide CompareTexts, CountOf;
    assert b == b[..k] + [b[k]] + b[k + 1..];
    CountConcat(specs, b[..k] + [b[k]], b[k + 1..], key);
    CountConcat(specs, b[..k], b[k + 1..], key);
    CountNext(specs, b[..k], b[k], key);
  }

  lemma {:induction false} CountConcat(specs: seq<Spec>, a: seq<Fields>, b: seq<Fields>, key: seq<string>)
    requires |key| == |specs|
    ensures CountOf(specs, a + b, key) == CountOf(specs, a, key) + CountOf(specs, b, key)
    decreases |b|
  {
    hide CompareTexts;
    if b == [] {
      assert a + b == a;
    } else {
      var n := |b| - 1;
      CountConcat(specs, a, b[..n], key);
      assert a + b == (a + b[..n]) + [b[n]];
      CountNext(specs, a + b[..n], b[n], key);
    }
  }
}
