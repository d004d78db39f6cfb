/** The median aggregator of np1/rel/group.hpp: count the records of each group, sort all records, and pick
    from each group the one in the middle. */
module GroupMedian {
  import opened Wrappers
  import opened Compare
  import opened CompareSpecs
  import opened Multimap
  import opened HashTable
  import opened GroupCount
  import RM = RecordMultiHashMap
  import opened StableOrder
  import opened MergeSort
  import MS = MergeSorter
  import opened ExternalSort
  import SM = SortManager

  /** Two records of one group. */
  predicate SameGroup(specs: seq<Spec>, a: Fields, b: Fields) {
    CompareTexts(Kinds(specs), Texts(specs, a), Texts(specs, b)) == 0
  }

  /** The records of each group stand together. */
  ghost predicate Contiguous(specs: seq<Spec>, s: seq<Fields>) {
    forall i, j, k :: 0 <= i <= j <= k < |s| && SameGroup(specs, s[i], s[k]) ==> SameGroup(specs, s[i], s[j])
  }

  /** How many records at the beginning are in the group of `first`. */
  function GroupLength(specs: seq<Spec>, first: Fields, s: seq<Fields>): (n: nat)
    ensures n <= |s| && (forall i :: 0 <= i < n ==> SameGroup(specs, first, s[i]))
    ensures n < |s| ==> !SameGroup(specs, first, s[n])
  {
    if s == [] || !SameGroup(specs, first, s[0]) then 0 else 1 + GroupLength(specs, first, s[1..])
  }

  lemma SameGroupIsEquivalence(specs: seq<Spec>, a: Fields, b: Fields, c: Fields)
    ensures SameGroup(specs, a, a) && (SameGroup(specs, a, b) <==> SameGroup(specs, b, a))
    ensures SameGroup(specs, a, b) && SameGroup(specs, b, c) ==> SameGroup(specs, a, c)
  {
    CompareTextsIsOrder(Kinds(specs), Texts(specs, a), Texts(specs, b), Texts(specs, c));
  }

  /** One record of each group in order: of n records the ((n + 1) / 2)-th. */
  function Medians(specs: seq<Spec>, s: seq<Fields>): seq<Fields>
    decreases |s|
  {
    if s == [] then []
    else
      var n := GroupLength(specs, s[0], s);
      SameGroupIsEquivalence(specs, s[0], s[0], s[0]);
      [s[(n + 1) / 2 - 1]] + Medians(specs, s[n..])
  }

  // --- The callback. ---

  datatype State = State(isFirst: bool, example: Fields, medianOffset: nat, counter: nat)

  /** One call: the new state, and whether the record is written. `count` is what the map holds for it. */
  function Step(specs: seq<Spec>, state: State, r: Fields, count: nat): (State, bool) {
    if !state.isFirst && SameGroup(specs, state.example, r) then
      (state.(counter := state.counter + 1), state.counter + 1 == state.medianOffset)
    else
      (State(false, r, (count + 1) / 2, 1), 1 == (count + 1) / 2)
  }

  /** What the callback writes when it is called with the records of `s`, the counts being those of `all`. */
  function Walk(specs: seq<Spec>, all: seq<Fields>, state: State, s: seq<Fields>): seq<Fields>
    decreases |s|
  {
    if s == [] then []
    else
      var (state', write) := Step(specs, state, s[0], CountOf(specs, all, Texts(specs, s[0])));
      (if write then [s[0]] else []) + Walk(specs, all, state', s[1..])
  }

  const START: State := State(true, [], 0, 0)

  /** `output_median_aggregated_record_callback` called with every sorted record. */
  method OutputMedians(m: CountMap, sorted: seq<Fields>, ghost all: seq<Fields>) returns (output: seq<Fields>)
    requires m.Valid() && AllCounted(m.hashing.specs, m.inserted, all) && AllKeyed(m.hashing.specs, sorted)
    requires forall i :: 0 <= i < |sorted| ==> CountOf(m.hashing.specs, all, Texts(m.hashing.specs, sorted[i])) > 0
    ensures output == Walk(m.hashing.specs, all, START, sorted)
  {
    hide RM.RecordMultiHashMap.Valid, Keyed, CountOf, AllCounted, Walk, Step;
    var specs := m.hashing.specs;
    output := [];
    var state := START;
    var i := 0;
    assert sorted[0..] == sorted;
    while i < |sorted|
      invariant 0 <= i <= |sorted|
      invariant Walk(specs, all, START, sorted) == output + Walk(specs, all, state, sorted[i..])
    {
      var r := sorted[i];
      assert sorted[i..][0] == r && sorted[i..][1..] == sorted[i + 1..];
      WalkOne(specs, all, state, sorted[i..]);
      var write;
      state, write := Call(m, state, r, all);
      if write { output := output + [r]; }
      i := i + 1;
    }
    WalkNone(specs, all, state);
  }

  /** One call of the callback. */
  method Call(m: CountMap, state: State, r: Fields, ghost all: seq<Fields>) returns (state': State, write: bool)
    requires m.Valid() && AllCounted(m.hashing.specs, m.inserted, all) && Keyed(m.hashing.specs, r)
    requires CountOf(m.hashing.specs, all, Texts(m.hashing.specs, r)) > 0
    ensures (state', write) == Step(m.hashing.specs, state, r, CountOf(m.hashing.specs, all, Texts(m.hashing.specs, r)))
  {
    hide RM.RecordMultiHashMap.Valid, HasFields, HashableTexts, CompareTexts, CountOf;
    if !state.isFirst && SameGroup(m.hashing.specs, state.example, r) {
      state' := state.(counter := state.counter + 1);
      return state', state'.counter == state'.medianOffset;
    }
    var equalList := m.Find(r, m.hashing.specs);
    assert Counts(m.hashing.specs, Matching(m.hashing.specs, m.inserted, Texts(m.hashing.specs, r)),
                  CountOf(m.hashing.specs, all, Texts(m.hashing.specs, r)));
    var count := equalList[0].v;
    state' := State(false, r, (count + 1) / 2, 1);
    write := state'.counter == state'.medianOffset;
  }

  // --- When groups stand together the callback writes the medians. ---

  /** Behind the first record of a group of `n`. */
  lemma {:induction false} WalkGroup(specs: seq<Spec>, all: seq<Fields>, state: State, s: seq<Fields>, n: nat)
    requires !state.isFirst && n == GroupLength(specs, state.example, s)
    ensures Walk(specs, all, state, s)
         == (if state.counter < state.medianOffset <= state.counter + n then [s[state.medianOffset - state.counter - 1]]
           else [])
            + Walk(specs, all, state.(counter := state.counter + n), s[n..])
    decreases n
  {
    hide SameGroup, CountOf;
    if n == 0 {
      assert s[0..] == s && state.(counter := state.counter + 0) == state;
    } else {
      var next := state.(counter := state.counter + 1);
      WalkGroup(specs, all, next, s[1..], n - 1);
      assert s[1..][n - 1..] == s[n..];
    }
  }

  /** A record of another group starts afresh, whatever the state. */
  lemma WalkFresh(specs: seq<Spec>, all: seq<Fields>, state: State, s: seq<Fields>)
    requires s != [] ==> state.isFirst || !SameGroup(specs, state.example, s[0])
    ensures Walk(specs, all, state, s) == Walk(specs, all, START, s)
  {
  }

  lemma GroupCounted(specs: seq<Spec>, all: seq<Fields>, p: nat, n: nat)
    requires Contiguous(specs, all) && p < |all| && n == GroupLength(specs, all[p], all[p..])
    requires p > 0 ==> !SameGroup(specs, all[p - 1], all[p])
    ensures CountOf(specs, all, Texts(specs, all[p])) == n && n > 0
  {
    hide SameGroup, CountOf, GroupLength;
    RunFits(specs, all, p, n);
    var a, b, c, key := all[..p], all[p..p + n], all[p + n..], Texts(specs, all[p]);
    RunStarts(specs, all, p, n);
    GroupOutside(specs, all, p, n, a, b, c);
    CountUniform(specs, a, all[p], false);
    CountUniform(specs, b, all[p], true);
    CountUniform(specs, c, all[p], false);
    assert all == a + b + c;
    CountConcat(specs, a + b, c, key);
    CountConcat(specs, a, b, key);
  }

  /** Only the records of the run at `p` are in its group. */
  lemma GroupOutside(specs: seq<Spec>, all: seq<Fields>, p: nat, n: nat, a: seq<Fields>, b: seq<Fields>, c: seq<Fields>)
    requires p + n <= |all| && a == all[..p] && b == all[p..p + n] && c == all[p + n..]
    requires Contiguous(specs, all) && p < |all| && n == GroupLength(specs, all[p], all[p..])
    requires p > 0 ==> !SameGroup(specs, all[p - 1], all[p])
    ensures n > 0
    ensures forall i :: 0 <= i < |a| ==> !SameGroup(specs, a[i], all[p])
    ensures forall i :: 0 <= i < |b| ==> SameGroup(specs, b[i], all[p])
    ensures forall i :: 0 <= i < |c| ==> !SameGroup(specs, c[i], all[p])
  {
    RunStarts(specs, all, p, n);
    hide SameGroup, GroupLength;
    forall i: nat | i < |all| ensures SameGroup(specs, all[i], all[p]) <==> p <= i < p + n {
      if i < p {
        SameGroupIsEquivalence(specs, all[p - 1], all[i], all[p]);
        SameGroupIsEquivalence(specs, all[i], all[p - 1], all[p]);
      } else {
        SameGroupIsEquivalence(specs, all[p], all[i], all[p]);
        if i < p + n {
          assert all[p..][i - p] == all[i];
        } else {
          assert all[p..][n] == all[p + n];
        }
      }
    }
  }

  lemma RunFits(specs: seq<Spec>, all: seq<Fields>, p: nat, n: nat)
    requires p < |all| && n == GroupLength(specs, all[p], all[p..])
    ensures p + n <= |all|
  {
  }

  lemma RunStarts(specs: seq<Spec>, all: seq<Fields>, p: nat, n: nat)
    requires p < |all| && n == GroupLength(specs, all[p], all[p..])
    ensures n > 0
  {
    hide CompareTexts;
    SameGroupIsEquivalence(specs, all[p], all[p], all[p]);
    assert all[p..][0] == all[p];
  }

  lemma {:induction false} CountUniform(specs: seq<Spec>, s: seq<Fields>, r: Fields, same: bool)
    requires forall i :: 0 <= i < |s| ==> SameGroup(specs, s[i], r) == same
    ensures CountOf(specs, s, Texts(specs, r)) == if same then |s| else 0
  {
    hide CompareTexts;
    if s != [] {
      var n := |s| - 1;
      forall i | 0 <= i < n ensures SameGroup(specs, s[..n][i], r) == same {
        assert s[..n][i] == s[i];
      }
      CountUniform(specs, s[..n], r, same);
      assert SameGroup(specs, s[n], r) == same;
    }
  }

  lemma {:induction false} WalkIsMedians(specs: seq<Spec>, all: seq<Fields>, p: nat)
    requires Contiguous(specs, all) && p <= |all|
    requires 0 < p < |all| ==> !SameGroup(specs, all[p - 1], all[p])
    ensures Walk(specs, all, START, all[p..]) == Medians(specs, all[p..])
    decreases |all| - p
  {
    hide SameGroup, CountOf, Contiguous, Walk, GroupLength, Medians;
    if p == |all| {
      NothingToWalk(specs, all, all[p..]);
    } else {
      var n := GroupLength(specs, all[p], all[p..]);
      GroupCounted(specs, all, p, n);
      LastOfGroup(specs, all, p, n);
      WalkRun(specs, all, p, n);
      WalkIsMedians(specs, all, p + n);
      MediansOfRun(specs, all[p..], n);
      assert all[p..][n..] == all[p + n..];
    }
  }

  lemma NothingToWalk(specs: seq<Spec>, all: seq<Fields>, s: seq<Fields>)
    requires s == []
    ensures Walk(specs, all, START, s) == Medians(specs, s) == []
  {
  }

  lemma MediansOfRun(specs: seq<Spec>, s: seq<Fields>, n: nat)
    requires s != [] && n == GroupLength(specs, s[0], s) && n > 0
    ensures Medians(specs, s) == [s[(n + 1) / 2 - 1]] + Medians(specs, s[n..])
  {
  }

  /** Of a run of one group the callback writes the middle record, and then starts afresh. */
  lemma WalkRun(specs: seq<Spec>, all: seq<Fields>, p: nat, n: nat)
    requires p < |all| && n == GroupLength(specs, all[p], all[p..]) && n > 0 && p + n <= |all|
    requires CountOf(specs, all, Texts(specs, all[p])) == n
    requires p + n < |all| ==> !SameGroup(specs, all[p], all[p + n])
    ensures Walk(specs, all, START, all[p..]) == [all[p..][(n + 1) / 2 - 1]] + Walk(specs, all, START, all[p + n..])
  {
    hide SameGroup, CountOf, Walk;
    var s := all[p..];
    var state := State(false, s[0], (n + 1) / 2, 1);
    GroupTail(specs, s[0], s, n);
    WalkFirst(specs, all, s, n);
    WalkGroup(specs, all, state, s[1..], n - 1);
    assert s[1..][n - 1..] == all[p + n..];
    if p + n < |all| {
      assert all[p + n..][0] == all[p + n];
    }
    WalkFresh(specs, all, state.(counter := n), all[p + n..]);
    if (n + 1) / 2 > 1 {
      assert s[1..][(n + 1) / 2 - 2] == s[(n + 1) / 2 - 1];
    }
  }

  lemma GroupTail(specs: seq<Spec>, first: Fields, s: seq<Fields>, n: nat)
    requires s != [] && n == GroupLength(specs, first, s) && n > 0
    ensures GroupLength(specs, first, s[1..]) == n - 1
  {
  }

  lemma LastOfGroup(specs: seq<Spec>, all: seq<Fields>, p: nat, n: nat)
    requires p < |all| && n == GroupLength(specs, all[p], all[p..]) && n > 0
    ensures p + n <= |all|
    ensures p + n < |all| ==> !SameGroup(specs, all[p], all[p + n]) && !SameGroup(specs, all[p + n - 1], all[p + n])
  {
    hide SameGroup;
    if p + n < |all| {
      assert all[p..][n] == all[p + n] && all[p..][n - 1] == all[p + n - 1];
      SameGroupIsEquivalence(specs, all[p], all[p + n - 1], all[p + n]);
    }
  }

  /** The first record of a group of `n`. */
  lemma WalkFirst(specs: seq<Spec>, all: seq<Fields>, s: seq<Fields>, n: nat)
    requires s != [] && n > 0 && CountOf(specs, all, Texts(specs, s[0])) == n
    ensures Walk(specs, all, START, s)
         == (if (n + 1) / 2 == 1 then [s[0]] else []) + Walk(specs, all, State(false, s[0], (n + 1) / 2, 1), s[1..])
  {
  }

  // --- One record for each group. ---

  /** Every group that occurs has exactly one record in the output. */
  lemma OneMedianPerGroup(specs: seq<Spec>, s: seq<Fields>, q: nat)
    requires Contiguous(specs, s) && q < |s|
    ensures CountOf(specs, Medians(specs, s), Texts(specs, s[q])) == 1
  {
    MediansFrom(specs, s, 0, q);
    assert s[0..] == s;
  }

  lemma {:induction false} MediansFrom(specs: seq<Spec>, all: seq<Fields>, p: nat, q: nat)
    requires Contiguous(specs, all) && p <= |all| && q < |all|
    requires 0 < p < |all| ==> !SameGroup(specs, all[p - 1], all[p])
    ensures CountOf(specs, Medians(specs, all[p..]), Texts(specs, all[q])) == if p <= q then 1 else 0
    decreases |all| - p
  {
    hide SameGroup, CountOf, GroupLength, Medians;
    if p == |all| {
      NothingToWalk(specs, all, all[p..]);
      CountUniform(specs, [], all[q], false);
    } else {
      var n := GroupLength(specs, all[p], all[p..]);
      RunStarts(specs, all, p, n);
      LastOfGroup(specs, all, p, n);
      MediansFrom(specs, all, p + n, q);
      MediansOfRun(specs, all[p..], n);
      assert all[p..][n..] == all[p + n..];
      var median := all[p..][(n + 1) / 2 - 1];
      CountConcat(specs, [median], Medians(specs, all[p + n..]), Texts(specs, all[q]));
      MedianInRun(specs, all, p, n, q);
      CountUniform(specs, [median], all[q], p <= q < p + n);
    }
  }

  lemma MedianInRun(specs: seq<Spec>, all: seq<Fields>, p: nat, n: nat, q: nat)
    requires Contiguous(specs, all) && p < |all| && n == GroupLength(specs, all[p], all[p..]) && 0 < n <= |all| - p
    requires q < |all|
    requires p > 0 ==> !SameGroup(specs, all[p - 1], all[p])
    ensures SameGroup(specs, all[p..][(n + 1) / 2 - 1], all[q]) <==> p <= q < p + n
  {
    hide SameGroup, GroupLength, Contiguous;
    var k := (n + 1) / 2 - 1;
    var a, b, c := all[..p], all[p..p + n], all[p + n..];
    GroupOutside(specs, all, p, n, a, b, c);
    assert all[p..][k] == b[k];
    if q < p {
      assert a[q] == all[q];
    } else if q < p + n {
      assert b[q - p] == all[q];
    } else {
      assert c[q - p - n] == all[q];
    }
    SameGroupIsEquivalence(specs, all[q], b[k], all[p]);
    SameGroupIsEquivalence(specs, b[k], all[p], all[q]);
    SameGroupIsEquivalence(specs, all[p], all[q], all[p]);
  }

  // --- Sorting by the group columns first makes groups stand together. ---

  lemma {:induction false} KeyCompareIsCompareTexts(specs: seq<Spec>, a: Fields, b: Fields)
    ensures KeyCompare(specs, a, b) == CompareTexts(Kinds(specs), Texts(specs, a), Texts(specs, b))
  {
    hide CompareBy;
    if specs != [] {
      KeyCompareIsCompareTexts(specs[1..], a, b);
      assert Kinds(specs)[1..] == Kinds(specs[1..]);
      assert Texts(specs, a)[1..] == Texts(specs[1..], a) && Texts(specs, b)[1..] == Texts(specs[1..], b);
    }
  }

  lemma {:induction false} PrefixCompares(specs: seq<Spec>, last: Spec, a: Fields, b: Fields)
    requires KeyCompare(specs + [last], a, b) <= 0
    ensures KeyCompare(specs, a, b) <= 0
  {
    hide CompareBy;
    if specs != [] {
      assert (specs + [last])[1..] == specs[1..] + [last] && (specs + [last])[0] == specs[0];
      if SpecCompare(specs[0], a, b) == 0 {
        PrefixCompares(specs[1..], last, a, b);
      }
    }
  }

  lemma SortedIsContiguous(specs: seq<Spec>, last: Spec, input: seq<Fields>)
    ensures Contiguous(specs, SortedData(LessThan(specs + [last]), SM.Number(input)))
  {
    hide KeyCompare, CompareTexts, SortedOrder;
    var all := specs + [last];
    var s := SortedData(LessThan(all), SM.Number(input));
    forall i, j | 0 <= i < j < |s| ensures KeyCompare(specs, s[i], s[j]) <= 0 {
      SortedPair(all, input, i, j);
      PrefixCompares(specs, last, s[i], s[j]);
    }
    forall i, j, k | 0 <= i <= j <= k < |s| && SameGroup(specs, s[i], s[k]) ensures SameGroup(specs, s[i], s[j]) {
      KeyCompareIsCompareTexts(specs, s[i], s[k]);
      KeyCompareIsCompareTexts(specs, s[i], s[j]);
      KeyCompareIsOrder(specs, s[i], s[j], s[k]);
      SameGroupIsEquivalence(specs, s[i], s[i], s[i]);
    }
  }

  lemma SortedPair(specs: seq<Spec>, input: seq<Fields>, i: nat, j: nat)
    requires i < j < |input|
    ensures var s := SortedData(LessThan(specs), SM.Number(input)); KeyCompare(specs, s[i], s[j]) <= 0
  {
    hide KeyCompare, SortedOrder;
    var records := SM.Number(input);
    AscendingIsStable(specs, records);
    var o := SortedOrder(LessThan(specs), records);
    assert Before(KeyLess(specs), input, o[i], o[j]);
    KeyCompareIsOrder(specs, input[o[i]], input[o[j]], input[o[i]]);
  }

  function At<T>(recs: seq<T>, order: seq<nat>): (r: seq<T>)
    requires Positions(order, |recs|)
    ensures |r| == |order| && forall i :: 0 <= i < |r| ==> r[i] == recs[order[i]]
  {
    seq(|order|, i requires 0 <= i < |order| => recs[order[i]])
  }

  lemma {:induction false} PermutationKeepsMultiset<T>(recs: seq<T>, order: seq<nat>)
    requires Positions(order, |recs|) && |order| == |recs| && (forall p :: 0 <= p < |recs| ==> p in order)
    requires forall i, j :: 0 <= i < j < |order| ==> order[i] != order[j]
    ensures multiset(At(recs, order)) == multiset(recs)
    decreases |recs|
  {
    hide At;
    if recs == [] {
      assert At(recs, order) == [];
    } else {
      var n := |recs| - 1;
      assert n in order;
      var k :| 0 <= k < |order| && order[k] == n;
      var rest := order[..k] + order[k + 1..];
      WithoutLast(order, n, k, rest);
      PermutationKeepsMultiset(recs[..n], rest);
      AtWithout(recs, order, n, k, rest);
      TakeOut(At(recs, order), k);
      TakeOut(recs, n);
      assert recs[..n] + recs[n + 1..] == recs[..n];
    }
  }

  lemma AtWithout<T>(recs: seq<T>, order: seq<nat>, n: nat, k: nat, rest: seq<nat>)
    requires |recs| == n + 1 && Positions(order, n + 1) && k < |order| && order[k] == n
    requires rest == order[..k] + order[k + 1..] && Positions(rest, n)
    ensures At(recs[..n], rest) == At(recs, order)[..k] + At(recs, order)[k + 1..] && At(recs, order)[k] == recs[n]
  {
    hide At;
  }

  lemma TakeOut<T>(s: seq<T>, k: nat)
    requires k < |s|
    ensures multiset(s) == multiset(s[..k] + s[k + 1..]) + multiset{s[k]}
  {
    assert s == s[..k] + [s[k]] + s[k + 1..];
  }

  lemma WithoutLast(order: seq<nat>, n: nat, k: nat, rest: seq<nat>)
    requires k < |order| == n + 1 && order[k] == n && rest == order[..k] + order[k + 1..]
    requires Positions(order, n + 1) && (forall p :: 0 <= p < n + 1 ==> p in order)
    requires forall i, j :: 0 <= i < j < |order| ==> order[i] != order[j]
    ensures Positions(rest, n) && (forall p :: 0 <= p < n ==> p in rest) && |rest| == n
    ensures forall i, j :: 0 <= i < j < |rest| ==> rest[i] != rest[j]
  {
    forall p | 0 <= p < n ensures p in rest {
      assert p in order;
      var i :| 0 <= i < |order| && order[i] == p;
      assert rest[if i < k then i else i - 1] == p;
    }
  }

  lemma SortedHasSameRecords(specs: seq<Spec>, input: seq<Fields>)
    ensures multiset(SortedData(LessThan(specs), SM.Number(input))) == multiset(input)
  {
    hide KeyCompare, SortedOrder;
    var records := SM.Number(input);
    var o := SortedOrder(LessThan(specs), records);
    AscendingIsStable(specs, records);
    KeyIsStrictWeak(specs);
    AscendingIsDistinct(KeyLess(specs), input, o);
    PermutationKeepsMultiset(input, o);
    var s := SortedData(LessThan(specs), records);
    assert s == At(input, o);
  }

  lemma SameRecordsCount(specs: seq<Spec>, input: seq<Fields>, s: seq<Fields>)
    requires multiset(s) == multiset(input) && AllKeyed(specs, input)
    ensures AllKeyed(specs, s) && forall i :: 0 <= i < |s| ==> CountOf(specs, input, Texts(specs, s[i])) > 0
  {
    hide CompareTexts, HasFields, HashableTexts, CountOf;
    forall i | 0 <= i < |s| ensures Keyed(specs, s[i]) && CountOf(specs, input, Texts(specs, s[i])) > 0 {
      assert s[i] in multiset(input);
      var k :| 0 <= k < |input| && input[k] == s[i];
      assert input == input[..k] + [s[i]] + input[k + 1..];
      CountConcat(specs, input[..k] + [s[i]], input[k + 1..], Texts(specs, s[i]));
      CountNext(specs, input[..k], s[i], Texts(specs, s[i]));
      CompareTextsIsOrder(Kinds(specs), Texts(specs, s[i]), Texts(specs, s[i]), Texts(specs, s[i]));
    }
  }

  /** The counts may be taken before or after sorting. */
  lemma {:induction false} WalkOfPermutation(specs: seq<Spec>, a: seq<Fields>, b: seq<Fields>, state: State,
      s: seq<Fields>)
    requires multiset(a) == multiset(b)
    ensures Walk(specs, a, state, s) == Walk(specs, b, state, s)
    decreases |s|
  {
    hide SameGroup, CountOf;
    if s != [] {
      CountOfPermutation(specs, a, b, Texts(specs, s[0]));
      var (state', write) := Step(specs, state, s[0], CountOf(specs, a, Texts(specs, s[0])));
      WalkOfPermutation(specs, a, b, state', s[1..]);
    }
  }

  /** A list that is sorted already stays as it is. */
  lemma SortKeeps(specs: seq<Spec>, input: seq<Fields>)
    requires |input| == 3 && KeyCompare(specs, input[0], input[1]) < 0 && KeyCompare(specs, input[1], input[2]) < 0
    ensures SortedData(LessThan(specs), SM.Number(input)) == input
  {
    hide SortedOrder, KeyCompare;
    var records, lt := SM.Number(input), LessThan(specs);
    OperatorsOrderRecords(specs);
    OperatorIsTotal(lt, KeyLess(specs), false);
    SortIsStable(lt, records);
    ThreeInOrder(lt, records);
    StableSortIsUnique(lt, records, [0, 1, 2], SortedOrder(lt, records), 3);
    AllTaken(lt, records);
  }

  lemma ThreeInOrder(lt: (Record<Fields>, Record<Fields>) -> bool, r: seq<Record<Fields>>)
    requires StrictWeakOrder(lt) && |r| == 3 && lt(r[0], r[1]) && lt(r[1], r[2])
    ensures IsStableSort(lt, r, [0, 1, 2])
  {
    var identity: seq<nat> := [0, 1, 2];
    assert identity[0] == 0 && identity[1] == 1 && identity[2] == 2;
    forall p | 0 <= p < 3 ensures p in identity {
      assert identity[p] == p;
    }
  }

  lemma AllTaken(lt: (Record<Fields>, Record<Fields>) -> bool, r: seq<Record<Fields>>)
    requires |r| == 3 && SortedOrder(lt, r)[..3] == [0, 1, 2][..3]
    ensures SortedData(lt, r) == DataOf(r)
  {
    hide SortedOrder;
    var o := SortedOrder(lt, r);
    assert o[..3] == o;
    assert o[0] == 0 && o[1] == 1 && o[2] == 2;
  }

  lemma CountThree(specs: seq<Spec>, a1: Fields, b: Fields, a2: Fields)
    requires SameGroup(specs, a1, a2) && !SameGroup(specs, a1, b)
    ensures CountOf(specs, [a1, b, a2], Texts(specs, a1)) == CountOf(specs, [a1, b, a2], Texts(specs, a2)) == 2
    ensures CountOf(specs, [a1, b, a2], Texts(specs, b)) == 1
  {
    hide CompareTexts, CountOf;
    SameGroupIsEquivalence(specs, a1, a2, b);
    SameGroupIsEquivalence(specs, a2, a1, b);
    SameGroupIsEquivalence(specs, b, a1, b);
    SameGroupIsEquivalence(specs, b, a2, b);
    CountOfThree(specs, a1, b, a2, Texts(specs, a1));
    CountOfThree(specs, a1, b, a2, Texts(specs, a2));
    CountOfThree(specs, a1, b, a2, Texts(specs, b));
  }

  lemma CountOfThree(specs: seq<Spec>, a1: Fields, b: Fields, a2: Fields, key: seq<string>)
    requires |key| == |specs|
    ensures CountOf(specs, [a1, b, a2], key)
         == (if CompareTexts(Kinds(specs), Texts(specs, a1), key) == 0 then 1 else 0)
          + (if CompareTexts(Kinds(specs), Texts(specs, b), key) == 0 then 1 else 0)
          + (if CompareTexts(Kinds(specs), Texts(specs, a2), key) == 0 then 1 else 0)
  {
    hide CompareTexts, CountOf;
    assert [] + [a1] == [a1] && [a1] + [b] == [a1, b] && [a1, b] + [a2] == [a1, b, a2];
    NoneCounted(specs, key);
    CountNext(specs, [], a1, key);
    CountNext(specs, [a1], b, key);
    CountNext(specs, [a1, b], a2, key);
  }

  lemma NoneCounted(specs: seq<Spec>, key: seq<string>)
    requires |key| == |specs|
    ensures CountOf(specs, [], key) == 0
  {
  }

  lemma WalkOne(specs: seq<Spec>, all: seq<Fields>, state: State, s: seq<Fields>)
    requires s != []
    ensures var (state', write) := Step(specs, state, s[0], CountOf(specs, all, Texts(specs, s[0])));
            Walk(specs, all, state, s) == (if write then [s[0]] else []) + Walk(specs, all, state', s[1..])
  {
  }

  lemma WalkNone(specs: seq<Spec>, all: seq<Fields>, state: State)
    ensures Walk(specs, all, state, []) == []
  {
  }
}
