/** np1/rel/unique.hpp. */
module Unique {
  import opened Wrappers
  import opened Compare
  import opened CompareSpecs
  import opened Multimap
  import opened HashTable
  import opened Joins
  import opened ColumnOrder
  import opened JoinedRows
  import RM = RecordMultiHashMap

  /** Some record of `seen` compares equal to `r` in every column. */
  predicate Seen(specs: seq<Spec>, seen: seq<Fields>, r: Fields) {
    exists i :: 0 <= i < |seen| && CompareTexts(Kinds(specs), Texts(specs, seen[i]), Texts(specs, r)) == 0
  }

  /** The records that no earlier record compares equal to, in input order. */
  function FirstOccurrences(specs: seq<Spec>, input: seq<Fields>): seq<Fields> {
    if input == [] then []
    else
      var n := |input| - 1;
      FirstOccurrences(specs, input[..n]) + if Seen(specs, input[..n], input[n]) then [] else [input[n]]
  }

  /** The map holds a record equal to `r` exactly when the input so far did. */
  lemma {:induction false} FirstOccurrencesCover(specs: seq<Spec>, input: seq<Fields>, r: Fields)
    ensures Seen(specs, FirstOccurrences(specs, input), r) <==> Seen(specs, input, r)
  {
    hide Seen, Same;
    if input != [] {
      var n := |input| - 1;
      var last := input[n];
      FirstOccurrencesCover(specs, input[..n], r);
      assert input == input[..n] + [last];
      SeenConcat(specs, input[..n], last, r);
      var first := FirstOccurrences(specs, input[..n]);
      SeenConcat(specs, first, last, r);
      assert first + [] == first;
      if Seen(specs, input[..n], last) && Same(specs, last, r) {
        SeenTransfers(specs, input[..n], last, r);
      }
    }
  }

  predicate Same(specs: seq<Spec>, a: Fields, b: Fields) {
    CompareTexts(Kinds(specs), Texts(specs, a), Texts(specs, b)) == 0
  }

  lemma SeenConcat(specs: seq<Spec>, seen: seq<Fields>, last: Fields, r: Fields)
    ensures Seen(specs, seen + [last], r) <==> Seen(specs, seen, r) || Same(specs, last, r)
  {
    hide CompareTexts;
    var all := seen + [last];
    if Seen(specs, seen, r) {
      var i :| 0 <= i < |seen| && CompareTexts(Kinds(specs), Texts(specs, seen[i]), Texts(specs, r)) == 0;
      assert CompareTexts(Kinds(specs), Texts(specs, all[i]), Texts(specs, r)) == 0;
    }
    if Same(specs, last, r) {
      assert all[|seen|] == last;
    }
  }

  lemma SeenTransfers(specs: seq<Spec>, seen: seq<Fields>, last: Fields, r: Fields)
    requires Seen(specs, seen, last) && Same(specs, last, r)
    ensures Seen(specs, seen, r)
  {
    hide CompareTexts;
    var i :| 0 <= i < |seen| && CompareTexts(Kinds(specs), Texts(specs, seen[i]), Texts(specs, last)) == 0;
    CompareTextsIsOrder(Kinds(specs), Texts(specs, seen[i]), Texts(specs, last), Texts(specs, r));
  }

  lemma {:induction false} MatchingIsSeen(specs: seq<Spec>, seen: seq<Fields>, r: Fields)
    ensures Matching(specs, Entries(seen), Texts(specs, r)) == [] <==> !Seen(specs, seen, r)
  {
    hide CompareTexts;
    if seen != [] {
      var n := |seen| - 1;
      MatchingIsSeen(specs, seen[..n], r);
      assert Entries(seen) == Entries(seen[..n]) + [Entry(seen[n], ())];
      MatchingConcat(specs, Entries(seen[..n]), [Entry(seen[n], ())], Texts(specs, r));
      MatchingOne(specs, Entry(seen[n], ()), Texts(specs, r));
      assert seen == seen[..n] + [seen[n]];
      SeenConcat(specs, seen[..n], seen[n], r);
    }
  }

  /** The output is the records at some places of the input, in order: those that no earlier record equals in every
      column. */
  ghost predicate AreFirst(specs: seq<Spec>, input: seq<Fields>, output: seq<Fields>) {
    exists places: seq<nat> :: Ascending(places) && |output| == |places|
      && (forall k :: 0 <= k < |places| ==> places[k] < |input| && output[k] == input[places[k]])
      && forall x: nat :: x in places <==> x < |input| && IsNew(specs, input, x)
  }

  predicate IsNew(specs: seq<Spec>, input: seq<Fields>, x: nat)
    requires x < |input|
  {
    forall y :: 0 <= y < x ==> !EqualColumns(specs, input[y], input[x])
  }

  lemma {:induction false} FirstPlaces(specs: seq<Spec>, input: seq<Fields>, n: nat) returns (places: seq<nat>)
    requires n <= |input|
    ensures var output := FirstOccurrences(specs, input[..n]);
      |output| == |places| && forall k :: 0 <= k < |places| ==> places[k] < n && output[k] == input[places[k]]
    ensures Ascending(places) && forall x: nat :: x in places <==> x < n && IsNew(specs, input, x)
  {
    hide EqualColumns, Seen;
    if n == 0 {
      places := [];
    } else {
      var before := FirstPlaces(specs, input, n - 1);
      assert input[..n][..n - 1] == input[..n - 1] && input[..n][n - 1] == input[n - 1];
      SeenIsNotNew(specs, input, n - 1);
      assert forall k :: 0 <= k < |before| ==> before[k] in before;
      places := before + if IsNew(specs, input, n - 1) then [n - 1] else [];
    }
  }

  lemma SeenIsNotNew(specs: seq<Spec>, input: seq<Fields>, x: nat)
    requires x < |input|
    ensures Seen(specs, input[..x], input[x]) <==> !IsNew(specs, input, x)
  {
    hide CompareTexts, EqualColumns;
    forall y | 0 <= y < x
      ensures CompareTexts(Kinds(specs), Texts(specs, input[..x][y]), Texts(specs, input[x])) == 0
          <==> EqualColumns(specs, input[y], input[x])
    {
      EqualKeyByColumns(specs, input[y], input[x]);
    }
  }

  lemma FirstOccurrencesAreFirst(specs: seq<Spec>, input: seq<Fields>)
    ensures AreFirst(specs, input, FirstOccurrences(specs, input))
  {
    hide FirstOccurrences, IsNew;
    var places := FirstPlaces(specs, input, |input|);
    assert input[..|input|] == input;
  }

  /** Exactly the first occurrences are emitted, in input order. */
  method Unique(specs: seq<Spec>, add: (char, int) -> int, init: int, memory: RM.Memory, input: seq<Fields>)
    returns (output: Option<seq<Fields>>)
    requires AllHashable(specs, input)
    ensures output.Some? ==> output.value == FirstOccurrences(specs, input) && AllCheck(specs, input)
    ensures output.Some? ==> AreFirst(specs, input, output.value)
    ensures memory.ample && AllCheck(specs, input) ==> output.Some?
  {
    hide AreFirst, CompareTexts, HashableTexts, HasFields, RM.RecordMultiHashMap.Valid, Matching, Seen;
    var uniqueMap := new RM.RecordMultiHashMap<()>(Hashing(specs, add, init), memory, RM.INITIAL_HASH_TABLE_SIZE);
    if uniqueMap.table == [] { return None; }
    var out: seq<Fields> := [];
    var i := 0;
    assert input[..0] == [] && Entries([]) == [];
    while i < |input|
      invariant 0 <= i <= |input| && uniqueMap.Valid() && out == FirstOccurrences(specs, input[..i])
      invariant uniqueMap.inserted == Entries(out)
      invariant forall k :: 0 <= k < i ==> CheckFields(specs, input[k])
    {
      if !CheckFields(specs, input[i]) { return None; }
      var list := uniqueMap.Find(input[i], specs);
      MatchingIsSeen(specs, out, input[i]);
      FirstOccurrencesCover(specs, input[..i], input[i]);
      assert input[..i + 1][..i] == input[..i] && input[..i + 1][i] == input[i];
      if |list| == 0 {
        var ok := uniqueMap.Insert(input[i], ());
        if !ok { return None; }
        assert Entries(out + [input[i]]) == Entries(out) + [Entry(input[i], ())];
        out := out + [input[i]];
      }
      i := i + 1;
    }
    assert input[..i] == input;
    FirstOccurrencesAreFirst(specs, input);
    output := Some(out);
  }
}
