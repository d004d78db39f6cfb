/** The table of np1/rel/detail/record_multihashmap.hpp: chains of lists of entries with equal keys. */
module HashTable {
  import opened Compare
  import opened CompareSpecs
  import opened Multimap

  type EqualList<V> = seq<Entry<V>>
  type Chain<V> = seq<EqualList<V>>
  type Table<V> = seq<Chain<V>>

  /** What decides where a key goes. */
  datatype Hashing = Hashing(specs: seq<Spec>, add: (char, int) -> int, init: int) {
    function Of(key: seq<string>): int
      requires |key| == |specs|
    {
      HashTexts(Kinds(specs), add, key, init)
    }

    function Key(r: Fields): (k: seq<string>)
      ensures |k| == |specs|
    {
      Texts(specs, r)
    }
  }

  function Flatten<T>(s: seq<seq<T>>): seq<T> {
    if s == [] then [] else s[0] + Flatten(s[1..])
  }

  /** The entries in the order for_each visits them. */
  function Pairs<V>(table: Table<V>): seq<Entry<V>> {
    Flatten(Flatten(table))
  }

  /** An entry that may be in chain `c`. */
  predicate Placed<V>(h: Hashing, e: Entry<V>, c: nat, size: nat)
    requires size > 0
  {
    HasFields(h.specs, e.r) && HashableTexts(Kinds(h.specs), h.Key(e.r)) && h.Of(h.Key(e.r)) % size == c
  }

  predicate ListOk<V>(h: Hashing, list: EqualList<V>, c: nat, size: nat)
    requires size > 0
  {
    && list != []
    && (forall i :: 0 <= i < |list| ==> Placed(h, list[i], c, size) && KeyIs(h.specs, list[i], h.Key(list[0].r)))
  }

  predicate ChainOk<V>(h: Hashing, chain: Chain<V>, c: nat, size: nat)
    requires size > 0
  {
    && (forall i :: 0 <= i < |chain| ==> ListOk(h, chain[i], c, size))
    && (forall i, j :: 0 <= i < j < |chain| ==> !KeyIs(h.specs, chain[j][0], h.Key(chain[i][0].r)))
  }

  predicate TableOk<V>(h: Hashing, table: Table<V>) {
    table != [] && forall c :: 0 <= c < |table| ==> ChainOk(h, table[c], c, |table|)
  }

  /** The list `find_equal_list` finds: the first whose front has the key, or none. */
  function Lookup<V>(h: Hashing, chain: Chain<V>, key: seq<string>): EqualList<V>
    requires |key| == |h.specs|
  {
    if chain == [] then []
    else if chain[0] != [] && KeyIs(h.specs, chain[0][0], key) then chain[0]
    else Lookup(h, chain[1..], key)
  }

  function LookupTable<V>(h: Hashing, table: Table<V>, key: seq<string>): EqualList<V>
    requires |key| == |h.specs| && table != []
  {
    Lookup(h, table[h.Of(key) % |table|], key)
  }

  lemma {:induction false} FlattenConcat<T>(a: seq<seq<T>>, b: seq<seq<T>>)
    ensures Flatten(a + b) == Flatten(a) + Flatten(b)
  {
    if a == [] {
      assert a + b == b;
    } else {
      FlattenConcat(a[1..], b);
      assert (a + b)[1..] == a[1..] + b && (a + b)[0] == a[0];
      assert a[0] + (Flatten(a[1..]) + Flatten(b)) == (a[0] + Flatten(a[1..])) + Flatten(b);
    }
  }

  /** Two entries of one list have equal keys, so a key fits all of a list or none of it. */
  lemma ListMatches<V>(h: Hashing, list: EqualList<V>, c: nat, size: nat, key: seq<string>)
    requires size > 0 && ListOk(h, list, c, size) && |key| == |h.specs|
    ensures Matching(h.specs, list, key) == if KeyIs(h.specs, list[0], key) then list else []
  {
    forall i | 0 <= i < |list| ensures KeyIs(h.specs, list[i], key) <==> KeyIs(h.specs, list[0], key) {
      hide CompareTexts, Placed;
      CompareTextsIsOrder(Kinds(h.specs), h.Key(list[i].r), h.Key(list[0].r), key);
      CompareTextsIsOrder(Kinds(h.specs), h.Key(list[0].r), h.Key(list[i].r), key);
    }
    if KeyIs(h.specs, list[0], key) {
      MatchingAll(h.specs, list, key);
    } else {
      MatchingNone(h.specs, list, key);
    }
  }

  /** Within a chain only one list can match. */
  lemma {:induction false} ChainMatches<V>(h: Hashing, chain: Chain<V>, c: nat, size: nat, key: seq<string>)
    requires size > 0 && ChainOk(h, chain, c, size) && |key| == |h.specs|
    ensures Matching(h.specs, Flatten(chain), key) == Lookup(h, chain, key)
  {
    hide KeyIs, ListOk, CompareTexts;
    if chain != [] {
      ChainTail(h, chain, c, size);
      ChainMatches(h, chain[1..], c, size, key);
      ListMatches(h, chain[0], c, size, key);
      MatchingConcat(h.specs, chain[0], Flatten(chain[1..]), key);
      if KeyIs(h.specs, chain[0][0], key) {
        NoOtherList(h, chain, c, size, key);
      }
    }
  }

  lemma ChainTail<V>(h: Hashing, chain: Chain<V>, c: nat, size: nat)
    requires size > 0 && ChainOk(h, chain, c, size) && chain != []
    ensures ChainOk(h, chain[1..], c, size) && ListOk(h, chain[0], c, size) && chain[0] != []
  {
    hide KeyIs, ListOk;
    assert ListOk(h, chain[0], c, size);
    NotEmpty(h, chain[0], c, size);
    forall i, j | 0 <= i < j < |chain[1..]| ensures chain[1..][j] != [] && chain[1..][i] != [] {
      NotEmpty(h, chain[i + 1], c, size);
      NotEmpty(h, chain[j + 1], c, size);
    }
  }

  lemma NotEmpty<V>(h: Hashing, list: EqualList<V>, c: nat, size: nat)
    requires size > 0 && ListOk(h, list, c, size)
    ensures list != []
  {
  }

  lemma NoOtherList<V>(h: Hashing, chain: Chain<V>, c: nat, size: nat, key: seq<string>)
    requires size > 0 && ChainOk(h, chain, c, size) && chain != [] && |key| == |h.specs|
    requires chain[0] != [] && KeyIs(h.specs, chain[0][0], key)
    ensures Lookup(h, chain[1..], key) == []
  {
    forall j | 1 <= j < |chain| ensures chain[j] != [] && !KeyIs(h.specs, chain[j][0], key) {
      hide CompareTexts;
      assert ListOk(h, chain[j], c, size);
      CompareTextsIsOrder(Kinds(h.specs), h.Key(chain[0][0].r), key, h.Key(chain[j][0].r));
      CompareTextsIsOrder(Kinds(h.specs), key, h.Key(chain[j][0].r), key);
      CompareTextsIsOrder(Kinds(h.specs), h.Key(chain[0][0].r), h.Key(chain[j][0].r), key);
    }
    LookupNone(h, chain[1..], key);
  }

  lemma {:induction false} LookupNone<V>(h: Hashing, chain: Chain<V>, key: seq<string>)
    requires |key| == |h.specs|
    requires forall j :: 0 <= j < |chain| ==> chain[j] == [] || !KeyIs(h.specs, chain[j][0], key)
    ensures Lookup(h, chain, key) == []
  {
    hide KeyIs;
    if chain != [] { LookupNone(h, chain[1..], key); }
  }

  /** A chain of another hash holds nothing that matches. */
  lemma OtherChain<V>(h: Hashing, chain: Chain<V>, c: nat, size: nat, key: seq<string>)
    requires size > 0 && ChainOk(h, chain, c, size) && |key| == |h.specs| && HashableTexts(Kinds(h.specs), key)
    requires h.Of(key) % size != c
    ensures Matching(h.specs, Flatten(chain), key) == []
  {
    ChainMatches(h, chain, c, size, key);
    forall j | 0 <= j < |chain| ensures chain[j] == [] || !KeyIs(h.specs, chain[j][0], key) {
      assert ListOk(h, chain[j], c, size);
      if KeyIs(h.specs, chain[j][0], key) {
        assert Placed(h, chain[j][0], c, size);
        EqualTextsHashAlike(Kinds(h.specs), h.add, h.Key(chain[j][0].r), key, h.init);
      }
    }
    LookupNone(h, chain, key);
  }

  /** Looking a key up in its chain finds exactly the entries in the whole table with an equal key. */
  lemma LookupIsMatching<V>(h: Hashing, table: Table<V>, key: seq<string>)
    requires TableOk(h, table) && |key| == |h.specs| && HashableTexts(Kinds(h.specs), key)
    ensures Matching(h.specs, Pairs(table), key) == LookupTable(h, table, key)
  {
    MatchingUpTo(h, table, key, |table|);
    assert table[..|table|] == table;
  }

  lemma {:induction false} MatchingUpTo<V>(h: Hashing, table: Table<V>, key: seq<string>, n: nat)
    requires TableOk(h, table) && |key| == |h.specs| && HashableTexts(Kinds(h.specs), key) && n <= |table|
    ensures Matching(h.specs, Flatten(Flatten(table[..n])), key)
         == if h.Of(key) % |table| < n then LookupTable(h, table, key) else []
  {
    hide KeyIs, ChainOk, HashableTexts, HashTexts, Flatten, LookupTable, Matching;
    if n == 0 {
      NothingMatches(h, table, key);
    } else {
      var c := n - 1;
      MatchingUpTo(h, table, key, c);
      FlattenUpTo(table, c);
      MatchingConcat(h.specs, Flatten(Flatten(table[..c])), Flatten(table[c]), key);
      assert ChainOk(h, table[c], c, |table|);
      if h.Of(key) % |table| == c {
        ChainMatches(h, table[c], c, |table|, key);
        LookupThere(h, table, key);
      } else {
        OtherChain(h, table[c], c, |table|, key);
      }
    }
  }

  lemma NothingMatches<V>(h: Hashing, table: Table<V>, key: seq<string>)
    requires |key| == |h.specs|
    ensures Matching(h.specs, Flatten(Flatten(table[..0])), key) == []
  {
  }

  lemma LookupThere<V>(h: Hashing, table: Table<V>, key: seq<string>)
    requires |key| == |h.specs| && table != []
    ensures LookupTable(h, table, key) == Lookup(h, table[h.Of(key) % |table|], key)
  {
  }

  lemma FlattenUpTo<V>(table: Table<V>, c: nat)
    requires c < |table|
    ensures Flatten(Flatten(table[..c + 1])) == Flatten(Flatten(table[..c])) + Flatten(table[c])
  {
    hide Flatten;
    assert table[..c + 1] == table[..c] + [table[c]];
    FlattenConcat(table[..c], [table[c]]);
    FlattenOne(table[c]);
    FlattenConcat(Flatten(table[..c]), table[c]);
  }

  /** Where the list for a key is in a chain. */
  predicate FoundAt<V>(h: Hashing, chain: Chain<V>, key: seq<string>, at: nat)
    requires |key| == |h.specs|
  {
    && at <= |chain|
    && (forall j :: 0 <= j < at ==> chain[j] == [] || !KeyIs(h.specs, chain[j][0], key))
    && (at < |chain| ==> chain[at] != [] && KeyIs(h.specs, chain[at][0], key))
  }

  lemma {:induction false} FoundIsLookup<V>(h: Hashing, chain: Chain<V>, key: seq<string>, at: nat)
    requires |key| == |h.specs| && FoundAt(h, chain, key, at)
    ensures Lookup(h, chain, key) == if at < |chain| then chain[at] else []
  {
    hide KeyIs;
    if at > 0 { FoundIsLookup(h, chain[1..], key, at - 1); }
  }

  /** The chain after an entry has been added to the list at `at`, or as a new list at the end. */
  function Added<V>(chain: Chain<V>, at: nat, e: Entry<V>): Chain<V>
    requires at <= |chain|
  {
    if at < |chain| then chain[at := chain[at] + [e]] else chain + [[e]]
  }

  lemma AddedOk<V>(h: Hashing, chain: Chain<V>, c: nat, size: nat, at: nat, e: Entry<V>)
    requires size > 0 && ChainOk(h, chain, c, size) && Placed(h, e, c, size) && FoundAt(h, chain, h.Key(e.r), at)
    ensures ChainOk(h, Added(chain, at, e), c, size)
  {
    CompareTextsIsOrder(Kinds(h.specs), h.Key(e.r), h.Key(e.r), h.Key(e.r));
    if at < |chain| {
      ListGrows(h, chain[at], c, size, e);
    } else {
      assert ListOk(h, [e], c, size) by { hide CompareTexts, Placed; }
      forall i | 0 <= i < |chain| ensures chain[i] != [] && !KeyIs(h.specs, e, h.Key(chain[i][0].r)) {
        assert ListOk(h, chain[i], c, size);
        hide CompareTexts;
        CompareTextsIsOrder(Kinds(h.specs), h.Key(chain[i][0].r), h.Key(e.r), h.Key(e.r));
      }
    }
  }

  lemma ListGrows<V>(h: Hashing, list: EqualList<V>, c: nat, size: nat, e: Entry<V>)
    requires size > 0 && ListOk(h, list, c, size) && Placed(h, e, c, size) && KeyIs(h.specs, list[0], h.Key(e.r))
    ensures ListOk(h, list + [e], c, size)
  {
    hide CompareTexts, Placed;
    CompareTextsIsOrder(Kinds(h.specs), h.Key(list[0].r), h.Key(e.r), h.Key(e.r));
  }

  /** Adding an entry to its chain adds it to what its key finds, leaves alone what other keys find, and
      visits it once more. */
  lemma AddToTable<V>(h: Hashing, table: Table<V>, at: nat, e: Entry<V>)
    requires TableOk(h, table) && HasFields(h.specs, e.r) && HashableTexts(Kinds(h.specs), h.Key(e.r))
    requires FoundAt(h, table[h.Of(h.Key(e.r)) % |table|], h.Key(e.r), at)
    ensures var c := h.Of(h.Key(e.r)) % |table|; var table' := table[c := Added(table[c], at, e)];
            TableOk(h, table') && SameMultimap(h.specs, Pairs(table'), Pairs(table) + [e])
  {
    hide KeyIs, ChainOk, HashableTexts, HashTexts, Added, Pairs, LookupTable, Matching, HasFields;
    var c := h.Of(h.Key(e.r)) % |table|;
    var chain' := Added(table[c], at, e);
    var table' := table[c := chain'];
    AddedOk(h, table[c], c, |table|, at, e);
    AddToPairs(h, table, c, at, e);
    forall key: seq<string> | |key| == |h.specs| && HashableTexts(Kinds(h.specs), key)
      ensures Matching(h.specs, Pairs(table'), key) == Matching(h.specs, Pairs(table) + [e], key)
    {
      LookupIsMatching(h, table, key);
      LookupIsMatching(h, table', key);
      MatchingConcat(h.specs, Pairs(table), [e], key);
      LookupAfterAdd(h, table, at, e, key);
      MatchingOne(h.specs, e, key);
    }
  }

  lemma AddToPairs<V>(h: Hashing, table: Table<V>, c: nat, at: nat, e: Entry<V>)
    requires c < |table| && FoundAt(h, table[c], h.Key(e.r), at)
    ensures multiset(Pairs(table[c := Added(table[c], at, e)])) == multiset(Pairs(table) + [e])
  {
    var chain, chain' := table[c], Added(table[c], at, e);
    var a, b := table[..c], table[c + 1..];
    SplitAt(table, c, chain');
    FlattenThree(a, chain, b);
    FlattenThree(a, chain', b);
    AddToChainPairs(chain, at, e);
  }

  lemma FlattenThree<V>(a: Table<V>, chain: Chain<V>, b: Table<V>)
    ensures Pairs(a + [chain] + b) == Pairs(a) + Flatten(chain) + Pairs(b)
  {
    FlattenConcat(a + [chain], b);
    FlattenConcat(a, [chain]);
    assert Flatten([chain]) == chain;
    FlattenConcat(Flatten(a) + chain, Flatten(b));
    FlattenConcat(Flatten(a), chain);
  }

  lemma AddToChainPairs<V>(chain: Chain<V>, at: nat, e: Entry<V>)
    requires at <= |chain|
    ensures multiset(Flatten(Added(chain, at, e))) == multiset(Flatten(chain)) + multiset{e}
  {
    if at < |chain| {
      var a, list, b := chain[..at], chain[at], chain[at + 1..];
      SplitAt(chain, at, list + [e]);
      FlattenConcat(a + [list], b);
      FlattenConcat(a, [list]);
      FlattenConcat(a + [list + [e]], b);
      FlattenConcat(a, [list + [e]]);
      FlattenOne(list);
      FlattenOne(list + [e]);
      OneMore(Flatten(a), list, Flatten(b), e);
    } else {
      FlattenConcat(chain, [[e]]);
      FlattenOne([e]);
    }
  }

  lemma SplitAt<T>(s: seq<T>, i: nat, x: T)
    requires i < |s|
    ensures s == s[..i] + [s[i]] + s[i + 1..] && s[i := x] == s[..i] + [x] + s[i + 1..]
  {
  }

  lemma FlattenOne<T>(s: seq<T>)
    ensures Flatten([s]) == s
  {
    assert [s][1..] == [];
  }

  lemma OneMore<T>(a: seq<T>, list: seq<T>, b: seq<T>, e: T)
    ensures multiset(a + (list + [e]) + b) == multiset(a + list + b) + multiset{e}
  {
  }

  lemma LookupAfterAdd<V>(h: Hashing, table: Table<V>, at: nat, e: Entry<V>, key: seq<string>)
    requires TableOk(h, table) && HasFields(h.specs, e.r) && HashableTexts(Kinds(h.specs), h.Key(e.r))
    requires |key| == |h.specs| && HashableTexts(Kinds(h.specs), key)
    requires FoundAt(h, table[h.Of(h.Key(e.r)) % |table|], h.Key(e.r), at)
    ensures var c := h.Of(h.Key(e.r)) % |table|; var table' := table[c := Added(table[c], at, e)];
            LookupTable(h, table', key) == LookupTable(h, table, key) + if KeyIs(h.specs, e, key) then [e] else []
  {
    var c := h.Of(h.Key(e.r)) % |table|;
    var chain, chain' := table[c], Added(table[c], at, e);
    if h.Of(key) % |table| == c {
      assert ChainOk(h, chain, c, |table|);
      LookupInChain(h, chain, c, |table|, at, e, key);
    } else if KeyIs(h.specs, e, key) {
      EqualTextsHashAlike(Kinds(h.specs), h.add, h.Key(e.r), key, h.init);
    }
  }

  lemma LookupInChain<V>(h: Hashing, chain: Chain<V>, c: nat, size: nat, at: nat, e: Entry<V>, key: seq<string>)
    requires size > 0 && ChainOk(h, chain, c, size) && Placed(h, e, c, size) && |key| == |h.specs|
    requires FoundAt(h, chain, h.Key(e.r), at)
    ensures Lookup(h, Added(chain, at, e), key) == Lookup(h, chain, key) + if KeyIs(h.specs, e, key) then [e] else []
  {
    hide KeyIs, ListOk, Placed, Lookup, Added, ChainOk;
    AddedOk(h, chain, c, size, at, e);
    var k := FindAt(h, chain, key);
    var k' := FindAt(h, Added(chain, at, e), key);
    FoundIsLookup(h, chain, key, k);
    FoundIsLookup(h, Added(chain, at, e), key, k');
    PlaceInChain(h, chain, c, size, at, e, key, k, k');
  }

  lemma {:induction false} FindAt<V>(h: Hashing, chain: Chain<V>, key: seq<string>) returns (at: nat)
    requires |key| == |h.specs|
    ensures FoundAt(h, chain, key, at)
  {
    hide KeyIs;
    at := 0;
    while at < |chain| && (chain[at] == [] || !KeyIs(h.specs, chain[at][0], key))
      invariant at <= |chain| && forall j :: 0 <= j < at ==> chain[j] == [] || !KeyIs(h.specs, chain[j][0], key)
    {
      at := at + 1;
    }
  }

  lemma PlaceInChain<V>(h: Hashing, chain: Chain<V>, c: nat, size: nat, at: nat, e: Entry<V>, key: seq<string>, k: nat,
      k': nat)
    requires size > 0 && ChainOk(h, chain, c, size) && |key| == |h.specs|
    requires FoundAt(h, chain, h.Key(e.r), at) && FoundAt(h, chain, key, k) && FoundAt(h, Added(chain, at, e), key, k')
    ensures (if k' < |Added(chain, at, e)| then Added(chain, at, e)[k'] else [])
         == (if k < |chain| then chain[k] else []) + if KeyIs(h.specs, e, key) then [e] else []
  {
    hide KeyIs, ListOk;
    SameFronts(h, chain, c, size, at, e);
    if KeyIs(h.specs, e, key) {
      forall i | 0 <= i < |chain| ensures KeyIs(h.specs, chain[i][0], key)
        <==> KeyIs(h.specs, chain[i][0], h.Key(e.r)) {
        KeysTransfer(h, chain[i][0], e, key);
      }
      assert k == at == k';
    } else {
      if at < |chain| { KeysTransfer(h, chain[at][0], e, key); }
      assert k < |chain| ==> k != at && k' == k;
    }
  }

  lemma SameFronts<V>(h: Hashing, chain: Chain<V>, c: nat, size: nat, at: nat, e: Entry<V>)
    requires size > 0 && ChainOk(h, chain, c, size) && at <= |chain|
    ensures forall i :: 0 <= i < |chain| ==>
        chain[i] != [] && Added(chain, at, e)[i] != [] && Added(chain, at, e)[i][0] == chain[i][0]
  {
    hide KeyIs;
    forall i | 0 <= i < |chain| ensures chain[i] != [] {
      NotEmpty(h, chain[i], c, size);
    }
  }

  /** An entry fits a key exactly when it fits an entry that does. */
  lemma KeysTransfer<V>(h: Hashing, x: Entry<V>, e: Entry<V>, key: seq<string>)
    requires |key| == |h.specs|
    ensures KeyIs(h.specs, e, key) ==> (KeyIs(h.specs, x, key) <==> KeyIs(h.specs, x, h.Key(e.r)))
    ensures !KeyIs(h.specs, e, key) && KeyIs(h.specs, x, h.Key(e.r)) ==> !KeyIs(h.specs, x, key)
  {
    hide CompareTexts;
    var kinds := Kinds(h.specs);
    CompareTextsIsOrder(kinds, h.Key(x.r), h.Key(e.r), key);
    CompareTextsIsOrder(kinds, h.Key(x.r), key, h.Key(e.r));
    CompareTextsIsOrder(kinds, key, h.Key(e.r), key);
    CompareTextsIsOrder(kinds, h.Key(e.r), h.Key(x.r), key);
    CompareTextsIsOrder(kinds, h.Key(x.r), h.Key(e.r), h.Key(x.r));
  }

  /** The list after the value of its first entry has been replaced. */
  function SetFront<V>(list: EqualList<V>, v: V): (r: EqualList<V>)
    ensures |r| == |list|
  {
    if list == [] then [] else [Entry(list[0].r, v)] + list[1..]
  }

  lemma SetFrontOk<V>(h: Hashing, list: EqualList<V>, c: nat, size: nat, v: V)
    requires size > 0 && ListOk(h, list, c, size)
    ensures ListOk(h, SetFront(list, v), c, size)
  {
    hide CompareTexts, HasFields, HashableTexts;
    var list' := SetFront(list, v);
    forall i | 0 <= i < |list'| ensures Placed(h, list'[i], c, size) && KeyIs(h.specs, list'[i], h.Key(list'[0].r)) {
      assert Placed(h, list[i], c, size) && KeyIs(h.specs, list[i], h.Key(list[0].r));
    }
  }

  lemma SetFrontInChain<V>(h: Hashing, chain: Chain<V>, c: nat, size: nat, at: nat, v: V)
    requires size > 0 && ChainOk(h, chain, c, size) && at < |chain|
    ensures ChainOk(h, chain[at := SetFront(chain[at], v)], c, size)
    ensures forall i :: 0 <= i < |chain| ==> chain[i] != []
  {
    hide CompareTexts, ListOk;
    SetFrontOk(h, chain[at], c, size, v);
    forall i | 0 <= i < |chain| ensures chain[i] != [] {
      NotEmpty(h, chain[i], c, size);
    }
  }

  /** Replacing the value of the first entry for a key changes what its key finds, and nothing else. */
  lemma SetFrontInTable<V>(h: Hashing, table: Table<V>, at: nat, key: seq<string>, v: V)
    requires TableOk(h, table) && |key| == |h.specs| && HashableTexts(Kinds(h.specs), key)
    requires FoundAt(h, table[h.Of(key) % |table|], key, at) && at < |table[h.Of(key) % |table|]|
    ensures var c := h.Of(key) % |table|; var table' := table[c := table[c][at := SetFront(table[c][at], v)]];
            && TableOk(h, table')
            && forall k: seq<string> :: |k| == |h.specs| && HashableTexts(Kinds(h.specs), k) ==>
                 Matching(h.specs, Pairs(table'), k)
                 == if CompareTexts(Kinds(h.specs), key, k) == 0 then SetFront(Matching(h.specs, Pairs(table), k), v)
                    else Matching(h.specs, Pairs(table), k)
  {
    hide KeyIs, ChainOk, HashableTexts, HashTexts, FoundAt, Pairs, LookupTable, Matching, CompareTexts, SetFront;
    var c := h.Of(key) % |table|;
    var table' := table[c := table[c][at := SetFront(table[c][at], v)]];
    SetFrontInChain(h, table[c], c, |table|, at, v);
    forall k: seq<string> | |k| == |h.specs| && HashableTexts(Kinds(h.specs), k)
      ensures Matching(h.specs, Pairs(table'), k)
           == if CompareTexts(Kinds(h.specs), key, k) == 0 then SetFront(Matching(h.specs, Pairs(table), k), v)
              else Matching(h.specs, Pairs(table), k)
    {
      LookupIsMatching(h, table, k);
      LookupIsMatching(h, table', k);
      LookupAfterSet(h, table, at, key, v, k);
    }
  }

  lemma LookupAfterSet<V>(h: Hashing, table: Table<V>, at: nat, key: seq<string>, v: V, k: seq<string>)
    requires TableOk(h, table) && |key| == |k| == |h.specs| && HashableTexts(Kinds(h.specs), key)
    requires HashableTexts(Kinds(h.specs), k)
    requires FoundAt(h, table[h.Of(key) % |table|], key, at) && at < |table[h.Of(key) % |table|]|
    ensures var c := h.Of(key) % |table|; var table' := table[c := table[c][at := SetFront(table[c][at], v)]];
            LookupTable(h, table', k) == if CompareTexts(Kinds(h.specs), key, k) == 0
              then SetFront(LookupTable(h, table, k), v)
                                         else LookupTable(h, table, k)
  {
    hide KeyIs, ChainOk, HashTexts, CompareTexts, SetFront, Lookup, FoundAt;
    var c := h.Of(key) % |table|;
    assert ChainOk(h, table[c], c, |table|);
    if h.Of(k) % |table| == c {
      LookupInSetChain(h, table[c], c, |table|, at, key, v, k);
    } else if CompareTexts(Kinds(h.specs), key, k) == 0 {
      EqualTextsHashAlike(Kinds(h.specs), h.add, key, k, h.init);
    }
  }

  lemma LookupInSetChain<V>(h: Hashing, chain: Chain<V>, c: nat, size: nat, at: nat, key: seq<string>, v: V,
      k: seq<string>)
    requires size > 0 && ChainOk(h, chain, c, size) && |key| == |k| == |h.specs|
    requires FoundAt(h, chain, key, at) && at < |chain|
    ensures Lookup(h, chain[at := SetFront(chain[at], v)], k)
         == if CompareTexts(Kinds(h.specs), key, k) == 0 then SetFront(Lookup(h, chain, k), v) else Lookup(h, chain, k)
  {
    hide Lookup, ChainOk, CompareTexts;
    var chain' := chain[at := SetFront(chain[at], v)];
    SetFrontInChain(h, chain, c, size, at, v);
    var n := FindAt(h, chain, k);
    forall i | 0 <= i < |chain| ensures KeyIs(h.specs, chain'[i][0], k) <==> KeyIs(h.specs, chain[i][0], k) {
    }
    assert FoundAt(h, chain', k, n);
    FoundIsLookup(h, chain, k, n);
    FoundIsLookup(h, chain', k, n);
    var kinds := Kinds(h.specs);
    forall i | 0 <= i < |chain|
      ensures CompareTexts(kinds, key, k) == 0 ==> (KeyIs(h.specs, chain[i][0], k)
          <==> KeyIs(h.specs, chain[i][0], key))
      ensures KeyIs(h.specs, chain[i][0], k) && KeyIs(h.specs, chain[i][0], key) ==> CompareTexts(kinds, key, k) == 0
    {
      var t := h.Key(chain[i][0].r);
      CompareTextsIsOrder(kinds, t, key, k);
      CompareTextsIsOrder(kinds, t, k, key);
      CompareTextsIsOrder(kinds, key, t, k);
      CompareTextsIsOrder(kinds, key, k, key);
    }
  }
}
