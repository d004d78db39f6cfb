/** np1/rel/detail/record_multihashmap.hpp. */
module RecordMultiHashMap {
  import opened Compare
  import opened CompareSpecs
  import opened Multimap
  import opened HashTable
  import opened Wrappers

  const INITIAL_APPROX_MAX_CHAIN_SIZE: nat := 20
  const INITIAL_HASH_TABLE_SIZE: nat := 65536

  /** The greatest table size the environment allows, and whether every request for memory is granted. When it
      is not, any request may fail at any time. */
  datatype Memory = Memory(maxTableSize: nat, ample: bool)

  datatype SearchCapacityResult = Fail | Success | SuccessWithRetry

  /** `vector::search_capacity`: try ever smaller capacities until an allocation succeeds. */
  method SearchCapacity(capacityHint: nat, minCapacity: nat, memory: Memory) returns (result: SearchCapacityResult,
      capacity: nat)
    ensures memory.ample ==> result.Success?
    ensures !result.Fail? ==> minCapacity <= capacity <= (if capacityHint < minCapacity then minCapacity
        else capacityHint)
    ensures result.Success? ==> capacity == if capacityHint < minCapacity then minCapacity else capacityHint
    ensures result.Fail? ==> capacity == 0
  {
    capacity := if capacityHint < minCapacity then minCapacity else capacityHint;
    result := Success;
    var got: bool :| memory.ample ==> got;
    while !got
      invariant memory.ample ==> got && result.Success?
      invariant minCapacity <= capacity <= (if capacityHint < minCapacity then minCapacity else capacityHint)
      invariant result.Success? ==> capacity == if capacityHint < minCapacity then minCapacity else capacityHint
      invariant !result.Fail?
      decreases capacity, !got
    {
      if capacity > minCapacity + 2 {
        capacity := capacity - (capacity - minCapacity) / 2;
      } else if capacity <= minCapacity {
        return Fail, 0;
      } else {
        capacity := minCapacity;
      }
      result := SuccessWithRetry;
      got :| memory.ample ==> got;
    }
  }

  class RecordMultiHashMap<V> {
    const hashing: Hashing
    const memory: Memory
    var table: Table<V>
    var approxMaxChainSize: nat
    /** Everything inserted, in order. */
    ghost var inserted: seq<Entry<V>>

    ghost predicate Valid()
      reads this
    {
      table != [] && TableOk(hashing, table) && SameMultimap(hashing.specs, Pairs(table), inserted)
    }

    /** `ok` is false where the source aborts: the initial table could not be allocated at once. */
    constructor (hashing: Hashing, memory: Memory, initialSizeHint: nat)
      ensures table != [] ==> Valid()
      ensures memory.ample ==> table != []
      ensures this.hashing == hashing && this.memory == memory && inserted == []
    {
      this.hashing, this.memory := hashing, memory;
      table, approxMaxChainSize, inserted := [], INITIAL_APPROX_MAX_CHAIN_SIZE, [];
      new;
      var result := TryInit(if initialSizeHint > memory.maxTableSize then memory.maxTableSize else initialSizeHint, 0);
      if !result.Success? {
        table := [];
      }
    }

    /** `try_init`: an empty table larger than the old one. */
    method TryInit(initialSizeHint: nat, oldMapSize: nat) returns (result: SearchCapacityResult)
      requires inserted == []
      modifies this`table
      ensures memory.ample ==> result.Success?
      ensures result.Fail? ==> table == []
      ensures !result.Fail? ==> Valid() && oldMapSize < |table|
      ensures !result.Fail? ==> |table| <= if initialSizeHint <= oldMapSize then oldMapSize + 1 else initialSizeHint
    {
      var hint := if initialSizeHint <= 0 then 1 else initialSizeHint;
      var capacity;
      result, capacity := SearchCapacity(hint, oldMapSize + 1, memory);
      table := seq(capacity, _ => []);
      if capacity > 0 { EmptyTable(hashing, table); }
    }

    /** The position of the list for a key in its chain, or the end of the chain. */
    method FindEqualList(r: Fields, specs: seq<Spec>, chain: Chain<V>, ghost c: nat, ghost size: nat) returns (at: nat)
      requires Kinds(specs) == Kinds(hashing.specs) && |specs| == |hashing.specs| && HasFields(specs, r)
      requires size > 0 && ChainOk(hashing, chain, c, size)
      ensures FoundAt(hashing, chain, Texts(specs, r), at)
    {
      hide KeyIs, CompareTexts;
      at := 0;
      while at < |chain|
        invariant at <= |chain|
        invariant forall j :: 0 <= j < at ==> chain[j] == [] || !KeyIs(hashing.specs, chain[j][0], Texts(specs, r))
      {
        FrontHasFields(hashing, chain, c, size, at);
        var result := HeteroRecordCompare(chain[at][0].r, hashing.specs, r, specs);
        CompareIsKeyIs(hashing.specs, chain[at][0], Texts(specs, r));
        if result == 0 { return; }
        at := at + 1;
      }
    }

    /** `find`: the entries whose key compares equal to that of `r`, in the order they were inserted. */
    method Find(r: Fields, specs: seq<Spec>) returns (list: EqualList<V>)
      requires Valid() && Kinds(specs) == Kinds(hashing.specs) && |specs| == |hashing.specs|
      requires HasFields(specs, r) && HashableTexts(Kinds(specs), Texts(specs, r))
      ensures list == Matching(hashing.specs, inserted, Texts(specs, r))
    {
      var hval := HashRecord(specs, hashing.add, hashing.init, r);
      var c := hval % |table|;
      var at := FindEqualList(r, specs, table[c], c, |table|);
      list := if at < |table[c]| then table[c][at] else [];
      FoundIsLookup(hashing, table[c], Texts(specs, r), at);
      LookupIsMatching(hashing, table, Texts(specs, r));
    }

    /** `find(r)->front().second = v`, where there is an entry for the key. */
    method UpdateFront(r: Fields, v: V)
      requires Valid() && HasFields(hashing.specs, r) && HashableTexts(Kinds(hashing.specs), hashing.Key(r))
      requires Matching(hashing.specs, inserted, hashing.Key(r)) != []
      modifies this`table, this`inserted
      ensures Valid()
      ensures forall key: seq<string> :: |key| == |hashing.specs| && HashableTexts(Kinds(hashing.specs), key) ==>
                Matching(hashing.specs, inserted, key)
                == if CompareTexts(Kinds(hashing.specs), hashing.Key(r), key) == 0
                   then SetFront(Matching(hashing.specs, old(inserted), key), v)
                   else Matching(hashing.specs, old(inserted), key)
    {
      hide TableOk, HashableTexts, HasFields, CompareTexts, Matching, Pairs, FoundAt, SetFront, Lookup;
      var hval := HashRecord(hashing.specs, hashing.add, hashing.init, r);
      var c := hval % |table|;
      TableChainOk(hashing, table, c);
      var at := FindEqualList(r, hashing.specs, table[c], c, |table|);
      FoundIsLookup(hashing, table[c], hashing.Key(r), at);
      LookupIsMatching(hashing, table, hashing.Key(r));
      FoundInRange(hashing, table[c], hashing.Key(r), at);
      SetFrontInTable(hashing, table, at, hashing.Key(r), v);
      table := table[c := table[c][at := SetFront(table[c][at], v)]];
      inserted := Pairs(table);
    }

    /** `for_each`: the entries in the order they are visited. */
    method ForEach() returns (visited: seq<Entry<V>>)
      requires Valid()
      ensures visited == Pairs(table) && SameMultimap(hashing.specs, visited, inserted)
    {
      hide TableOk, SameMultimap, Pairs;
      visited := [];
      NoPairs(table);
      var c := 0;
      while c < |table|
        invariant 0 <= c <= |table| && visited == Pairs(table[..c])
      {
        visited := VisitChain(table[c], visited);
        PairsNext(table, c);
        c := c + 1;
      }
      assert table[..c] == table;
    }

    static method VisitChain(chain: Chain<V>, before: seq<Entry<V>>) returns (visited: seq<Entry<V>>)
      ensures visited == before + Flatten(chain)
    {
      visited := before;
      var i := 0;
      while i < |chain|
        invariant 0 <= i <= |chain| && visited == before + Flatten(chain[..i])
      {
        visited := VisitList(chain[i], visited);
        FlattenNext(chain, i);
        i := i + 1;
      }
      assert chain[..i] == chain;
    }

    /** `for_each` over one list. */
    static method VisitList(list: EqualList<V>, before: seq<Entry<V>>) returns (visited: seq<Entry<V>>)
      ensures visited == before + list
    {
      visited := before;
      var k := 0;
      while k < |list|
        invariant 0 <= k <= |list| && visited == before + list[..k]
      {
        visited := visited + [list[k]];
        k := k + 1;
      }
      assert list[..k] == list;
    }

    /** Add an entry to its list, or as a new list at the end of its chain. */
    method AddEntry(r: Fields, v: V) returns (chainSize: nat)
      requires Valid() && HasFields(hashing.specs, r) && HashableTexts(Kinds(hashing.specs), hashing.Key(r))
      modifies this`table, this`inserted
      ensures Valid() && inserted == old(inserted) + [Entry(r, v)] && |table| == |old(table)|
    {
      hide TableOk, SameMultimap, Pairs, Added, HasFields, HashableTexts, FoundAt;
      var e := Entry(r, v);
      var hval := HashRecord(hashing.specs, hashing.add, hashing.init, r);
      var c := hval % |table|;
      TableChainOk(hashing, table, c);
      var at := FindEqualList(r, hashing.specs, table[c], c, |table|);
      FoundInRange(hashing, table[c], hashing.Key(r), at);
      AddToTable(hashing, table, at, e);
      SameAfterInsert(hashing.specs, Pairs(table), inserted, e, Pairs(table[c := Added(table[c], at, e)]));
      table := table[c := Added(table[c], at, e)];
      inserted := inserted + [e];
      chainSize := |table[c]|;
    }

    /** `insert`. `ok` is false when an allocation the source cannot do without failed. */
    method Insert(r: Fields, v: V) returns (ok: bool)
      requires Valid() && HasFields(hashing.specs, r) && HashableTexts(Kinds(hashing.specs), hashing.Key(r))
      modifies this
      ensures memory.ample ==> ok
      ensures ok ==> Valid() && inserted == old(inserted) + [Entry(r, v)]
      ensures ok ==> |table| >= |old(table)| && (|table| > |old(table)| ==> |table| <= memory.maxTableSize)
      decreases if |table| < memory.maxTableSize then memory.maxTableSize - |table| else 0, 2
    {
      ok := true;
      var chainSize := AddEntry(r, v);
      if chainSize > approxMaxChainSize {
        if |table| >= memory.maxTableSize {
          approxMaxChainSize := approxMaxChainSize + 1;
        } else {
          ok := Grow();
        }
      }
    }

    /** Move everything into a larger table, if one can be had. */
    method Grow() returns (ok: bool)
      requires Valid() && |table| < memory.maxTableSize
      modifies this
      ensures memory.ample ==> ok
      ensures ok ==> Valid() && inserted == old(inserted)
      ensures ok ==> |old(table)| <= |table| <= memory.maxTableSize
      decreases memory.maxTableSize - |table|, 1
    {
      var desired := |table| * 2;
      if desired > memory.maxTableSize { desired := memory.maxTableSize; }
      var newMap := new RecordMultiHashMap(hashing, memory, INITIAL_HASH_TABLE_SIZE);
      if newMap.table == [] { return false; }
      var result := newMap.TryInit(desired, |table|);
      if !result.Fail? {
        ok := CopyTo(newMap);
        if !ok { return; }
        table := newMap.table;
      }
      if !result.Success? {
        approxMaxChainSize := approxMaxChainSize + 1;
      }
      ok := true;
    }

    method CopyTo(newMap: RecordMultiHashMap<V>) returns (ok: bool)
      requires Valid() && newMap != this && newMap.Valid() && newMap.inserted == [] && newMap.hashing == hashing
      requires newMap.memory == memory && |table| < |newMap.table| <= memory.maxTableSize
      modifies newMap
      ensures memory.ample ==> ok
      ensures ok ==> newMap.Valid() && newMap.inserted == Pairs(table)
      ensures ok ==> |table| < |newMap.table| <= memory.maxTableSize
      decreases memory.maxTableSize - |table|, 0
    {
      hide TableOk, SameMultimap, Pairs, HasFields, HashableTexts;
      var visited := ForEach();
      var i := 0;
      while i < |visited|
        invariant 0 <= i <= |visited| && newMap.Valid() && newMap.inserted == visited[..i]
        invariant |table| < |newMap.table| <= memory.maxTableSize
      {
        PairsArePlaced(hashing, table, i);
        assert visited[..i + 1] == visited[..i] + [Entry(visited[i].r, visited[i].v)];
        ok := newMap.Insert(visited[i].r, visited[i].v);
        if !ok { return; }
        i := i + 1;
      }
      assert visited[..i] == visited;
      ok := true;
    }
  }

  lemma EmptyTable<V>(h: Hashing, table: Table<V>)
    requires table != [] && forall c :: 0 <= c < |table| ==> table[c] == []
    ensures TableOk(h, table) && SameMultimap(h.specs, Pairs(table), [])
  {
    NothingToFlatten(table);
  }

  lemma {:induction false} NothingToFlatten<T>(s: seq<seq<T>>)
    requires forall c :: 0 <= c < |s| ==> s[c] == []
    ensures Flatten(s) == []
  {
    if s != [] { NothingToFlatten(s[1..]); }
  }

  lemma TableChainOk<V>(h: Hashing, table: Table<V>, c: nat)
    requires TableOk(h, table) && c < |table|
    ensures ChainOk(h, table[c], c, |table|)
  {
  }

  lemma FoundInRange<V>(h: Hashing, chain: Chain<V>, key: seq<string>, at: nat)
    requires |key| == |h.specs| && FoundAt(h, chain, key, at)
    ensures at <= |chain|
  {
  }

  lemma FrontHasFields<V>(h: Hashing, chain: Chain<V>, c: nat, size: nat, i: nat)
    requires size > 0 && ChainOk(h, chain, c, size) && i < |chain|
    ensures chain[i] != [] && HasFields(h.specs, chain[i][0].r)
  {
    hide KeyIs;
    assert ListOk(h, chain[i], c, size);
    assert Placed(h, chain[i][0], c, size);
  }

  lemma CompareIsKeyIs<V>(specs: seq<Spec>, e: Entry<V>, key: seq<string>)
    requires |key| == |specs|
    ensures KeyIs(specs, e, key) <==> CompareTexts(Kinds(specs), Texts(specs, e.r), key) == 0
  {
  }

  lemma FlattenNext<T>(s: seq<seq<T>>, i: nat)
    requires i < |s|
    ensures Flatten(s[..i + 1]) == Flatten(s[..i]) + s[i] && s[i][..|s[i]|] == s[i]
  {
    assert s[..i + 1] == s[..i] + [s[i]];
    FlattenConcat(s[..i], [s[i]]);
    FlattenOne(s[i]);
  }

  lemma NoPairs<V>(table: Table<V>)
    ensures Pairs(table[..0]) == []
  {
  }

  lemma PairsNext<V>(table: Table<V>, c: nat)
    requires c < |table|
    ensures Pairs(table[..c + 1]) == Pairs(table[..c]) + Flatten(table[c])
  {
    FlattenNext(table, c);
    FlattenConcat(Flatten(table[..c]), table[c]);
  }

  lemma SameAfterInsert<V>(specs: seq<Spec>, pairs: seq<Entry<V>>, inserted: seq<Entry<V>>, e: Entry<V>,
      pairs': seq<Entry<V>>)
    requires SameMultimap(specs, pairs, inserted) && SameMultimap(specs, pairs', pairs + [e])
    ensures SameMultimap(specs, pairs', inserted + [e])
  {
    SameMultimapAppend(specs, pairs, inserted, e);
  }

  /** Everything in the table can be hashed again. */
  lemma PairsArePlaced<V>(h: Hashing, table: Table<V>, i: nat)
    requires TableOk(h, table) && i < |Pairs(table)|
    ensures HasFields(h.specs, Pairs(table)[i].r) && HashableTexts(Kinds(h.specs), h.Key(Pairs(table)[i].r))
  {
    hide ListOk, HasFields, HashableTexts;
    var l, k := InFlatten(Flatten(table), i);
    var c, j := InFlatten(table, l);
    assert ChainOk(h, table[c], c, |table|);
    EntryPlaced(h, table[c][j], c, |table|, k);
  }

  lemma EntryPlaced<V>(h: Hashing, list: EqualList<V>, c: nat, size: nat, k: nat)
    requires size > 0 && ListOk(h, list, c, size) && k < |list|
    ensures HasFields(h.specs, list[k].r) && HashableTexts(Kinds(h.specs), h.Key(list[k].r))
  {
    hide HasFields, HashableTexts, KeyIs;
    assert Placed(h, list[k], c, size);
  }

  lemma {:induction false} InFlatten<T>(s: seq<seq<T>>, i: nat) returns (l: nat, k: nat)
    requires i < |Flatten(s)|
    ensures l < |s| && k < |s[l]| && s[l][k] == Flatten(s)[i]
  {
    if i < |s[0]| {
      l, k := 0, i;
    } else {
      l, k := InFlatten(s[1..], i - |s[0]|);
      l := l + 1;
    }
  }
}
