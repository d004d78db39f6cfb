/** np1/skip_list.hpp over np1/fixed_homogenous_heap.hpp. A node is named by its heap block; the head
    node has a name of its own, -1 is the null pointer. */
module SkipList {
  import opened StableOrder
  import FixedHeap

  const NULL: int := -1
  const MAX_LEVEL: nat := 7
  const NO_LINKS: seq<int> := [NULL, NULL, NULL, NULL, NULL, NULL, NULL]

  type Forwards = seq<seq<int>>

  datatype InsertResult = Inserted | Duplicate | OutOfBlocks

  /** The node at position `i` of the list; the head stands before position 0. */
  function NodeAt(head: nat, order: seq<nat>, i: int): nat
    requires -1 <= i < |order|
  {
    if i == -1 then head else order[i]
  }

  /** The node at position `i`, or null after the last one. */
  function From(order: seq<nat>, i: nat): int {
    if i < |order| then order[i] else NULL
  }

  function With(s: seq<nat>, p: nat, x: nat): (r: seq<nat>)
    requires p <= |s|
    ensures |r| == |s| + 1 && r[p] == x
    ensures forall i :: 0 <= i < p ==> r[i] == s[i]
    ensures forall i :: p <= i < |s| ==> r[i + 1] == s[i]
  {
    s[..p] + [x] + s[p..]
  }

  function Without(s: seq<nat>, p: nat): (r: seq<nat>)
    requires p < |s|
    ensures |r| == |s| - 1
    ensures forall i :: 0 <= i < p ==> r[i] == s[i]
    ensures forall i :: p < i < |s| ==> r[i - 1] == s[i]
  {
    s[..p] + s[p + 1..]
  }

  predicate WellShaped(f: Forwards, head: nat, order: seq<nat>) {
    && head < |f| && (forall x :: 0 <= x < |f| ==> |f[x]| == MAX_LEVEL)
    && (forall i :: 0 <= i < |order| ==> order[i] < |f| && order[i] != head)
    && (forall i, j :: 0 <= i < j < |order| ==> order[i] != order[j])
  }

  /** Every block is either live or free. */
  predicate Accounted(order: seq<nat>, free: seq<nat>, blocks: nat) {
    |order| + |free| == blocks && forall i :: 0 <= i < |order| ==> order[i] !in free
  }

  /** A link from position `i`: null, or to a node strictly later in the list. */
  ghost predicate PointsPast(order: seq<nat>, i: int, link: int) {
    link == NULL || exists j: nat :: i < j < |order| && order[j] == link
  }

  /** What inserting and removing at the front keep: the lowest level is complete, and no link on any
      level goes backwards. Higher levels may skip nodes they once had. */
  ghost predicate Linked(f: Forwards, head: nat, order: seq<nat>)
    requires WellShaped(f, head, order)
  {
    && LowestComplete(f, head, order)
    && (forall i, l :: -1 <= i < |order| && 0 <= l < MAX_LEVEL ==> PointsPast(order, i, f[NodeAt(head, order, i)][l]))
  }

  /** `heights` says on how many levels each node was inserted. */
  predicate Reaches(heights: seq<nat>, i: int, level: nat)
    requires -1 <= i < |heights|
  {
    i == -1 || level < heights[i]
  }

  /** The first position from `i` on that reaches `level`, or the end of the list. */
  function NextOn(heights: seq<nat>, i: nat, level: nat): (j: nat)
    requires i <= |heights|
    ensures i <= j <= |heights| && (j < |heights| ==> level < heights[j])
    ensures forall k :: i <= k < j ==> heights[k] <= level
    decreases |heights| - i
  {
    if i == |heights| || level < heights[i] then i else NextOn(heights, i + 1, level)
  }

  /** What inserting and erasing keep: on every level the list is the chain of the nodes reaching it. */
  ghost predicate Complete(f: Forwards, head: nat, order: seq<nat>, heights: seq<nat>)
    requires WellShaped(f, head, order)
  {
    && |heights| == |order|
    && (forall i :: 0 <= i < |heights| ==> 1 <= heights[i] <= MAX_LEVEL)
    && (forall i, l :: -1 <= i < |order| && 0 <= l < MAX_LEVEL ==>
          f[NodeAt(head, order, i)][l] == if Reaches(heights, i, l) then From(order, NextOn(heights, i + 1, l))
          else NULL)
  }

  /** `u` is the last position before `p` that reaches `level`. */
  predicate LastBefore(heights: seq<nat>, p: nat, level: nat, u: int)
    requires p <= |heights|
  {
    -1 <= u < p && Reaches(heights, u, level) && forall k :: u < k < p ==> heights[k] <= level
  }

  predicate AllReach(heights: seq<nat>, up: seq<int>) {
    forall l :: 0 <= l < |up| ==> -1 <= up[l] < |heights| && Reaches(heights, up[l], l)
  }

  ghost predicate Sorted<V>(lt: (V, V) -> bool, values: map<int, V>, order: seq<nat>) {
    && (forall i :: 0 <= i < |order| ==> order[i] in values)
    && (forall i, j :: 0 <= i < j < |order| ==> lt(values[order[i]], values[order[j]]))
  }

  function ValuesOf<V>(values: map<int, V>, order: seq<nat>): (r: seq<V>)
    requires forall i :: 0 <= i < |order| ==> order[i] in values
    ensures |r| == |order| && forall i :: 0 <= i < |r| ==> r[i] == values[order[i]]
  {
    seq(|order|, i requires 0 <= i < |order| => values[order[i]])
  }

  /** A link that is null or leads to a node not less than `k`. */
  ghost predicate NotLess<V>(lt: (V, V) -> bool, values: map<int, V>, link: int, k: V) {
    link == NULL || (link in values && !lt(values[link], k))
  }

  /** What a search for `k` hands to an insertion: `up[l]` is the position of `updates[l]`, the last node
      visited on level `l`. The nodes less than `k` are exactly those up to `up[0]`. */
  ghost predicate Located<V>(lt: (V, V) -> bool, values: map<int, V>, f: Forwards, head: nat, order: seq<nat>,
                             k: V, updates: seq<nat>, up: seq<int>)
    requires WellShaped(f, head, order) && Sorted(lt, values, order)
  {
    && |updates| == |up| == MAX_LEVEL
    && (forall l :: 0 <= l < MAX_LEVEL ==> -1 <= up[l] <= up[0] < |order| && updates[l] == NodeAt(head, order, up[l]))
    && (forall l :: 0 <= l < MAX_LEVEL ==> NotLess(lt, values, f[updates[l]][l], k))
    && (forall i :: 0 <= i < |order| ==> (i <= up[0] <==> lt(values[order[i]], k)))
  }

  predicate Equal<V>(lt: (V, V) -> bool, a: V, b: V) {
    !lt(a, b) && !lt(b, a)
  }

  ghost predicate InsertedAt<V>(lt: (V, V) -> bool, before: seq<V>, after: seq<V>, v: V, p: int) {
    && 0 <= p <= |before| && after == before[..p] + [v] + before[p..]
    && (forall i :: 0 <= i < p ==> lt(before[i], v))
    && (forall i :: p <= i < |before| ==> lt(v, before[i]))
  }

  /** `node` has been put behind `updates[l]` on every level below `levels`, and is on no other level. */
  ghost predicate Spliced(f: Forwards, g: Forwards, updates: seq<nat>, node: nat, levels: nat) {
    && |updates| == MAX_LEVEL && levels <= MAX_LEVEL && |g| == |f| && node < |f|
    && (forall x :: 0 <= x < |f| ==> |f[x]| == |g[x]| == MAX_LEVEL)
    && (forall l :: 0 <= l < MAX_LEVEL ==> updates[l] < |f|)
    && (forall x, l :: 0 <= x < |f| && x != node && 0 <= l < MAX_LEVEL ==>
          g[x][l] == if l < levels && x == updates[l] then node else f[x][l])
    && (forall l :: 0 <= l < MAX_LEVEL ==> g[node][l] == if l < levels then f[updates[l]][l] else NULL)
  }

  lemma NothingLinked(f: Forwards, head: nat)
    requires head < |f| && forall x :: 0 <= x < |f| ==> f[x] == NO_LINKS
    ensures WellShaped(f, head, []) && Linked(f, head, []) && Complete(f, head, [], [])
  {
  }

  lemma LowestLinked(f: Forwards, head: nat, order: seq<nat>, i: int)
    requires WellShaped(f, head, order) && Linked(f, head, order) && -1 <= i < |order|
    ensures f[NodeAt(head, order, i)][0] == From(order, i + 1)
  {
  }

  lemma NoBlock(order: seq<nat>, blocks: nat)
    requires Accounted(order, [], blocks)
    ensures |order| == blocks
  {
  }

  ghost function PositionOf(order: seq<nat>, i: int, link: int): (j: nat)
    requires PointsPast(order, i, link) && link != NULL
    ensures i < j < |order| && order[j] == link
  {
    var j: nat :| i < j < |order| && order[j] == link;
    j
  }

  lemma SamePosition(f: Forwards, head: nat, order: seq<nat>, i: nat, j: nat)
    requires WellShaped(f, head, order) && i < |order| && j < |order| && order[i] == order[j]
    ensures i == j
  {
  }

  /** Where following level `l` from position `at` stops: at the last node before one not less than `k`. */
  ghost function Walk<V>(lt: (V, V) -> bool, values: map<int, V>, f: Forwards, head: nat, order: seq<nat>, k: V, l: nat,
                         at: int): (r: int)
    requires WellShaped(f, head, order) && Linked(f, head, order) && Sorted(lt, values, order)
    requires l < MAX_LEVEL && -1 <= at < |order|
    ensures at <= r < |order|
    decreases |order| - at
  {
    var link := f[NodeAt(head, order, at)][l];
    assert PointsPast(order, at, link);
    if link != NULL && lt(values[link], k) then
      Walk(lt, values, f, head, order, k, l, PositionOf(order, at, link))
    else
      at
  }

  /** Where the search for `k`, which starts at the head on the highest level, leaves level `l`. */
  ghost function Search<V>(lt: (V, V) -> bool, values: map<int, V>, f: Forwards, head: nat, order: seq<nat>, k: V,
      l: nat): (r: int)
    requires WellShaped(f, head, order) && Linked(f, head, order) && Sorted(lt, values, order) && l <= MAX_LEVEL
    ensures -1 <= r < |order|
    decreases MAX_LEVEL - l
  {
    if l == MAX_LEVEL then -1
    else Walk(lt, values, f, head, order, k, l, Search(lt, values, f, head, order, k, l + 1))
  }

  lemma WalkSteps<V>(lt: (V, V) -> bool, values: map<int, V>, f: Forwards, head: nat, order: seq<nat>, k: V, l: nat,
      at: int, j: nat)
    requires WellShaped(f, head, order) && Linked(f, head, order) && Sorted(lt, values, order)
    requires l < MAX_LEVEL && -1 <= at < j < |order| && f[NodeAt(head, order, at)][l] == order[j]
    requires lt(values[order[j]], k)
    ensures Walk(lt, values, f, head, order, k, l, at) == Walk(lt, values, f, head, order, k, l, j)
  {
    hide PositionOf, LowestComplete, Sorted;
    assert PointsPast(order, at, f[NodeAt(head, order, at)][l]);
    SamePosition(f, head, order, PositionOf(order, at, order[j]), j);
  }

  lemma WalkStops<V>(lt: (V, V) -> bool, values: map<int, V>, f: Forwards, head: nat, order: seq<nat>, k: V, l: nat,
      at: int)
    requires WellShaped(f, head, order) && Linked(f, head, order) && Sorted(lt, values, order) && l < MAX_LEVEL
    requires -1 <= at < |order|
    requires NotLess(lt, values, f[NodeAt(head, order, at)][l], k)
    ensures Walk(lt, values, f, head, order, k, l, at) == at
  {
  }

  /** The search left level `l` at `node`, which is at position `u`. */
  ghost predicate LeftAt<V>(lt: (V, V) -> bool, values: map<int, V>, f: Forwards, head: nat, order: seq<nat>, k: V,
      node: nat, u: int,
                            l: nat)
    requires WellShaped(f, head, order) && Linked(f, head, order) && Sorted(lt, values, order) && l < MAX_LEVEL
  {
    && -1 <= u < |order| && node == NodeAt(head, order, u) && NotLess(lt, values, f[node][l], k)
    && u == Search(lt, values, f, head, order, k, l)
  }

  lemma LeftThere<V>(lt: (V, V) -> bool, values: map<int, V>, f: Forwards, head: nat, order: seq<nat>, k: V, node: nat,
      u: int, l: nat)
    requires WellShaped(f, head, order) && Linked(f, head, order) && Sorted(lt, values, order) && l < MAX_LEVEL
    requires -1 <= u < |order|
    ensures LeftAt(lt, values, f, head, order, k, node, u, l)
       <==> node == NodeAt(head, order, u) && NotLess(lt, values, f[NodeAt(head, order, u)][l], k)
            && u == Search(lt, values, f, head, order, k, l)
  {
    hide Linked, Sorted, NotLess, Search;
  }

  lemma SearchDone<V>(lt: (V, V) -> bool, values: map<int, V>, f: Forwards, head: nat, order: seq<nat>, k: V,
      updates: seq<nat>,
                      up: seq<int>)
    requires WellShaped(f, head, order) && Linked(f, head, order) && Sorted(lt, values, order)
    requires |updates| == |up| == MAX_LEVEL
    requires forall l :: 0 <= l < MAX_LEVEL ==>
        up[l] <= up[0] && LeftAt(lt, values, f, head, order, k, updates[l], up[l], l)
    requires forall i :: 0 <= i < |order| ==> (i <= up[0] <==> lt(values[order[i]], k))
    ensures Located(lt, values, f, head, order, k, updates, up) && up == SearchPath(lt, values, f, head, order, k)
    ensures updates == NodesAt(head, order, up)
  {
    hide Search, Linked;
  }

  lemma SearchStep<V>(lt: (V, V) -> bool, values: map<int, V>, f: Forwards, head: nat, order: seq<nat>, k: V, l: nat)
    requires WellShaped(f, head, order) && Linked(f, head, order) && Sorted(lt, values, order) && l < MAX_LEVEL
    ensures Search(lt, values, f, head, order, k, l)
         == Walk(lt, values, f, head, order, k, l, Search(lt, values, f, head, order, k, l + 1))
    ensures Search(lt, values, f, head, order, k, MAX_LEVEL) == -1
  {
  }

  /** How many levels the loop of `erase` takes node `n` off: it stops above the head's highest link, and at the
      first level where the link it was led to is not one to `n`. */
  ghost function UnlinkedLevels(f: Forwards, head: nat, updates: seq<nat>, n: nat, l: nat): (r: nat)
    requires head < |f| && |updates| == MAX_LEVEL && l <= MAX_LEVEL && forall x :: 0 <= x < |f| ==> |f[x]| == MAX_LEVEL
    requires forall m :: 0 <= m < MAX_LEVEL ==> updates[m] < |f|
    ensures l <= r <= MAX_LEVEL && forall m :: l <= m < r ==> f[updates[m]][m] == n
    decreases MAX_LEVEL - l
  {
    if l == MAX_LEVEL || (forall m :: l <= m < MAX_LEVEL ==> f[head][m] == NULL) || f[updates[l]][l] != n then l
    else UnlinkedLevels(f, head, updates, n, l + 1)
  }

  /** Every link to the node at position `p` is one that the search ended on and the loop of `erase` gets to. */
  ghost predicate AllReached(f: Forwards, head: nat, order: seq<nat>, p: nat, up: seq<int>, levels: nat)
    requires WellShaped(f, head, order) && p < |order| && |up| == MAX_LEVEL
  {
    forall i: int, l: int {:trigger f[NodeAt(head, order, i)][l]} ::
      -1 <= i < |order| && i != p && 0 <= l < MAX_LEVEL && f[NodeAt(head, order, i)][l] == order[p] ==>
      l < levels && up[l] == i
  }

  ghost function SearchPath<V>(lt: (V, V) -> bool, values: map<int, V>, f: Forwards, head: nat, order: seq<nat>, k: V)
    : (up: seq<int>)
    requires WellShaped(f, head, order) && Linked(f, head, order) && Sorted(lt, values, order)
    ensures |up| == MAX_LEVEL && forall l :: 0 <= l < MAX_LEVEL ==> -1 <= up[l] < |order|
  {
    seq(MAX_LEVEL, l requires 0 <= l < MAX_LEVEL => Search(lt, values, f, head, order, k, l))
  }

  function NodesAt(head: nat, order: seq<nat>, up: seq<int>): (r: seq<nat>)
    requires forall l :: 0 <= l < |up| ==> -1 <= up[l] < |order|
    ensures |r| == |up|
  {
    seq(|up|, l requires 0 <= l < |up| => NodeAt(head, order, up[l]))
  }

  /** What a caller can check before erasing `k`: every link to the node to be erased will be led past it. */
  ghost predicate ErasesCleanly<V>(lt: (V, V) -> bool, values: map<int, V>, f: Forwards, head: nat, order: seq<nat>,
      k: V)
    requires WellShaped(f, head, order) && Linked(f, head, order) && Sorted(lt, values, order)
  {
    var up := SearchPath(lt, values, f, head, order, k);
    var p := up[0] + 1;
    p < |order| ==> AllReached(f, head, order, p, up, UnlinkedLevels(f, head, NodesAt(head, order, up), order[p], 0))
  }

  /** The chain on the lowest level is the whole list. */
  ghost predicate LowestComplete(f: Forwards, head: nat, order: seq<nat>)
    requires WellShaped(f, head, order)
  {
    forall i :: -1 <= i < |order| ==> f[NodeAt(head, order, i)][0] == From(order, i + 1)
  }

  ghost predicate ErasedAt<V>(lt: (V, V) -> bool, before: seq<V>, after: seq<V>, k: V, p: int) {
    0 <= p < |before| && Equal(lt, before[p], k) && after == before[..p] + before[p + 1..]
  }

  /** The links to `n` below `levels` lead where the links of `n` do. */
  ghost predicate Unlinked(f: Forwards, g: Forwards, updates: seq<nat>, n: nat, levels: nat) {
    && |updates| == MAX_LEVEL && levels <= MAX_LEVEL && |g| == |f| && n < |f|
    && (forall x :: 0 <= x < |f| ==> |f[x]| == |g[x]| == MAX_LEVEL)
    && (forall x, l :: 0 <= x < |f| && 0 <= l < MAX_LEVEL ==>
          g[x][l] == if l < levels && x == updates[l] then f[n][l] else f[x][l])
  }

  class SkipList<V(!new)> {
    const lt: (V, V) -> bool
    const heap: FixedHeap.FixedHeap
    const head: nat
    var values: map<int, V>
    var forwards: Forwards
    var size: nat
    /** The live nodes in list order. */
    ghost var order: seq<nat>
    ghost var heights: seq<nat>

    ghost predicate Valid()
      reads this, heap, heap.headers
    {
      && StrictWeakOrder(lt)
      && heap.Valid() && head == heap.headers.Length && |forwards| == head + 1
      && WellShaped(forwards, head, order) && Linked(forwards, head, order) && Sorted(lt, values, order)
      && size == |order| == |heights| && Accounted(order, heap.free, head)
    }

    /** The elements, least first. */
    ghost function Contents(): (r: seq<V>)
      reads this, heap, heap.headers
      requires Valid()
      ensures |r| == size == |order| && (forall i :: 0 <= i < |order| ==> order[i] in values)
      ensures forall i :: 0 <= i < |r| ==> r[i] == values[order[i]]
    {
      ValuesOf(values, order)
    }

    /** Nothing has been removed from the front: erasing is safe. */
    ghost predicate AllLevelsComplete()
      reads this
      requires WellShaped(forwards, head, order)
    {
      Complete(forwards, head, order, heights)
    }

    lemma ContentsSorted()
      requires Valid()
      ensures forall i, j :: 0 <= i < j < size ==> lt(Contents()[i], Contents()[j])
    {
    }

    constructor (lt: (V, V) -> bool, numberBlocks: nat)
      requires StrictWeakOrder(lt)
      ensures Valid() && AllLevelsComplete() && this.lt == lt && Contents() == [] && head == numberBlocks && fresh(heap)
      ensures fresh(heap.headers)
    {
      this.lt := lt;
      heap := new FixedHeap.FixedHeap(numberBlocks);
      head := numberBlocks;
      values := map[];
      forwards := seq(numberBlocks + 1, _ => NO_LINKS);
      size, order, heights := 0, [], [];
      new;
      NothingLinked(forwards, head);
    }

    method LowerBoundAndRecordUpdates(k: V) returns (lb: int, updates: seq<nat>, ghost up: seq<int>)
      requires Valid()
      ensures Located(lt, values, forwards, head, order, k, updates, up)
      ensures lb == From(order, up[0] + 1) && up == SearchPath(lt, values, forwards, head, order, k)
      ensures updates == NodesAt(head, order, SearchPath(lt, values, forwards, head, order, k))
      ensures AllLevelsComplete() ==> AllReach(heights, up)
    {
      hide Accounted, Linked, Complete, StrictWeakOrder, FixedHeap.FixedHeap.Valid, Search, Walk, SearchPath, LeftAt,
          Located;
      SearchStep(lt, values, forwards, head, order, k, 0);
      var curr := head;
      ghost var at := -1;
      updates, up := [], [];
      var i := MAX_LEVEL - 1;
      while i >= 0
        invariant -1 <= i < MAX_LEVEL
        invariant -1 <= at < |order| && curr == NodeAt(head, order, at)
        invariant at >= 0 ==> lt(values[order[at]], k)
        invariant |updates| == |up| == MAX_LEVEL - 1 - i
        invariant forall m :: 0 <= m < |up| ==>
                    && -1 <= up[m] <= at && LeftAt(lt, values, forwards, head, order, k, updates[m], up[m], i + 1 + m)
                    && (AllLevelsComplete() ==> Reaches(heights, up[m], i + 1 + m))
        invariant AllLevelsComplete() ==> Reaches(heights, at, i + 1)
        invariant i < MAX_LEVEL - 1 ==> up[0] == at
        invariant at == Search(lt, values, forwards, head, order, k, i + 1)
      {
        SearchStep(lt, values, forwards, head, order, k, i);
        curr, at := WalkLevel(k, i, curr, at);
        LeftThere(lt, values, forwards, head, order, k, curr, at, i);
        updates, up := [curr] + updates, [at] + up;
        i := i - 1;
      }
      lb := forwards[curr][0];
      LowestLinked(forwards, head, order, at);
      LeftThere(lt, values, forwards, head, order, k, updates[0], at, 0);
      LessUpTo(lt, values, order, at, k);
      SearchDone(lt, values, forwards, head, order, k, updates, up);
    }

    /** Position `p` is that of the first node not less than `k`. */
    ghost predicate IsLowerBound(k: V, p: nat)
      requires Valid()
      reads this, heap, heap.headers
    {
      p <= |order| && forall i :: 0 <= i < |order| ==> (i < p <==> lt(values[order[i]], k))
    }

    /** `lower_bound`: the first node that is not less than `k`, null when there is none. */
    method LowerBound(k: V) returns (lb: int)
      requires Valid()
      ensures exists p: nat :: IsLowerBound(k, p) && lb == From(order, p)
    {
      hide Accounted, Linked, Complete, StrictWeakOrder, FixedHeap.FixedHeap.Valid;
      var curr := head;
      ghost var at := -1;
      var i := MAX_LEVEL - 1;
      while i >= 0
        invariant -1 <= i < MAX_LEVEL
        invariant -1 <= at < |order| && curr == NodeAt(head, order, at)
        invariant at >= 0 ==> lt(values[order[at]], k)
        invariant AllLevelsComplete() ==> Reaches(heights, at, i + 1)
        invariant i < 0 ==> NotLess(lt, values, forwards[curr][0], k)
      {
        curr, at := WalkLevel(k, i, curr, at);
        i := i - 1;
      }
      lb := forwards[curr][0];
      LowestLinked(forwards, head, order, at);
      LessUpTo(lt, values, order, at, k);
      assert IsLowerBound(k, at + 1) && lb == From(order, at + 1);
    }

    /** `find`: the node that compares equal to `k`, or null. */
    method Find(k: V) returns (n: int)
      requires Valid()
      ensures n == NULL <==> forall i :: 0 <= i < |order| ==> !Equal(lt, Contents()[i], k)
      ensures n != NULL ==> exists i :: 0 <= i < |order| && n == order[i] && Equal(lt, Contents()[i], k)
    {
      hide Accounted, Linked, Complete, FixedHeap.FixedHeap.Valid;
      n := LowerBound(k);
      ghost var p: nat :| IsLowerBound(k, p) && n == From(order, p);
      if n != NULL && Equal(lt, values[n], k) {
        assert order[p] == n && Equal(lt, Contents()[p], k);
        return;
      }
      OnlyCandidate(lt, values, order, k, p);
      n := NULL;
    }

    /** `begin`. */
    method Begin() returns (n: int)
      requires Valid()
      ensures n == NULL <==> size == 0
      ensures n != NULL ==> n in values && values[n] == Contents()[0]
    {
      LowestLinked(forwards, head, order, -1);
      n := forwards[head][0];
    }

    /** Follow level `i` while the next node is less than `k`. */
    method WalkLevel(k: V, i: nat, start: nat, ghost from: int) returns (curr: nat, ghost at: int)
      requires Valid() && i < MAX_LEVEL && -1 <= from < |order| && start == NodeAt(head, order, from)
      requires from >= 0 ==> lt(values[order[from]], k)
      requires AllLevelsComplete() ==> Reaches(heights, from, i + 1)
      ensures from <= at < |order| && curr == NodeAt(head, order, at)
      ensures at >= 0 ==> lt(values[order[at]], k)
      ensures NotLess(lt, values, forwards[curr][i], k)
      ensures AllLevelsComplete() ==> Reaches(heights, at, i)
      ensures at == Walk(lt, values, forwards, head, order, k, i, from)
    {
      hide Complete, Walk;
      curr, at := start, from;
      while forwards[curr][i] != NULL && lt(values[forwards[curr][i]], k)
        invariant from <= at < |order| && curr == NodeAt(head, order, at)
        invariant at >= 0 ==> lt(values[order[at]], k)
        invariant PointsPast(order, at, forwards[curr][i])
        invariant AllLevelsComplete() ==> Reaches(heights, at, i)
        invariant Walk(lt, values, forwards, head, order, k, i, from)
            == Walk(lt, values, forwards, head, order, k, i, at)
        decreases |order| - at
      {
        ghost var j: nat :| at < j < |order| && order[j] == forwards[curr][i];
        if AllLevelsComplete() { LinkReaches(forwards, head, order, heights, at, i, j); }
        WalkSteps(lt, values, forwards, head, order, k, i, at, j);
        curr := forwards[curr][i];
        at := j;
        assert PointsPast(order, at, forwards[NodeAt(head, order, at)][i]);
      }
      WalkStops(lt, values, forwards, head, order, k, i, at);
    }

    /** `insert`. `level` is what `random_level` returned. The source aborts when no block is free. */
    method Insert(v: V, level: nat) returns (result: InsertResult)
      requires Valid() && level < MAX_LEVEL
      modifies this, heap
      ensures Valid() && (old(AllLevelsComplete()) ==> AllLevelsComplete())
      ensures result.Duplicate? <==> exists i :: 0 <= i < |old(Contents())| && Equal(lt, old(Contents())[i], v)
      ensures !result.Duplicate? ==> (result.OutOfBlocks? <==> old(size) == head)
      ensures !result.Inserted? ==> Contents() == old(Contents())
      ensures result.Inserted? ==> exists p :: InsertedAt(lt, old(Contents()), Contents(), v, p)
    {
      hide Accounted, Complete, Linked, FixedHeap.FixedHeap.Valid, SearchPath, WellShaped, Located, AllReach,
          LowestComplete;
      var lb, updates, up := LowerBoundAndRecordUpdates(v);
      LocatedLess(lt, values, forwards, head, order, v, updates, up);
      ghost var p := up[0] + 1;
      if lb != NULL && Equal(lt, values[lb], v) {
        assert values[lb] == Contents()[p];
        return Duplicate;
      }
      OnlyCandidate(lt, values, order, v, p);
      updates, up := HeadAtEmptyLevels(v, level, updates, up);
      var ok := Place(v, level, updates, up);
      result := if ok then Inserted else OutOfBlocks;
      assert ok ==> InsertedAt(lt, old(Contents()), Contents(), v, p);
    }

    /** Put a node for `v` where the search found its place. */
    method Place(v: V, level: nat, updates: seq<nat>, ghost up: seq<int>) returns (ok: bool)
      requires Valid() && level < MAX_LEVEL && Located(lt, values, forwards, head, order, v, updates, up)
      requires up[0] + 1 < |order| ==> !Equal(lt, values[order[up[0] + 1]], v)
      requires AllLevelsComplete() ==> AllReach(heights, up)
      modifies this, heap
      ensures Valid() && if ok then old(size) < head else old(size) == head
      ensures old(AllLevelsComplete()) ==> AllLevelsComplete()
      ensures ok ==> InsertedAt(lt, old(Contents()), Contents(), v, up[0] + 1)
      ensures !ok ==> Contents() == old(Contents())
    {
      hide Linked, Complete, Accounted, Spliced, Located, Sorted, AllReach, StrictWeakOrder, InsertedAt, ValuesOf, With,
        FixedHeap.FixedHeap.Valid;
      var node;
      ok, node := heap.Alloc();
      if !ok {
        NoBlock(order, head);
        return;
      }
      UpdatesInRange(lt, values, forwards, head, order, v, updates, up);
      ghost var f, o, h, vs, p := forwards, order, heights, values, up[0] + 1;
      TakeBlock(o, heap.free, head, node, p);
      LinkIn(node, level, updates);
      values, size := values[node := v], size + 1;
      order, heights := With(o, p, node), With(h, p, level + 1);
      InsertKeepsAll(lt, vs, f, forwards, head, o, h, v, updates, up, node, level);
    }

    /** The levels the head does not reach yet: their updates are set to the head again. */
    method HeadAtEmptyLevels(v: V, level: nat, updates: seq<nat>, ghost up: seq<int>)
      returns (updates': seq<nat>, ghost up': seq<int>)
      requires Valid() && level < MAX_LEVEL && Located(lt, values, forwards, head, order, v, updates, up)
      ensures Located(lt, values, forwards, head, order, v, updates', up') && up'[0] == up[0]
      ensures AllReach(heights, up) ==> AllReach(heights, up')
    {
      hide Complete, Linked, Accounted, FixedHeap.FixedHeap.Valid;
      var currentLevel := FindHighestLevel(head);
      updates', up' := updates, up;
      var i := currentLevel + 1;
      while i <= level
        invariant 0 <= currentLevel + 1 <= i
        invariant Located(lt, values, forwards, head, order, v, updates', up') && up'[0] == up[0]
        invariant AllReach(heights, up) ==> AllReach(heights, up')
      {
        if i == 0 { LowestLinked(forwards, head, order, -1); }
        updates', up' := updates'[i := head], up'[i := -1];
        i := i + 1;
      }
    }

    method FindHighestLevel(node: nat) returns (i: int)
      requires node < |forwards| && |forwards[node]| == MAX_LEVEL
      ensures -1 <= i < MAX_LEVEL && (i >= 0 ==> forwards[node][i] != NULL)
      ensures forall l :: i < l < MAX_LEVEL ==> forwards[node][l] == NULL
    {
      i := MAX_LEVEL - 1;
      while i >= 0
        invariant -1 <= i < MAX_LEVEL
        invariant forall l :: i < l < MAX_LEVEL ==> forwards[node][l] == NULL
      {
        if forwards[node][i] != NULL { return; }
        i := i - 1;
      }
    }

    method LinkIn(node: nat, level: nat, updates: seq<nat>)
      requires level < MAX_LEVEL == |updates| && node < |forwards| && forall x :: 0 <= x < |forwards| ==>
          |forwards[x]| == MAX_LEVEL
      requires forall l :: 0 <= l < MAX_LEVEL ==> updates[l] < |forwards| && updates[l] != node
      modifies this`forwards
      ensures Spliced(old(forwards), forwards, updates, node, level + 1)
    {
      forwards := forwards[node := NO_LINKS];
      var i := 0;
      while i <= level
        invariant 0 <= i <= level + 1 && Spliced(old(forwards), forwards, updates, node, i)
      {
        forwards := forwards[node := forwards[node][i := forwards[updates[i]][i]]];
        forwards := forwards[updates[i] := forwards[updates[i]][i := node]];
        i := i + 1;
      }
    }

    /** `erase`: the element goes, and the lowest level is right in any case. The links of the higher levels stay
        right exactly when all that lead to the node are reached, which is so when every level is complete. */
    method Erase(k: V) returns (found: bool)
      requires Valid()
      modifies this, heap, heap.headers
      ensures found <==> exists i :: 0 <= i < |old(Contents())| && Equal(lt, old(Contents())[i], k)
      ensures !found ==> Valid() && Contents() == old(Contents()) && (old(AllLevelsComplete()) ==> AllLevelsComplete())
      ensures WellShaped(forwards, head, order) && LowestComplete(forwards, head, order) && Sorted(lt, values, order)
      ensures found ==> exists p :: ErasedAt(lt, old(Contents()), ValuesOf(values, order), k, p)
      ensures found ==> (Valid() <==> old(ErasesCleanly(lt, values, forwards, head, order, k)))
      ensures old(AllLevelsComplete()) ==> Valid() && AllLevelsComplete()
    {
      hide Accounted, Complete, Linked, FixedHeap.FixedHeap.Valid, ErasesCleanly, WellShaped, Sorted, Located,
          StrictWeakOrder,
           LowestComplete, SearchPath, AllReach, ErasedAt, ValuesOf, Equal;
      var n, updates, up := LowerBoundAndRecordUpdates(k);
      ghost var p := up[0] + 1;
      LocatedLess(lt, values, forwards, head, order, k, updates, up);
      LinkedLowest(forwards, head, order);
      if n == NULL || !Equal(lt, values[n], k) {
        OnlyCandidate(lt, values, order, k, p);
        return false;
      }
      assert values[n] == Contents()[p];
      Remove(k, n, updates, up);
      found := true;
    }

    /** Take the node the search found off the levels the loop gets to and give its block back. */
    method Remove(k: V, n: nat, updates: seq<nat>, ghost up: seq<int>)
      requires Valid() && Located(lt, values, forwards, head, order, k, updates, up)
      requires up == SearchPath(lt, values, forwards, head, order, k) && (AllLevelsComplete() ==> AllReach(heights, up))
      requires up[0] + 1 < |order| && n == order[up[0] + 1] && Equal(lt, values[n], k)
      modifies this, heap, heap.headers
      ensures WellShaped(forwards, head, order) && LowestComplete(forwards, head, order) && Sorted(lt, values, order)
      ensures ErasedAt(lt, old(Contents()), ValuesOf(values, order), k, up[0] + 1)
      ensures Valid() <==> old(ErasesCleanly(lt, values, forwards, head, order, k))
      ensures old(AllLevelsComplete()) ==> Valid() && AllLevelsComplete()
    {
      hide Accounted, Complete, Linked, FixedHeap.FixedHeap.Valid, Sorted, StrictWeakOrder, NotLess, ErasedAt, ValuesOf,
          Unlinked,
           LastBefore, WellShaped, Located, LowestComplete, ErasesCleanly, AllReached, AllReach, SearchPath;
      ghost var f, o, h, p := forwards, order, heights, up[0] + 1;
      UpdatesShape(lt, values, f, head, o, k, updates, up);
      CleanlyIs(lt, values, f, head, o, k, up);
      ghost var levels := Unlink(n, updates);
      EraseLinksExactly(lt, values, f, forwards, head, o, k, updates, up);
      if Complete(f, head, o, h) {
        UnlinkedAllLevels(lt, values, f, head, o, h, k, updates, up, levels);
        EraseKeepsComplete(lt, values, f, forwards, head, o, h, k, updates, up);
        CompleteIsLinked(forwards, head, Without(o, p), Without(h, p));
      }
      EraseKeepsSorted(lt, values, o, k, p);
      GiveBlock(f, head, o, heap.free, head, p);
      size := size - 1;
      order, heights := Without(o, p), Without(h, p);
      heap.Free(n);
    }

    /** The loop of `erase`: as long as a level's link leads to the node, lead it past. */
    method Unlink(n: nat, updates: seq<nat>) returns (ghost levels: nat)
      requires head < |forwards| && n < |forwards| && |updates| == MAX_LEVEL
      requires forall x :: 0 <= x < |forwards| ==> |forwards[x]| == MAX_LEVEL
      requires forall l :: 0 <= l < MAX_LEVEL ==> updates[l] < |forwards| && updates[l] != n
      modifies this`forwards
      ensures levels == UnlinkedLevels(old(forwards), head, updates, n, 0)
      ensures Unlinked(old(forwards), forwards, updates, n, levels)
    {
      hide UnlinkedLevels;
      var currentLevel := FindHighestLevel(head);
      ghost var f := forwards;
      var i := 0;
      LevelsStep(f, head, updates, n, i, currentLevel);
      while i <= currentLevel && forwards[updates[i]][i] == n
        invariant 0 <= i <= currentLevel + 1 && Unlinked(f, forwards, updates, n, i)
        invariant UnlinkedLevels(f, head, updates, n, 0) == UnlinkedLevels(f, head, updates, n, i)
      {
        LevelsStep(f, head, updates, n, i, currentLevel);
        forwards := forwards[updates[i] := forwards[updates[i]][i := forwards[n][i]]];
        i := i + 1;
      }
      LevelsStep(f, head, updates, n, i, currentLevel);
      levels := i;
    }

    method CopyLinks(node: nat)
      requires node < |forwards| && head < |forwards| && node != head && forall x :: 0 <= x < |forwards| ==>
          |forwards[x]| == MAX_LEVEL
      modifies this`forwards
      ensures forwards == old(forwards)[head := old(forwards)[node]]
    {
      ghost var f := forwards;
      var i := 0;
      while i < MAX_LEVEL
        invariant 0 <= i <= MAX_LEVEL && |forwards| == |f|
        invariant |forwards[head]| == MAX_LEVEL && forwards == f[head := forwards[head]]
        invariant forall l :: 0 <= l < i ==> forwards[head][l] == f[node][l]
      {
        assert forwards[node] == f[node];
        forwards := forwards[head := forwards[head][i := forwards[node][i]]];
        i := i + 1;
      }
      assert forwards[head] == f[node];
    }

    /** `pop_front`: every link of the head is overwritten by the removed node's. Giving the block back
        writes only the block's header, so an iterator to the node can still be read. */
    method PopFront()
      requires Valid() && size > 0
      modifies this, heap, heap.headers
      ensures Valid() && Contents() == old(Contents())[1..]
      ensures values == old(values)
    {
      var oldFirst := forwards[head][0];
      assert forwards[NodeAt(head, order, -1)][0] == From(order, 0);
      ghost var f := forwards;
      CopyLinks(oldFirst);
      PopKeepsLinked(f, forwards, head, order);
      size := size - 1;
      order, heights := order[1..], heights[1..];
      heap.Free(oldFirst);
    }

  }

  /** The nodes less than `k` are a prefix of the list. */
  lemma LessUpTo<V(!new)>(lt: (V, V) -> bool, values: map<int, V>, order: seq<nat>, at: int, k: V)
    requires StrictWeakOrder(lt) && Sorted(lt, values, order) && -1 <= at < |order|
    requires at >= 0 ==> lt(values[order[at]], k)
    requires NotLess(lt, values, From(order, at + 1), k)
    ensures forall i :: 0 <= i < |order| ==> (i <= at <==> lt(values[order[i]], k))
  {
    forall i | 0 <= i < |order| ensures i <= at <==> lt(values[order[i]], k) {
      if i < at {
        assert lt(values[order[i]], values[order[at]]);
      } else if i > at + 1 {
        assert lt(values[order[at + 1]], values[order[i]]);
      }
    }
  }

  /** Only the node the search stops at can equal `v`. */
  lemma OnlyCandidate<V(!new)>(lt: (V, V) -> bool, values: map<int, V>, order: seq<nat>, v: V, p: nat)
    requires StrictWeakOrder(lt) && Sorted(lt, values, order) && p <= |order|
    requires forall i :: 0 <= i < |order| ==> (i < p <==> lt(values[order[i]], v))
    requires p < |order| ==> !Equal(lt, values[order[p]], v)
    ensures forall i :: 0 <= i < |order| ==> !Equal(lt, values[order[i]], v)
  {
    forall i | p < i < |order| ensures lt(v, values[order[i]]) {
      assert lt(values[order[p]], values[order[i]]);
    }
  }

  lemma TakeBlock(order: seq<nat>, free: seq<nat>, blocks: nat, node: nat, p: nat)
    requires Accounted(order, [node] + free, blocks) && node !in free && p <= |order|
    ensures node !in order && Accounted(With(order, p, node), free, blocks) && |order| < blocks
  {
  }

  lemma InsertKeepsSorted<V(!new)>(lt: (V, V) -> bool, values: map<int, V>, order: seq<nat>, v: V, p: nat, node: nat)
    requires StrictWeakOrder(lt) && Sorted(lt, values, order) && p <= |order| && node !in order
    requires forall i :: 0 <= i < |order| ==> (i < p <==> lt(values[order[i]], v))
    requires p < |order| ==> !Equal(lt, values[order[p]], v)
    ensures forall i :: p <= i < |order| ==> lt(v, values[order[i]])
    ensures Sorted(lt, values[node := v], With(order, p, node))
    ensures InsertedAt(lt, ValuesOf(values, order), ValuesOf(values[node := v], With(order, p, node)), v, p)
  {
    hide ValuesOf;
    forall i | p <= i < |order| ensures lt(v, values[order[i]]) {
      if i > p { assert lt(values[order[p]], values[order[i]]); }
    }
    ValuesWith(values, order, v, p, node);
  }

  lemma ValuesWith<V>(values: map<int, V>, order: seq<nat>, v: V, p: nat, node: nat)
    requires (forall i :: 0 <= i < |order| ==> order[i] in values) && p <= |order| && node !in order
    ensures forall i :: 0 <= i < |With(order, p, node)| ==> With(order, p, node)[i] in values[node := v]
    ensures ValuesOf(values[node := v], With(order, p, node))
        == ValuesOf(values, order)[..p] + [v] + ValuesOf(values, order)[p..]
  {
    hide With;
    forall i | 0 <= i < |With(order, p, node)| ensures With(order, p, node)[i] in values[node := v] {
      if i > p { assert With(order, p, node)[(i - 1) + 1] == order[i - 1]; }
    }
    var a, b := ValuesOf(values[node := v], With(order, p, node)),
      ValuesOf(values, order)[..p] + [v] + ValuesOf(values, order)[p..];
    forall i | 0 <= i < |a| ensures a[i] == b[i] {
      if i > p { assert With(order, p, node)[(i - 1) + 1] == order[i - 1]; }
    }
  }

  /** Where the node at position `i` stands once a node is put at `p`. */
  function Shifted(i: int, p: nat): int {
    if i < p then i else i + 1
  }

  lemma PointsPastShifted(o: seq<nat>, p: nat, node: nat, i: int, link: int)
    requires -1 <= i < |o| && p <= |o| && PointsPast(o, i, link)
    ensures PointsPast(With(o, p, node), Shifted(i, p), link)
  {
    if link != NULL {
      var j: nat :| i < j < |o| && o[j] == link;
      assert With(o, p, node)[Shifted(j, p)] == link;
    }
  }

  /** The link the new node takes over leads past the place where it goes. */
  lemma TakenOverLink<V(!new)>(lt: (V, V) -> bool, values: map<int, V>, f: Forwards, head: nat, o: seq<nat>,
                               v: V, updates: seq<nat>, up: seq<int>, node: nat, l: nat)
    requires WellShaped(f, head, o) && Linked(f, head, o) && Sorted(lt, values, o) && l < MAX_LEVEL
    requires Located(lt, values, f, head, o, v, updates, up)
    ensures PointsPast(With(o, up[0] + 1, node), up[0] + 1, f[updates[l]][l])
  {
    var link := f[updates[l]][l];
    if link != NULL {
      assert PointsPast(o, up[l], f[NodeAt(head, o, up[l])][l]);
      var j: nat :| up[l] < j < |o| && o[j] == link;
      assert !lt(values[link], v);
      assert With(o, up[0] + 1, node)[j + 1] == link;
    }
  }

  lemma InsertKeepsShape(f: Forwards, g: Forwards, head: nat, o: seq<nat>, p: nat, node: nat)
    requires WellShaped(f, head, o) && p <= |o| && node < |f| && node != head && node !in o
    requires |g| == |f| && forall x :: 0 <= x < |g| ==> |g[x]| == MAX_LEVEL
    ensures WellShaped(g, head, With(o, p, node))
  {
  }

  lemma NodeShifted(head: nat, o: seq<nat>, p: nat, node: nat, i: int)
    requires -1 <= i < |o| && p <= |o|
    ensures NodeAt(head, With(o, p, node), Shifted(i, p)) == NodeAt(head, o, i)
    ensures From(With(o, p, node), Shifted(i, p) + 1) == if i + 1 == p then node else From(o, i + 1)
  {
  }

  lemma InsertKeepsLinked<V(!new)>(lt: (V, V) -> bool, values: map<int, V>, f: Forwards, g: Forwards, head: nat,
                                   o: seq<nat>, o': seq<nat>, v: V, updates: seq<nat>, up: seq<int>, node: nat,
                                   level: nat)
    requires WellShaped(f, head, o) && Linked(f, head, o) && Sorted(lt, values, o)
    requires Located(lt, values, f, head, o, v, updates, up)
    requires level < MAX_LEVEL && node < |f| && node != head && node !in o && Spliced(f, g, updates, node, level + 1)
    requires o' == With(o, up[0] + 1, node)
    ensures WellShaped(g, head, o') && Linked(g, head, o')
  {
    hide Sorted, NotLess, With, Spliced, PointsPast, Located, Linked, LowestComplete, From;
    SplicedShape(f, g, updates, node, level + 1);
    LocatedLess(lt, values, f, head, o, v, updates, up);
    var p := up[0] + 1;
    InsertKeepsShape(f, g, head, o, p, node);
    forall i | -1 <= i < |o'| ensures LinkedAt(g, head, o', i) {
      if i == p {
        NewNodeLinked(lt, values, f, g, head, o, o', v, updates, up, node, level);
      } else {
        OldNodeLinked(lt, values, f, g, head, o, o', v, updates, up, node, level, if i < p then i else i - 1);
      }
    }
    LinkedIs(g, head, o');
  }

  lemma SplicedShape(f: Forwards, g: Forwards, updates: seq<nat>, node: nat, levels: nat)
    requires Spliced(f, g, updates, node, levels)
    ensures |g| == |f| && forall x :: 0 <= x < |g| ==> |g[x]| == MAX_LEVEL
  {
  }

  ghost predicate LinkedAt(f: Forwards, head: nat, order: seq<nat>, i: int)
    requires WellShaped(f, head, order) && -1 <= i < |order|
  {
    var links := f[NodeAt(head, order, i)];
    links[0] == From(order, i + 1) && forall l :: 0 <= l < MAX_LEVEL ==> PointsPast(order, i, links[l])
  }

  lemma LinkedIs(f: Forwards, head: nat, order: seq<nat>)
    requires WellShaped(f, head, order) && forall i :: -1 <= i < |order| ==> LinkedAt(f, head, order, i)
    ensures Linked(f, head, order)
  {
    hide PointsPast;
    forall i | -1 <= i < |order|
      ensures f[NodeAt(head, order, i)][0] == From(order, i + 1)
      ensures forall l :: 0 <= l < MAX_LEVEL ==> PointsPast(order, i, f[NodeAt(head, order, i)][l])
    {
      assert LinkedAt(f, head, order, i);
    }
  }

  lemma UpdatesInRange<V(!new)>(lt: (V, V) -> bool, values: map<int, V>, f: Forwards, head: nat, o: seq<nat>,
                                v: V, updates: seq<nat>, up: seq<int>)
    requires WellShaped(f, head, o) && Sorted(lt, values, o) && Located(lt, values, f, head, o, v, updates, up)
    ensures |updates| == |up| == MAX_LEVEL && 0 <= up[0] + 1 <= |o|
    ensures forall l :: 0 <= l < MAX_LEVEL ==> updates[l] < |f| && (updates[l] == head || updates[l] in o)
  {
  }

  lemma InsertKeepsAll<V(!new)>(lt: (V, V) -> bool, values: map<int, V>, f: Forwards, g: Forwards, head: nat,
                                o: seq<nat>, h: seq<nat>, v: V, updates: seq<nat>, up: seq<int>, node: nat, level: nat)
    requires StrictWeakOrder(lt) && WellShaped(f, head, o) && Linked(f, head, o) && Sorted(lt, values, o) && |h| == |o|
    requires Located(lt, values, f, head, o, v, updates, up) && (Complete(f, head, o, h) ==> AllReach(h, up))
    requires up[0] + 1 < |o| ==> !Equal(lt, values[o[up[0] + 1]], v)
    requires level < MAX_LEVEL && node < |f| && node != head && node !in o && Spliced(f, g, updates, node, level + 1)
    ensures var o', h', p := With(o, up[0] + 1, node), With(h, up[0] + 1, level + 1), up[0] + 1;
            && WellShaped(g, head, o') && Linked(g, head, o') && Sorted(lt, values[node := v], o')
            && (Complete(f, head, o, h) ==> Complete(g, head, o', h'))
            && InsertedAt(lt, ValuesOf(values, o), ValuesOf(values[node := v], o'), v, p)
  {
    hide Linked, Complete, InsertedAt, With, ValuesOf;
    var o', p := With(o, up[0] + 1, node), up[0] + 1;
    InsertKeepsSorted(lt, values, o, v, p, node);
    InsertKeepsLinked(lt, values, f, g, head, o, o', v, updates, up, node, level);
    if Complete(f, head, o, h) {
      InsertKeepsComplete(lt, values, f, g, head, o, o', h, v, updates, up, node, level);
    }
  }

  lemma NewNodeLinked<V(!new)>(lt: (V, V) -> bool, values: map<int, V>, f: Forwards, g: Forwards, head: nat,
                               o: seq<nat>, o': seq<nat>, v: V, updates: seq<nat>, up: seq<int>, node: nat, level: nat)
    requires WellShaped(f, head, o) && Linked(f, head, o) && Sorted(lt, values, o)
    requires Located(lt, values, f, head, o, v, updates, up)
    requires level < MAX_LEVEL && node < |f| && Spliced(f, g, updates, node, level + 1)
    requires o' == With(o, up[0] + 1, node)
    ensures g[node][0] == From(o', up[0] + 2)
    ensures forall l :: 0 <= l < MAX_LEVEL ==> PointsPast(o', up[0] + 1, g[node][l])
  {
    assert f[NodeAt(head, o, up[0])][0] == From(o, up[0] + 1);
    forall l | 0 <= l < MAX_LEVEL ensures PointsPast(o', up[0] + 1, g[node][l]) {
      TakenOverLink(lt, values, f, head, o, v, updates, up, node, l);
    }
  }

  lemma OldNodeLinked<V(!new)>(lt: (V, V) -> bool, values: map<int, V>, f: Forwards, g: Forwards, head: nat,
                               o: seq<nat>, o': seq<nat>, v: V, updates: seq<nat>, up: seq<int>, node: nat, level: nat,
                               i: int)
    requires WellShaped(f, head, o) && Linked(f, head, o) && Sorted(lt, values, o)
    requires Located(lt, values, f, head, o, v, updates, up)
    requires level < MAX_LEVEL && node < |f| && node != head && node !in o && Spliced(f, g, updates, node, level + 1)
    requires o' == With(o, up[0] + 1, node) && -1 <= i < |o|
    ensures g[NodeAt(head, o, i)][0] == From(o', Shifted(i, up[0] + 1) + 1)
    ensures forall l :: 0 <= l < MAX_LEVEL ==> PointsPast(o', Shifted(i, up[0] + 1), g[NodeAt(head, o, i)][l])
    ensures NodeAt(head, o', Shifted(i, up[0] + 1)) == NodeAt(head, o, i)
  {
    var p, x := up[0] + 1, NodeAt(head, o, i);
    NodeShifted(head, o, p, node, i);
    assert f[x][0] == From(o, i + 1);
    forall l | 0 <= l < MAX_LEVEL ensures PointsPast(o', Shifted(i, p), g[x][l]) {
      if l <= level && x == updates[l] {
        assert i == up[l];
        assert o'[p] == node;
      } else {
        PointsPastShifted(o, p, node, i, f[x][l]);
      }
    }
  }

  lemma PopKeepsLinked(f: Forwards, g: Forwards, head: nat, order: seq<nat>)
    requires WellShaped(f, head, order) && Linked(f, head, order) && order != []
    requires g == f[head := f[order[0]]]
    ensures WellShaped(g, head, order[1..]) && Linked(g, head, order[1..])
  {
    var tail := order[1..];
    forall i: int | -1 <= i < |tail|
      ensures g[NodeAt(head, tail, i)][0] == From(tail, i + 1)
      ensures forall l :: 0 <= l < MAX_LEVEL ==> PointsPast(tail, i, g[NodeAt(head, tail, i)][l])
    {
      assert f[NodeAt(head, order, i + 1)][0] == From(order, i + 2);
      var links := f[NodeAt(head, order, i + 1)];
      forall l | 0 <= l < MAX_LEVEL ensures PointsPast(tail, i, links[l]) {
        PointsPastDropped(order, i + 1, links[l]);
      }
    }
  }

  lemma PointsPastDropped(order: seq<nat>, i: int, link: int)
    requires 0 <= i < |order| && PointsPast(order, i, link)
    ensures PointsPast(order[1..], i - 1, link)
  {
    if link != NULL {
      var j: nat :| i < j < |order| && order[j] == link;
      assert order[1..][j - 1] == link;
    }
  }

  lemma LinkReaches(f: Forwards, head: nat, order: seq<nat>, heights: seq<nat>, i: int, l: nat, j: nat)
    requires WellShaped(f, head, order) && Complete(f, head, order, heights) && l < MAX_LEVEL
    requires -1 <= i < j < |order| && f[NodeAt(head, order, i)][l] == order[j]
    ensures Reaches(heights, i, l) && Reaches(heights, j, l)
  {
  }

  /** In a complete list the search stops on each level at the last node before the place it looks for. */
  lemma SearchStopsAtLast<V(!new)>(lt: (V, V) -> bool, values: map<int, V>, f: Forwards, head: nat, o: seq<nat>,
      h: seq<nat>,
                                   v: V, updates: seq<nat>, up: seq<int>, l: nat)
    requires WellShaped(f, head, o) && Sorted(lt, values, o) && Complete(f, head, o, h) && l < MAX_LEVEL
    requires Located(lt, values, f, head, o, v, updates, up) && AllReach(h, up)
    ensures LastBefore(h, up[0] + 1, l, up[l])
  {
    assert f[NodeAt(head, o, up[l])][l] == From(o, NextOn(h, up[l] + 1, l));
  }

  lemma InsertKeepsComplete<V(!new)>(lt: (V, V) -> bool, values: map<int, V>, f: Forwards, g: Forwards, head: nat,
                                     o: seq<nat>, o': seq<nat>, h: seq<nat>, v: V, updates: seq<nat>, up: seq<int>,
                                     node: nat, level: nat)
    requires WellShaped(f, head, o) && Complete(f, head, o, h) && Sorted(lt, values, o) && WellShaped(g, head, o')
    requires Located(lt, values, f, head, o, v, updates, up) && AllReach(h, up)
    requires level < MAX_LEVEL && node < |f| && node != head && node !in o && Spliced(f, g, updates, node, level + 1)
    requires o' == With(o, up[0] + 1, node)
    ensures Complete(g, head, o', With(h, up[0] + 1, level + 1))
  {
    hide Sorted, NotLess, LevelLink, Linked;
    var p := up[0] + 1;
    var h' := With(h, p, level + 1);
    forall i: int, l: int | -1 <= i < |o'| && 0 <= l < MAX_LEVEL
      ensures g[NodeAt(head, o', i)][l] == LevelLink(o', h', i, l)
    {
      LinkAfterInsert(lt, values, f, g, head, o, o', h, v, updates, up, node, level, i, l);
    }
    CompleteIs(g, head, o', h');
  }

  lemma CompleteIs(f: Forwards, head: nat, order: seq<nat>, heights: seq<nat>)
    requires WellShaped(f, head, order) && |heights| == |order|
    requires forall i :: 0 <= i < |heights| ==> 1 <= heights[i] <= MAX_LEVEL
    ensures Complete(f, head, order, heights) <==> forall i: int, l: int :: -1 <= i < |order| && 0 <= l < MAX_LEVEL ==>
              f[NodeAt(head, order, i)][l] == LevelLink(order, heights, i, l)
  {
  }

  lemma LinkAfterInsert<V(!new)>(lt: (V, V) -> bool, values: map<int, V>, f: Forwards, g: Forwards, head: nat,
                                 o: seq<nat>, o': seq<nat>, h: seq<nat>, v: V, updates: seq<nat>, up: seq<int>,
                                 node: nat, level: nat,
                                 i: int, l: nat)
    requires WellShaped(f, head, o) && Complete(f, head, o, h) && Sorted(lt, values, o) && WellShaped(g, head, o')
    requires Located(lt, values, f, head, o, v, updates, up) && AllReach(h, up)
    requires level < MAX_LEVEL && node < |f| && node != head && node !in o && Spliced(f, g, updates, node, level + 1)
    requires o' == With(o, up[0] + 1, node)
    requires -1 <= i < |o'| && l < MAX_LEVEL
    ensures g[NodeAt(head, o', i)][l] == LevelLink(o', With(h, up[0] + 1, level + 1), i, l)
  {
    hide Sorted, NotLess, LevelLink, With, NextOn, Complete, WellShaped;
    var p := up[0] + 1;
    SearchStopsAtLast(lt, values, f, head, o, h, v, updates, up, l);
    if i == p {
      LinkIs(f, head, o, h, up[l], l);
      LevelLinkIs(o, h, up[l], l);
      NewLink(o, h, up[l], p, node, level, l);
      LevelLinkIs(o', With(h, p, level + 1), i, l);
    } else {
      var i0 := if i < p then i else i - 1;
      LinkIs(f, head, o, h, i0, l);
      OldLink(o, h, up[l], p, node, level, l, i0);
      SplicedAt(f, g, head, o, updates, up, node, level, i0, l);
    }
  }

  lemma LevelLinkIs(o: seq<nat>, h: seq<nat>, i: int, l: nat)
    requires -1 <= i < |h|
    ensures LevelLink(o, h, i, l) == if i == -1 || l < h[i] then From(o, NextOn(h, i + 1, l)) else NULL
  {
  }

  lemma LinkIs(f: Forwards, head: nat, o: seq<nat>, h: seq<nat>, i: int, l: nat)
    requires WellShaped(f, head, o) && Complete(f, head, o, h) && -1 <= i < |o| && l < MAX_LEVEL
    ensures NodeAt(head, o, i) < |f| && |f[NodeAt(head, o, i)]| == MAX_LEVEL && |h| == |o|
    ensures f[NodeAt(head, o, i)][l] == LevelLink(o, h, i, l)
  {
  }

  lemma NextIs(h: seq<nat>, i: nat, l: nat, j: nat)
    requires i <= j <= |h| && (j < |h| ==> l < h[j]) && forall k :: i <= k < j ==> h[k] <= l
    ensures NextOn(h, i, l) == j
  {
  }

  lemma NextWith(h: seq<nat>, p: nat, x: nat, i: nat, l: nat)
    requires p <= |h| && i <= |h|
    ensures i >= p ==> NextOn(With(h, p, x), i + 1, l) == NextOn(h, i, l) + 1
    ensures i <= p && NextOn(h, i, l) < p ==> NextOn(With(h, p, x), i, l) == NextOn(h, i, l)
    ensures i <= p <= NextOn(h, i, l) ==> NextOn(With(h, p, x), i, l) == if l < x then p else NextOn(h, i, l) + 1
  {
    hide With;
    var h', q := With(h, p, x), NextOn(h, i, l);
    if i >= p {
      NextWithAfter(h, p, x, i, l);
    }
    if i <= p {
      if q < p {
        NextIs(h', i, l, q);
      } else if l < x {
        NextIs(h', i, l, p);
      } else {
        NextWithAfter(h, p, x, p, l);
        NextIs(h, p, l, q);
        forall k | i <= k < q + 1 ensures h'[k] <= l {
          if k > p { assert h'[(k - 1) + 1] == h[k - 1]; }
        }
        NextIs(h', i, l, q + 1);
      }
    }
  }

  lemma NextWithAfter(h: seq<nat>, p: nat, x: nat, i: nat, l: nat)
    requires p <= i <= |h|
    ensures NextOn(With(h, p, x), i + 1, l) == NextOn(h, i, l) + 1
  {
    hide With;
    var h', q := With(h, p, x), NextOn(h, i, l);
    forall k | i + 1 <= k < q + 1 ensures h'[k] <= l {
      assert h'[(k - 1) + 1] == h[k - 1];
    }
    NextIs(h', i + 1, l, q + 1);
  }

  lemma FromWith(o: seq<nat>, p: nat, node: nat, j: nat)
    requires p <= |o|
    ensures j < p ==> From(With(o, p, node), j) == From(o, j)
    ensures j >= p ==> From(With(o, p, node), j + 1) == From(o, j)
    ensures From(With(o, p, node), p) == node
  {
  }

  function LevelLink(o: seq<nat>, h: seq<nat>, i: int, l: nat): int
    requires -1 <= i < |h|
  {
    if Reaches(h, i, l) then From(o, NextOn(h, i + 1, l)) else NULL
  }

  lemma NewLink(o: seq<nat>, h: seq<nat>, u: int, p: nat, node: nat, level: nat, l: nat)
    requires p <= |o| == |h| && LastBefore(h, p, l, u)
    ensures From(o, NextOn(h, u + 1, l)) == From(With(o, p, node), NextOn(With(h, p, level + 1), p + 1, l))
  {
    hide With;
    NextIs(h, u + 1, l, NextOn(h, p, l));
    NextWithAfter(h, p, level + 1, p, l);
    FromWith(o, p, node, NextOn(h, p, l));
  }

  lemma OldLink(o: seq<nat>, h: seq<nat>, u: int, p: nat, node: nat, level: nat, l: nat, i: int)
    requires p <= |o| == |h| && LastBefore(h, p, l, u) && -1 <= i < |o|
    ensures LevelLink(With(o, p, node), With(h, p, level + 1), Shifted(i, p), l)
         == if l <= level && i == u then node else LevelLink(o, h, i, l)
  {
    hide With, From, NextOn;
    var q := NextOn(h, i + 1, l);
    NextWith(h, p, level + 1, i + 1, l);
    FromWith(o, p, node, q);
    if i < p <= q && Reaches(h, i, l) {
      assert i == u;
    }
  }

  lemma SplicedAt(f: Forwards, g: Forwards, head: nat, o: seq<nat>, updates: seq<nat>, up: seq<int>, node: nat,
      level: nat, i: int, l: nat)
    requires WellShaped(f, head, o) && level < MAX_LEVEL && Spliced(f, g, updates, node, level + 1)
    requires node !in o && node != head && -1 <= i < |o| && l < MAX_LEVEL == |up| && -1 <= up[l] < |o|
    requires updates[l] == NodeAt(head, o, up[l])
    ensures NodeAt(head, o, i) < |g| == |f| && |g[NodeAt(head, o, i)]| == |f[NodeAt(head, o, i)]| == MAX_LEVEL
    ensures g[NodeAt(head, o, i)][l] == if l <= level && i == up[l] then node else f[NodeAt(head, o, i)][l]
  {
  }

  /** The node is taken off exactly the levels it is on. */
  lemma UnlinkedAllLevels<V(!new)>(lt: (V, V) -> bool, values: map<int, V>, f: Forwards, head: nat, o: seq<nat>,
      h: seq<nat>,
                                   k: V, updates: seq<nat>, up: seq<int>, levels: nat)
    requires WellShaped(f, head, o) && Sorted(lt, values, o) && Complete(f, head, o, h)
    requires Located(lt, values, f, head, o, k, updates, up) && AllReach(h, up) && up[0] + 1 < |o|
    requires levels == UnlinkedLevels(f, head, updates, o[up[0] + 1], 0)
    ensures levels == h[up[0] + 1]
  {
    hide LevelLink, Sorted, NotLess, NextOn, UnlinkedLevels;
    var p := up[0] + 1;
    LevelsEnd(f, head, updates, o[p], 0);
    if levels > 0 {
      LinkedIfReaches(lt, values, f, head, o, h, k, updates, up, levels - 1);
      assert f[updates[levels - 1]][levels - 1] == o[p];
    }
    if levels < MAX_LEVEL {
      LinkedIfReaches(lt, values, f, head, o, h, k, updates, up, levels);
      LinkIs(f, head, o, h, -1, levels);
      LevelLinkIs(o, h, -1, levels);
    }
    HeightBound(f, head, o, h, p);
  }

  lemma HeightBound(f: Forwards, head: nat, o: seq<nat>, h: seq<nat>, p: nat)
    requires WellShaped(f, head, o) && Complete(f, head, o, h) && p < |o|
    ensures h[p] <= MAX_LEVEL
  {
  }

  lemma LinkedIfReaches<V(!new)>(lt: (V, V) -> bool, values: map<int, V>, f: Forwards, head: nat, o: seq<nat>,
      h: seq<nat>,
                                 k: V, updates: seq<nat>, up: seq<int>, l: nat)
    requires WellShaped(f, head, o) && Sorted(lt, values, o) && Complete(f, head, o, h) && l < MAX_LEVEL
    requires Located(lt, values, f, head, o, k, updates, up) && AllReach(h, up) && up[0] + 1 < |o|
    ensures f[updates[l]][l] == o[up[0] + 1] <==> l < h[up[0] + 1]
  {
    hide Complete, Sorted, NotLess;
    var p, q := up[0] + 1, NextOn(h, up[l] + 1, l);
    SearchStopsAtLast(lt, values, f, head, o, h, k, updates, up, l);
    LinkIs(f, head, o, h, up[l], l);
    if l < h[p] {
      NextIs(h, up[l] + 1, l, p);
    } else if q < |o| {
      assert o[q] != o[p];
    }
  }

  lemma NextWithout(h: seq<nat>, p: nat, i: nat, l: nat)
    requires p < |h| && i <= |h|
    ensures i > p ==> NextOn(Without(h, p), i - 1, l) == NextOn(h, i, l) - 1
    ensures i <= p && NextOn(h, i, l) < p ==> NextOn(Without(h, p), i, l) == NextOn(h, i, l)
    ensures i <= p <= NextOn(h, i, l) ==> NextOn(Without(h, p), i, l) == NextOn(h, p + 1, l) - 1
    ensures i <= p < NextOn(h, i, l) ==> NextOn(h, i, l) == NextOn(h, p + 1, l)
  {
    hide Without;
    var h', q := Without(h, p), NextOn(h, i, l);
    if i > p {
      NextWithoutAfter(h, p, i, l);
    } else if q < p {
      NextIs(h', i, l, q);
    } else {
      NextWithoutAfter(h, p, p + 1, l);
      NextIs(h', i, l, NextOn(h, p + 1, l) - 1);
      if q > p { NextIs(h, i, l, NextOn(h, p + 1, l)); }
    }
  }

  lemma NextWithoutAfter(h: seq<nat>, p: nat, i: nat, l: nat)
    requires p < i <= |h|
    ensures NextOn(Without(h, p), i - 1, l) == NextOn(h, i, l) - 1
    ensures forall k :: i - 1 <= k < NextOn(h, i, l) - 1 ==> Without(h, p)[k] <= l
  {
    hide Without;
    var h', q := Without(h, p), NextOn(h, i, l);
    forall k | i - 1 <= k < q - 1 ensures h'[k] <= l {
      assert h'[(k + 1) - 1] == h[k + 1];
    }
    NextIs(h', i - 1, l, q - 1);
  }

  lemma FromWithout(o: seq<nat>, p: nat, j: nat)
    requires p < |o|
    ensures j < p ==> From(Without(o, p), j) == From(o, j)
    ensures j > p ==> From(Without(o, p), j - 1) == From(o, j)
  {
  }

  lemma LinkWithout(o: seq<nat>, h: seq<nat>, u: int, p: nat, l: nat, i: int)
    requires p < |o| == |h| && LastBefore(h, p, l, u) && -1 <= i < |o| && i != p
    ensures LevelLink(Without(o, p), Without(h, p), if i < p then i else i - 1, l)
         == if l < h[p] && i == u then LevelLink(o, h, p, l) else LevelLink(o, h, i, l)
  {
    hide Without, From, NextOn;
    var q := NextOn(h, i + 1, l);
    NextWithout(h, p, i + 1, l);
    FromWithout(o, p, q);
    FromWithout(o, p, NextOn(h, p + 1, l));
    if i < p <= q && Reaches(h, i, l) {
      assert i == u;
    }
  }

  lemma UnlinkedAt(f: Forwards, g: Forwards, head: nat, o: seq<nat>, updates: seq<nat>, u: int, n: nat, levels: nat,
      i: int, l: nat)
    requires WellShaped(f, head, o) && Unlinked(f, g, updates, n, levels)
    requires -1 <= i < |o| && l < MAX_LEVEL && -1 <= u < |o| && updates[l] == NodeAt(head, o, u)
    ensures NodeAt(head, o, i) < |g| == |f| && |g[NodeAt(head, o, i)]| == |f[n]| == |f[NodeAt(head, o, i)]| == MAX_LEVEL
    ensures g[NodeAt(head, o, i)][l] == if l < levels && i == u then f[n][l] else f[NodeAt(head, o, i)][l]
  {
  }

  lemma LinkAfterErase<V(!new)>(lt: (V, V) -> bool, values: map<int, V>, f: Forwards, g: Forwards, head: nat,
      o: seq<nat>, h: seq<nat>,
                                k: V, updates: seq<nat>, up: seq<int>, i: int, l: nat)
    requires WellShaped(f, head, o) && Sorted(lt, values, o) && Complete(f, head, o, h)
    requires Located(lt, values, f, head, o, k, updates, up) && AllReach(h, up) && up[0] + 1 < |o|
    requires Unlinked(f, g, updates, o[up[0] + 1], h[up[0] + 1])
    requires -1 <= i < |o| - 1 && l < MAX_LEVEL
    ensures var x := NodeAt(head, Without(o, up[0] + 1), i);
            x < |g| && |g[x]| == MAX_LEVEL && g[x][l] == LevelLink(Without(o, up[0] + 1), Without(h, up[0] + 1), i, l)
  {
    hide Sorted, NotLess, LevelLink, Without, NextOn, Complete, WellShaped, Unlinked;
    var p := up[0] + 1;
    var i0 := if i < p then i else i + 1;
    SearchStopsAtLast(lt, values, f, head, o, h, k, updates, up, l);
    LinkIs(f, head, o, h, i0, l);
    LinkIs(f, head, o, h, p, l);
    LinkWithout(o, h, up[l], p, l, i0);
    UnlinkedAt(f, g, head, o, updates, up[l], o[p], h[p], i0, l);
    if i >= p { assert Without(o, p)[i0 - 1] == o[i0]; }
  }

  lemma EraseKeepsComplete<V(!new)>(lt: (V, V) -> bool, values: map<int, V>, f: Forwards, g: Forwards, head: nat,
      o: seq<nat>, h: seq<nat>,
                                    k: V, updates: seq<nat>, up: seq<int>)
    requires WellShaped(f, head, o) && Sorted(lt, values, o) && Complete(f, head, o, h)
    requires Located(lt, values, f, head, o, k, updates, up) && AllReach(h, up) && up[0] + 1 < |o|
    requires Unlinked(f, g, updates, o[up[0] + 1], h[up[0] + 1])
    ensures WellShaped(g, head, Without(o, up[0] + 1))
    ensures Complete(g, head, Without(o, up[0] + 1), Without(h, up[0] + 1))
  {
    hide Sorted, NotLess, LevelLink, NextOn;
    var p := up[0] + 1;
    var o', h' := Without(o, p), Without(h, p);
    forall i: int, l: int | -1 <= i < |o'| && 0 <= l < MAX_LEVEL
      ensures NodeAt(head, o', i) < |g| && |g[NodeAt(head, o', i)]| == MAX_LEVEL
      ensures g[NodeAt(head, o', i)][l] == LevelLink(o', h', i, l)
    {
      LinkAfterErase(lt, values, f, g, head, o, h, k, updates, up, i, l);
    }
    CompleteIs(g, head, o', h');
  }

  lemma CompleteIsLinked(f: Forwards, head: nat, order: seq<nat>, heights: seq<nat>)
    requires WellShaped(f, head, order) && Complete(f, head, order, heights)
    ensures Linked(f, head, order)
  {
    forall i: int | -1 <= i < |order|
      ensures f[NodeAt(head, order, i)][0] == From(order, i + 1)
      ensures forall l :: 0 <= l < MAX_LEVEL ==> PointsPast(order, i, f[NodeAt(head, order, i)][l])
    {
      LinkIs(f, head, order, heights, i, 0);
      NextIs(heights, i + 1, 0, i + 1);
      var links := f[NodeAt(head, order, i)];
      forall l | 0 <= l < MAX_LEVEL ensures PointsPast(order, i, links[l]) {
        LinkIs(f, head, order, heights, i, l);
      }
    }
  }

  lemma EraseKeepsSorted<V(!new)>(lt: (V, V) -> bool, values: map<int, V>, order: seq<nat>, k: V, p: nat)
    requires Sorted(lt, values, order) && p < |order| && Equal(lt, values[order[p]], k)
    ensures Sorted(lt, values, Without(order, p))
    ensures ErasedAt(lt, ValuesOf(values, order), ValuesOf(values, Without(order, p)), k, p)
  {
    assert ValuesOf(values, Without(order, p)) == ValuesOf(values, order)[..p] + ValuesOf(values, order)[p + 1..];
  }

  lemma GiveBlock(f: Forwards, head: nat, order: seq<nat>, free: seq<nat>, blocks: nat, p: nat)
    requires Accounted(order, free, blocks) && p < |order| && WellShaped(f, head, order)
    ensures order[p] !in free && Accounted(Without(order, p), [order[p]] + free, blocks)
  {
  }

  lemma LevelsStep(f: Forwards, head: nat, updates: seq<nat>, n: nat, l: nat, highest: int)
    requires head < |f| && |updates| == MAX_LEVEL && l <= MAX_LEVEL && forall x :: 0 <= x < |f| ==> |f[x]| == MAX_LEVEL
    requires forall m :: 0 <= m < MAX_LEVEL ==> updates[m] < |f|
    requires -1 <= highest < MAX_LEVEL && (highest >= 0 ==> f[head][highest] != NULL)
    requires forall m :: highest < m < MAX_LEVEL ==> f[head][m] == NULL
    ensures UnlinkedLevels(f, head, updates, n, l)
         == if l <= highest && f[updates[l]][l] == n then UnlinkedLevels(f, head, updates, n, l + 1) else l
  {
  }

  /** Where the loop stops. */
  lemma {:induction false} LevelsEnd(f: Forwards, head: nat, updates: seq<nat>, n: nat, l: nat)
    requires head < |f| && |updates| == MAX_LEVEL && l <= MAX_LEVEL && forall x :: 0 <= x < |f| ==> |f[x]| == MAX_LEVEL
    requires forall m :: 0 <= m < MAX_LEVEL ==> updates[m] < |f|
    ensures var levels := UnlinkedLevels(f, head, updates, n, l);
      levels == MAX_LEVEL || f[updates[levels]][levels] != n || forall m :: levels <= m < MAX_LEVEL ==>
      f[head][m] == NULL
    decreases MAX_LEVEL - l
  {
    if !(l == MAX_LEVEL || (forall m :: l <= m < MAX_LEVEL ==> f[head][m] == NULL) || f[updates[l]][l] != n) {
      LevelsEnd(f, head, updates, n, l + 1);
    }
  }

  lemma CleanlyIs<V>(lt: (V, V) -> bool, values: map<int, V>, f: Forwards, head: nat, o: seq<nat>, k: V, up: seq<int>)
    requires WellShaped(f, head, o) && Linked(f, head, o) && Sorted(lt, values, o)
    requires up == SearchPath(lt, values, f, head, o, k) && up[0] + 1 < |o|
    ensures ErasesCleanly(lt, values, f, head, o, k)
       <==> AllReached(f, head, o, up[0] + 1, up, UnlinkedLevels(f, head, NodesAt(head, o, up), o[up[0] + 1], 0))
  {
    hide AllReached, UnlinkedLevels, Linked, Sorted, SearchPath;
  }

  lemma UpdatesShape<V>(lt: (V, V) -> bool, values: map<int, V>, f: Forwards, head: nat, o: seq<nat>, k: V,
      updates: seq<nat>,
                        up: seq<int>)
    requires WellShaped(f, head, o) && Sorted(lt, values, o) && Located(lt, values, f, head, o, k, updates, up)
    requires up[0] + 1 < |o|
    ensures head < |f| && head != o[up[0] + 1] < |f| && |updates| == |up| == MAX_LEVEL
    ensures updates == NodesAt(head, o, up)
    ensures forall x :: 0 <= x < |f| ==> |f[x]| == MAX_LEVEL
    ensures forall l :: 0 <= l < MAX_LEVEL ==> updates[l] < |f| && updates[l] != o[up[0] + 1]
  {
    hide Sorted, NotLess;
  }

  lemma LocatedLess<V>(lt: (V, V) -> bool, values: map<int, V>, f: Forwards, head: nat, o: seq<nat>, k: V,
      updates: seq<nat>,
                       up: seq<int>)
    requires WellShaped(f, head, o) && Sorted(lt, values, o) && Located(lt, values, f, head, o, k, updates, up)
    ensures |up| == MAX_LEVEL && -1 <= up[0] < |o|
    ensures forall i :: 0 <= i < |o| ==> o[i] in values && (i <= up[0] <==> lt(values[o[i]], k))
  {
  }

  lemma LinkedLowest(f: Forwards, head: nat, order: seq<nat>)
    requires WellShaped(f, head, order) && Linked(f, head, order)
    ensures LowestComplete(f, head, order)
  {
  }

  /** The links after the loop, by positions in the list before it. */
  lemma LinkAfterLoop(f: Forwards, g: Forwards, head: nat, o: seq<nat>, updates: seq<nat>, up: seq<int>, p: nat,
      levels: nat, i: int,
                      l: int)
    requires WellShaped(f, head, o) && p < |o| && |up| == |updates| == MAX_LEVEL && -1 <= i < |o| && 0 <= l < MAX_LEVEL
    requires -1 <= up[l] < |o| && updates[l] == NodeAt(head, o, up[l]) && Unlinked(f, g, updates, o[p], levels)
    ensures NodeAt(head, o, i) < |g| == |f| && |g[NodeAt(head, o, i)]| == MAX_LEVEL
    ensures g[NodeAt(head, o, i)][l] == if l < levels && up[l] == i then f[o[p]][l] else f[NodeAt(head, o, i)][l]
    ensures i != p ==> NodeAt(head, o, i) == NodeAt(head, Without(o, p), if i < p then i else i - 1)
  {
  }

  lemma StillShaped(f: Forwards, g: Forwards, head: nat, o: seq<nat>, p: nat, updates: seq<nat>, levels: nat)
    requires WellShaped(f, head, o) && p < |o| && Unlinked(f, g, updates, o[p], levels)
    ensures |g| == |f| && WellShaped(g, head, Without(o, p))
  {
  }

  /** A link that points past `i`, and not to the node at `p`, still does when that node is gone. */
  lemma PointsPastWithout(o: seq<nat>, p: nat, i: int, link: int)
    requires p < |o| && -1 <= i < |o| && i != p && link != o[p] && PointsPast(o, i, link)
    ensures PointsPast(Without(o, p), if i < p then i else i - 1, link)
  {
    if link != NULL {
      var j: nat :| i < j < |o| && o[j] == link;
      assert Without(o, p)[if j < p then j else j - 1] == link;
    }
  }

  /** The place before position `p` can take over the links of the node at `p`. */
  lemma PointsPastTaken(o: seq<nat>, p: nat, i: int, link: int)
    requires p < |o| && -1 <= i < p && PointsPast(o, p, link)
    ensures PointsPast(Without(o, p), i, link)
  {
    if link != NULL {
      var j: nat :| p < j < |o| && o[j] == link;
      assert Without(o, p)[j - 1] == link;
    }
  }

  lemma GoneIsNotPast(f: Forwards, head: nat, o: seq<nat>, p: nat, i: int)
    requires WellShaped(f, head, o) && p < |o|
    ensures !PointsPast(Without(o, p), i, o[p])
  {
    forall j: nat | j < |o| - 1 ensures Without(o, p)[j] != o[p] {
      assert Without(o, p)[j] == if j < p then o[j] else o[j + 1];
    }
  }

  lemma LowestIsReached(f: Forwards, head: nat, o: seq<nat>, updates: seq<nat>, u: int)
    requires WellShaped(f, head, o) && LowestComplete(f, head, o) && -1 <= u < |o| - 1 && |updates| == MAX_LEVEL
    requires updates[0] == NodeAt(head, o, u) && forall l :: 0 <= l < MAX_LEVEL ==> updates[l] < |f|
    ensures UnlinkedLevels(f, head, updates, o[u + 1], 0) >= 1
  {
    assert f[NodeAt(head, o, -1)][0] == From(o, 0) && f[NodeAt(head, o, u)][0] == From(o, u + 1);
  }

  lemma LowestAfterErase(f: Forwards, g: Forwards, head: nat, o: seq<nat>, updates: seq<nat>, up: seq<int>, levels: nat)
    requires WellShaped(f, head, o) && LowestComplete(f, head, o) && |up| == |updates| == MAX_LEVEL && up[0] + 1 < |o|
    requires forall l :: 0 <= l < MAX_LEVEL ==> -1 <= up[l] < |o| && updates[l] == NodeAt(head, o, up[l])
    requires levels == UnlinkedLevels(f, head, updates, o[up[0] + 1], 0)
    requires Unlinked(f, g, updates, o[up[0] + 1], levels)
    ensures WellShaped(g, head, Without(o, up[0] + 1)) && LowestComplete(g, head, Without(o, up[0] + 1))
  {
    var o' := Without(o, up[0] + 1);
    UpdatesInside(f, head, o, updates, up);
    hide Unlinked, Without, UnlinkedLevels, LowestComplete, WellShaped, NodeAt, From;
    StillShaped(f, g, head, o, up[0] + 1, updates, levels);
    LowestIsReached(f, head, o, updates, up[0]);
    forall i' | -1 <= i' < |o'| ensures LowestLinkIs(g, head, o', i') {
      LowestLinkAfter(f, g, head, o, updates, up, levels, i');
    }
    LowestIs(g, head, o');
  }

  lemma UpdatesInside(f: Forwards, head: nat, o: seq<nat>, updates: seq<nat>, up: seq<int>)
    requires WellShaped(f, head, o) && |up| == |updates| == MAX_LEVEL
    requires forall l :: 0 <= l < MAX_LEVEL ==> -1 <= up[l] < |o| && updates[l] == NodeAt(head, o, up[l])
    ensures head < |f| && (forall x :: 0 <= x < |f| ==> |f[x]| == MAX_LEVEL) && forall l :: 0 <= l < MAX_LEVEL ==>
        updates[l] < |f|
  {
  }

  predicate LowestLinkIs(f: Forwards, head: nat, order: seq<nat>, i: int)
    requires WellShaped(f, head, order) && -1 <= i < |order|
  {
    f[NodeAt(head, order, i)][0] == From(order, i + 1)
  }

  lemma LowestIs(f: Forwards, head: nat, order: seq<nat>)
    requires WellShaped(f, head, order)
    requires forall i :: -1 <= i < |order| ==> LowestLinkIs(f, head, order, i)
    ensures LowestComplete(f, head, order)
  {
    forall i | -1 <= i < |order| ensures f[NodeAt(head, order, i)][0] == From(order, i + 1) {
      assert LowestLinkIs(f, head, order, i);
    }
  }

  lemma LowestAt(f: Forwards, head: nat, order: seq<nat>, i: int)
    requires WellShaped(f, head, order) && LowestComplete(f, head, order) && -1 <= i < |order|
    ensures f[NodeAt(head, order, i)][0] == From(order, i + 1)
  {
  }

  lemma LowestLinkAfter(f: Forwards, g: Forwards, head: nat, o: seq<nat>, updates: seq<nat>, up: seq<int>, levels: nat,
      i: int)
    requires WellShaped(f, head, o) && LowestComplete(f, head, o) && |up| == |updates| == MAX_LEVEL && up[0] + 1 < |o|
    requires levels >= 1
    requires -1 <= up[0] < |o| && updates[0] == NodeAt(head, o, up[0]) && Unlinked(f, g, updates, o[up[0] + 1], levels)
    requires -1 <= i < |o| - 1 && WellShaped(g, head, Without(o, up[0] + 1))
    ensures LowestLinkIs(g, head, Without(o, up[0] + 1), i)
  {
    hide Unlinked, Without, LowestComplete, From;
    var p := up[0] + 1;
    var i0 := if i < p then i else i + 1;
    LinkAfterLoop(f, g, head, o, updates, up, p, levels, i0, 0);
    LowestAt(f, head, o, i0);
    LowestAt(f, head, o, p);
    FromWithout(o, p, i0 + 1);
    FromWithout(o, p, p + 1);
    assert o[p] == NodeAt(head, o, p);
    assert NodeAt(head, o, i0) == NodeAt(head, Without(o, p), i);
    assert f[NodeAt(head, o, i0)][0] == From(o, i0 + 1);
    if i0 == up[0] {
      assert g[NodeAt(head, o, i0)][0] == f[o[p]][0] == From(o, p + 1) == From(Without(o, p), p);
    } else {
      assert g[NodeAt(head, o, i0)][0] == From(o, i0 + 1);
      assert From(o, i0 + 1) == From(Without(o, p), i + 1);
    }
  }

  /** Erasing from any list that insertion and pop_front leave: the links stay right if and only if every link to the
      node is one that the search ended on and the loop gets to. */
  lemma EraseLinksExactly<V(!new)>(lt: (V, V) -> bool, values: map<int, V>, f: Forwards, g: Forwards, head: nat,
      o: seq<nat>,
                                   k: V, updates: seq<nat>, up: seq<int>)
    requires WellShaped(f, head, o) && Linked(f, head, o) && Sorted(lt, values, o)
    requires Located(lt, values, f, head, o, k, updates, up) && up[0] + 1 < |o|
    requires Unlinked(f, g, updates, o[up[0] + 1], UnlinkedLevels(f, head, updates, o[up[0] + 1], 0))
    ensures var o', levels := Without(o, up[0] + 1), UnlinkedLevels(f, head, updates, o[up[0] + 1], 0);
      && |g| == |f| && WellShaped(g, head, o') && LowestComplete(g, head, o')
      && (Linked(g, head, o') <==> AllReached(f, head, o, up[0] + 1, up, levels))
  {
    hide Unlinked, Without, Sorted, NotLess, UnlinkedLevels, LowestComplete, PointsPast, Linked, AllReached;
    var p := up[0] + 1;
    var levels := UnlinkedLevels(f, head, updates, o[p], 0);
    LinkedLowest(f, head, o);
    StillShaped(f, g, head, o, p, updates, levels);
    LowestAfterErase(f, g, head, o, updates, up, levels);
    if AllReached(f, head, o, p, up, levels) {
      ReachedStaysLinked(f, g, head, o, updates, up, levels);
    }
    if Linked(g, head, Without(o, p)) {
      LinkedWasReached(f, g, head, o, updates, up, levels);
    }
  }

  lemma ReachedStaysLinked(f: Forwards, g: Forwards, head: nat, o: seq<nat>, updates: seq<nat>, up: seq<int>,
      levels: nat)
    requires WellShaped(f, head, o) && Linked(f, head, o) && |up| == |updates| == MAX_LEVEL && up[0] + 1 < |o|
    requires forall l :: 0 <= l < MAX_LEVEL ==> -1 <= up[l] <= up[0] && updates[l] == NodeAt(head, o, up[l])
    requires Unlinked(f, g, updates, o[up[0] + 1], levels) && AllReached(f, head, o, up[0] + 1, up, levels)
    requires WellShaped(g, head, Without(o, up[0] + 1)) && LowestComplete(g, head, Without(o, up[0] + 1))
    ensures Linked(g, head, Without(o, up[0] + 1))
  {
    hide Unlinked, Without, LowestComplete, PointsPast;
    var p := up[0] + 1;
    var o' := Without(o, p);
    forall i': int, l: int | -1 <= i' < |o'| && 0 <= l < MAX_LEVEL ensures PointsPast(o', i',
      g[NodeAt(head, o', i')][l]) {
      var i := if i' < p then i' else i' + 1;
      LinkAfterLoop(f, g, head, o, updates, up, p, levels, i, l);
      assert PointsPast(o, i, f[NodeAt(head, o, i)][l]) && PointsPast(o, p, f[NodeAt(head, o, p)][l]);
      if l < levels && up[l] == i {
        PointsPastTaken(o, p, i, f[o[p]][l]);
      } else {
        PointsPastWithout(o, p, i, f[NodeAt(head, o, i)][l]);
      }
    }
  }

  lemma LinkedWasReached(f: Forwards, g: Forwards, head: nat, o: seq<nat>, updates: seq<nat>, up: seq<int>, levels: nat)
    requires WellShaped(f, head, o) && |up| == |updates| == MAX_LEVEL && up[0] + 1 < |o|
    requires forall l :: 0 <= l < MAX_LEVEL ==> -1 <= up[l] <= up[0] && updates[l] == NodeAt(head, o, up[l])
    requires Unlinked(f, g, updates, o[up[0] + 1], levels) && WellShaped(g, head, Without(o, up[0] + 1))
    requires Linked(g, head, Without(o, up[0] + 1))
    ensures AllReached(f, head, o, up[0] + 1, up, levels)
  {
    hide Unlinked, Without, LowestComplete, PointsPast;
    var p := up[0] + 1;
    var o' := Without(o, p);
    forall i: int, l: int {:trigger f[NodeAt(head, o, i)][l]} |
        -1 <= i < |o| && i != p && 0 <= l < MAX_LEVEL && f[NodeAt(head, o, i)][l] == o[p]
      ensures l < levels && up[l] == i
    {
      LinkAfterLoop(f, g, head, o, updates, up, p, levels, i, l);
      var i' := if i < p then i else i - 1;
      assert PointsPast(o', i', g[NodeAt(head, o', i')][l]);
      GoneIsNotPast(f, head, o, p, i');
    }
  }

  /** The search ends, on every level, where what follows is not less. */
  lemma {:induction false} WalkEnds<V>(lt: (V, V) -> bool, values: map<int, V>, f: Forwards, head: nat, order: seq<nat>,
      k: V, l: nat,
                                       at: int)
    requires WellShaped(f, head, order) && Linked(f, head, order) && Sorted(lt, values, order) && l < MAX_LEVEL
    requires -1 <= at < |order|
    ensures var r := Walk(lt, values, f, head, order, k, l, at);
      NotLess(lt, values, f[NodeAt(head, order, r)][l], k) && (r != at ==> lt(values[order[r]], k))
    decreases |order| - at
  {
    var link := f[NodeAt(head, order, at)][l];
    assert PointsPast(order, at, link);
    if link != NULL && lt(values[link], k) {
      var j: nat :| at < j < |order| && order[j] == link;
      WalkSteps(lt, values, f, head, order, k, l, at, j);
      WalkEnds(lt, values, f, head, order, k, l, j);
    } else {
      WalkStops(lt, values, f, head, order, k, l, at);
    }
  }

  lemma {:induction false} SearchIsBelow<V>(lt: (V, V) -> bool, values: map<int, V>, f: Forwards, head: nat,
      order: seq<nat>, k: V,
                                            l: nat)
    requires WellShaped(f, head, order) && Linked(f, head, order) && Sorted(lt, values, order) && l <= MAX_LEVEL
    ensures var r := Search(lt, values, f, head, order, k, l);
      (r >= 0 ==> lt(values[order[r]], k)) && (l < MAX_LEVEL ==> NotLess(lt, values, f[NodeAt(head, order, r)][l], k))
    decreases MAX_LEVEL - l
  {
    if l < MAX_LEVEL {
      hide Walk, NotLess;
      SearchIsBelow(lt, values, f, head, order, k, l + 1);
      SearchStep(lt, values, f, head, order, k, l);
      WalkEnds(lt, values, f, head, order, k, l, Search(lt, values, f, head, order, k, l + 1));
    }
  }

  /** The search for `k` finds the place of `k`, whatever the higher levels have lost. */
  lemma SearchFinds<V(!new)>(lt: (V, V) -> bool, values: map<int, V>, f: Forwards, head: nat, order: seq<nat>, k: V)
    requires StrictWeakOrder(lt) && WellShaped(f, head, order) && Linked(f, head, order) && Sorted(lt, values, order)
    ensures forall i :: 0 <= i < |order| ==> (i <= SearchPath(lt, values, f, head, order, k)[0]
        <==> lt(values[order[i]], k))
  {
    hide Search, NotLess;
    var u := Search(lt, values, f, head, order, k, 0);
    SearchIsBelow(lt, values, f, head, order, k, 0);
    LowestLinked(f, head, order, u);
    LessUpTo(lt, values, order, u, k);
  }

  /** Nodes 2, 0, 1 of heights 1, 2, 2 behind the head 3: taking 2 off the front hides level 1 from the head. */
  lemma PopFrontHidesALevel(f: Forwards, popped: Forwards)
    requires f == [NO_LINKS[0 := 1][1 := 1], NO_LINKS, NO_LINKS[0 := 0], NO_LINKS[0 := 2][1 := 0]]
    requires popped == f[3 := f[2]]
    ensures WellShaped(f, 3, [2, 0, 1]) && Complete(f, 3, [2, 0, 1], [1, 2, 2])
    ensures WellShaped(popped, 3, [0, 1]) && Linked(popped, 3, [0, 1])
  {
    hide Complete, Linked, PointsPast, NextOn;
    ThreeNodesComplete(f);
    CompleteIsLinked(f, 3, [2, 0, 1], [1, 2, 2]);
    PopKeepsLinked(f, popped, 3, [2, 0, 1]);
    assert [2, 0, 1][1..] == [0, 1];
  }

  /** So searching for the element of node 1 and erasing it, which the loop does on level 0 alone, leaves the second
      link of node 0 leading to a block that is free again. */
  lemma EraseAfterPopFrontLeavesALink<V(!new)>(
    lt: (V, V) -> bool, values: map<int, V>, f: Forwards, popped: Forwards, erased: Forwards, k: V, updates: seq<nat>,
    up: seq<int>)
    requires f == [NO_LINKS[0 := 1][1 := 1], NO_LINKS, NO_LINKS[0 := 0], NO_LINKS[0 := 2][1 := 0]]
    requires popped == f[3 := f[2]]
    requires WellShaped(popped, 3, [0, 1]) && Linked(popped, 3, [0, 1])
    requires StrictWeakOrder(lt) && Sorted(lt, values, [0, 1]) && 0 in values && 1 in values
    requires Equal(lt, values[1], k) && lt(values[0], k)
    requires Located(lt, values, popped, 3, [0, 1], k, updates, up)
    requires up == SearchPath(lt, values, popped, 3, [0, 1], k)
    requires Unlinked(popped, erased, updates, 1, UnlinkedLevels(popped, 3, updates, 1, 0))
    ensures !ErasesCleanly(lt, values, popped, 3, [0, 1], k)
    ensures WellShaped(erased, 3, [0]) && !Linked(erased, 3, [0]) && erased[0][1] == 1
  {
    hide Linked, Located, Unlinked, UnlinkedLevels, SearchPath, Complete, LowestComplete, ErasesCleanly,
        StrictWeakOrder, Equal;
    var o: seq<nat> := [0, 1];
    SearchFinds(lt, values, popped, 3, o, k);
    NotLessThanItself(lt, values[1], k);
    assert o[0] == 0 && o[1] == 1 && up[0] == 0;
    UpdatesShape(lt, values, popped, 3, o, k, updates, up);
    CleanlyIs(lt, values, popped, 3, o, k, up);
    var levels := UnlinkedLevels(popped, 3, updates, 1, 0);
    LevelsStep(popped, 3, updates, 1, 0, 0);
    LevelsStep(popped, 3, updates, 1, 1, 0);
    assert levels <= 1;
    NotReached(popped, 3, o, 1, up, levels, 0, 1);
    EraseLinksExactly(lt, values, popped, erased, 3, o, k, updates, up);
    assert Without(o, 1) == [0];
    UnlinkedIs(popped, erased, updates, 1, levels, 0, 1);
  }

  lemma NotReached(f: Forwards, head: nat, order: seq<nat>, p: nat, up: seq<int>, levels: nat, i: int, l: int)
    requires WellShaped(f, head, order) && p < |order| && |up| == MAX_LEVEL
    requires -1 <= i < |order| && i != p && levels <= l < MAX_LEVEL && 0 <= l
    requires f[NodeAt(head, order, i)][l] == order[p]
    ensures !AllReached(f, head, order, p, up, levels)
  {
  }

  lemma NotLessThanItself<V>(lt: (V, V) -> bool, a: V, k: V)
    requires Equal(lt, a, k)
    ensures !lt(a, k)
  {
  }

  lemma UnlinkedIs(f: Forwards, g: Forwards, updates: seq<nat>, n: nat, levels: nat, x: int, l: int)
    requires Unlinked(f, g, updates, n, levels) && 0 <= x < |f| && levels <= l < MAX_LEVEL
    ensures x < |g| && |g[x]| == |f[x]| == MAX_LEVEL && g[x][l] == f[x][l]
  {
    assert updates[l] >= 0;
  }

  lemma ThreeNodesComplete(f: Forwards)
    requires f == [NO_LINKS[0 := 1][1 := 1], NO_LINKS, NO_LINKS[0 := 0], NO_LINKS[0 := 2][1 := 0]]
    ensures WellShaped(f, 3, [2, 0, 1]) && Complete(f, 3, [2, 0, 1], [1, 2, 2])
  {
    hide NextOn, LevelLink, Complete;
    var o: seq<nat>, h: seq<nat> := [2, 0, 1], [1, 2, 2];
    forall i: int, l: int | -1 <= i < 3 && 0 <= l < MAX_LEVEL
      ensures f[NodeAt(3, o, i)][l] == LevelLink(o, h, i, l)
    {
      NextIs(h, i + 1, l, if l == 0 then i + 1 else if l == 1 then (if i == -1 then 1 else i + 1) else 3);
      LevelLinkIs(o, h, i, l);
    }
    CompleteIs(f, 3, o, h);
  }
}
