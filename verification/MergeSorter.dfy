/** The sorter object: elements in insertion order, each with a pointer to the next one in the list. */
module MergeSorter {
  import opened StableOrder
  import opened MergeSort

  const NULL: int := -1

  predicate Distinct(s: seq<nat>) {
    forall i, j :: 0 <= i < j < |s| ==> s[i] != s[j]
  }

  predicate Disjoint(a: seq<nat>, b: seq<nat>) {
    forall x :: x in a ==> x !in b
  }

  /** Each element of `s` points to the one after it. */
  predicate Linked(next: seq<int>, s: seq<nat>) {
    && Positions(s, |next|)
    && forall i :: 0 <= i < |s| - 1 ==> next[s[i]] == s[i + 1]
  }

  function First(s: seq<nat>): int {
    if s == [] then NULL else s[0]
  }

  function Last(s: seq<nat>): int {
    if s == [] then NULL else s[|s| - 1]
  }

  /** A linked list that ends with the null pointer. */
  predicate Terminated(next: seq<int>, s: seq<nat>) {
    Linked(next, s) && (s != [] ==> next[s[|s| - 1]] == NULL)
  }

  predicate IsList(next: seq<int>, head: int, s: seq<nat>) {
    Terminated(next, s) && head == First(s)
  }

  lemma LinkedElsewhere(next: seq<int>, s: seq<nat>, at: nat, v: int)
    requires Linked(next, s) && at < |next| && at !in s
    ensures Linked(next[at := v], s)
    ensures Terminated(next, s) ==> Terminated(next[at := v], s)
  {
  }

  lemma LinkedAppend(next: seq<int>, s: seq<nat>, e: nat)
    requires Linked(next, s) && Distinct(s) && e < |next|
    ensures s == [] ==> Linked(next, s + [e])
    ensures s != [] ==> Linked(next[s[|s| - 1] := e], s + [e])
  {
  }

  lemma DistinctAppend(s: seq<nat>, e: nat)
    requires Distinct(s) && e !in s
    ensures Distinct(s + [e])
  {
  }

  /** `out` has been put in order, `p` and `q` are still to come; no element is in two of them. */
  predicate Apart(out: seq<nat>, p: seq<nat>, q: seq<nat>) {
    Distinct(out) && Distinct(p) && Distinct(q) && Disjoint(out, p) && Disjoint(out, q) && Disjoint(p, q)
  }

  lemma TakeFirst(out: seq<nat>, p: seq<nat>, q: seq<nat>)
    requires Apart(out, p, q) && p != []
    ensures Apart(out + [p[0]], p[1..], q) && p[0] !in p[1..] && p[0] !in q
  {
    assert p[0] in p;
    DistinctAppend(out, p[0]);
  }

  lemma TakeSecond(out: seq<nat>, p: seq<nat>, q: seq<nat>)
    requires Apart(out, p, q) && q != []
    ensures Apart(out + [q[0]], p, q[1..]) && q[0] !in q[1..] && q[0] !in p
  {
    assert q[0] in q;
    DistinctAppend(out, q[0]);
  }

  class MergeSorter<R(!new)> {
    var recs: seq<R>
    var next: seq<int>
    var head: int

    ghost predicate Valid()
      reads this
    {
      |next| == |recs|
    }

    /** The last inserted element still has the null pointer it was inserted with. */
    ghost predicate Sortable()
      reads this
      requires Valid()
    {
      recs != [] ==> next[|recs| - 1] == NULL
    }

    constructor ()
      ensures Valid() && recs == [] && Sortable()
    {
      recs, next, head := [], [], NULL;
    }

    /** The copy a forked process works on. */
    constructor Copy(other: MergeSorter<R>)
      requires other.Valid()
      ensures Valid() && recs == other.recs && next == other.next && head == other.head
    {
      recs, next, head := other.recs, other.next, other.head;
    }

    method Insert(r: R)
      requires Valid()
      modifies this
      ensures Valid() && recs == old(recs) + [r] && Sortable()
    {
      recs := recs + [r];
      next := next + [NULL];
    }

    method Clear()
      modifies this
      ensures Valid() && recs == [] && Sortable()
    {
      recs, next, head := [], [], NULL;
    }

    /** `fixup_list_pointers`: thread the elements in insertion order. The last one keeps its pointer, so this makes a
        list if and only if that is still the null pointer. */
    method FixupListPointers() returns (work: bool)
      requires Valid()
      modifies this`next, this`head
      ensures Valid() && work == (recs != []) && head == (if work then 0 else NULL)
      ensures next == Threaded(old(next))
      ensures IsList(next, head, Identity(|recs|)) <==> old(Sortable())
    {
      ghost var before := next;
      if recs == [] {
        head := NULL;
        assert Identity(|recs|) == [];
        return false;
      }
      head := 0;
      var i := 0;
      while i + 1 < |recs|
        invariant 0 <= i < |recs| && Valid() && head == 0
        invariant forall j :: 0 <= j < i ==> next[j] == j + 1
        invariant forall j :: i <= j < |recs| ==> next[j] == before[j]
      {
        next := next[i := i + 1];
        i := i + 1;
      }
      work := true;
      ThreadedIsList(before);
    }

    /** Step `insize` places along from `p`, or as far as the list goes. */
    method StepAlong(p: int, insize: nat, ghost list: seq<nat>) returns (q: int, psize: nat)
      requires insize > 0 && list != [] && IsList(next, p, list)
      ensures psize == Min(insize, |list|) && q == First(list[psize..])
    {
      q, psize := p, 0;
      var i := 0;
      while i < insize
        invariant 0 <= i <= insize && psize == i < |list| && q == list[psize]
        decreases insize - i
      {
        assert next[list[psize]] == if psize == |list| - 1 then NULL else list[psize + 1];
        psize := psize + 1;
        q := next[q];
        if q == NULL {
          assert list[psize..] == [];
          return;
        }
        i := i + 1;
      }
    }

    /** The state between two steps of a merge: `out` is linked up, `a` and `s` are still to come. */
    ghost predicate Merging(tail: int, p: int, q: int, out: seq<nat>, a: seq<nat>, s: seq<nat>)
      reads this
    {
      && Valid() && Apart(out, a, s)
      && Linked(next, out) && tail == Last(out) && (out != [] ==> head == out[0])
      && Linked(next, a) && (a != [] ==> p == a[0])
      && Terminated(next, s) && q == First(s)
    }

    /** Put element `e` at the end of the merged list. */
    method Append(tail: int, e: nat, ghost out: seq<nat>, ghost a: seq<nat>, ghost s: seq<nat>)
      requires Valid() && e < |recs| && e !in out && Distinct(out) && Linked(next, out) && tail == Last(out)
      requires (out != [] ==> head == out[0]) && Apart(out + [e], a, s) && Linked(next, a) && Terminated(next, s)
      modifies this`next, this`head
      ensures Valid() && Linked(next, out + [e]) && head == (out + [e])[0]
      ensures Linked(next, a) && Terminated(next, s)
    {
      hide Apart, Distinct, Disjoint;
      LinkedAppend(next, out, e);
      if tail != NULL {
        AppendKeeps(next, out, e, a, s);
        next := next[tail := e];
      } else {
        head := e;
      }
    }

    /** The next element comes from the first run. */
    method TakeP(lt: (R, R) -> bool, tail: int, p: int, q: int,
                 ghost out: seq<nat>, ghost a: seq<nat>, ghost s: seq<nat>, ghost b: seq<nat>) returns (p': int)
      requires Merging(tail, p, q, out, a, s) && a != [] && b <= s
      requires b == [] || (Positions(b, |recs|) && Positions(a, |recs|) && !lt(recs[b[0]], recs[a[0]]))
      modifies this`next, this`head
      ensures Merging(p, p', q, out + [a[0]], a[1..], s)
      ensures Positions(a, |recs|) && Positions(b, |recs|) && Positions(a[1..], |recs|)
      ensures out + Merge(lt, recs, a, b) == out + [a[0]] + Merge(lt, recs, a[1..], b)
    {
      MoveFirst(lt, recs, next, out, a, s, b);
      hide Apart, Merge, Disjoint;
      p' := next[p];
      Append(tail, p, out, a[1..], s);
    }

    /** The next element comes from the second run. */
    method TakeQ(lt: (R, R) -> bool, tail: int, p: int, q: int,
                 ghost out: seq<nat>, ghost a: seq<nat>, ghost s: seq<nat>, ghost b: seq<nat>) returns (q': int)
      requires Merging(tail, p, q, out, a, s) && b != [] && b <= s
      requires a == [] || (Positions(b, |recs|) && Positions(a, |recs|) && lt(recs[b[0]], recs[a[0]]))
      modifies this`next, this`head
      ensures Merging(q, p, q', out + [s[0]], a, s[1..])
      ensures Positions(a, |recs|) && Positions(b, |recs|) && Positions(b[1..], |recs|)
      ensures out + Merge(lt, recs, a, b) == out + [s[0]] + Merge(lt, recs, a, b[1..])
    {
      MoveSecond(lt, recs, next, out, a, s, b);
      hide Apart, Merge, Disjoint;
      q' := next[q];
      Append(tail, q, out, a, s[1..]);
    }

    /** Merge `psize` elements from `p` with up to `qsize` from `q`, behind what is merged already. */
    method MergeRuns(lt: (R, R) -> bool, p0: int, psize0: nat, q0: int, qsize0: nat, tail0: int,
                     ghost out0: seq<nat>, ghost a0: seq<nat>, ghost s0: seq<nat>)
      returns (tail: int, q: int, ghost out: seq<nat>)
      requires Merging(tail0, p0, q0, out0, a0, s0) && psize0 == |a0|
      requires Positions(a0, |recs|) && Positions(s0, |recs|)
      modifies this`next, this`head
      ensures var m := Min(qsize0, |s0|);
        && Positions(s0[..m], |recs|) && out == out0 + Merge(lt, recs, a0, s0[..m])
        && Merging(tail, NULL, q, out, [], s0[m..])
    {
      hide Apart, Merge, Linked, Disjoint, Distinct, Terminated;
      var p, psize, qsize := p0, psize0, qsize0;
      tail, q, out := tail0, q0, out0;
      ghost var a, s := a0, s0;
      ghost var m := Min(qsize0, |s0|);
      assert s0[|s0| - |s|..] == s0;
      while psize > 0 || (qsize > 0 && q != NULL)
        invariant Merging(tail, p, q, out, a, s) && psize == |a|
        invariant |s| <= |s0| && s == s0[|s0| - |s|..] && Min(qsize, |s|) + |s0| == m + |s|
        invariant Positions(a, |recs|) && Positions(s, |recs|)
        invariant out + Merge(lt, recs, a, s[..Min(qsize, |s|)]) == out0 + Merge(lt, recs, a0, s0[..m])
        decreases psize + Min(qsize, |s|)
      {
        ghost var b := s[..Min(qsize, |s|)];
        if psize == 0 {
          var q' := TakeQ(lt, tail, p, q, out, a, s, b);
          DropFirst(s0, s, qsize);
          out, s := out + [s[0]], s[1..];
          tail, q, qsize := q, q', qsize - 1;
        } else if qsize == 0 || q == NULL {
          var p' := TakeP(lt, tail, p, q, out, a, s, b);
          out, a := out + [a[0]], a[1..];
          tail, p, psize := p, p', psize - 1;
        } else if !lt(recs[q], recs[p]) {
          var p' := TakeP(lt, tail, p, q, out, a, s, b);
          out, a := out + [a[0]], a[1..];
          tail, p, psize := p, p', psize - 1;
        } else {
          var q' := TakeQ(lt, tail, p, q, out, a, s, b);
          DropFirst(s0, s, qsize);
          out, s := out + [s[0]], s[1..];
          tail, q, qsize := q, q', qsize - 1;
        }
      }
      NothingLeft(lt, recs, a, s[..Min(qsize, |s|)]);
      assert s0[m..] == s;
    }

    /** Merge the next two runs of a pass. */
    method MergeNext(lt: (R, R) -> bool, insize: nat, p0: int, tail0: int, ghost out0: seq<nat>, ghost rest0: seq<nat>)
      returns (tail: int, p: int, ghost out: seq<nat>, ghost rest: seq<nat>)
      requires insize > 0 && rest0 != [] && Merging(tail0, NULL, p0, out0, [], rest0)
      requires Positions(rest0, |recs|) && Positions(out0, |recs|)
      modifies this`next, this`head
      ensures Merging(tail, NULL, p, out, [], rest) && Positions(rest, |recs|) && Positions(out, |recs|)
      ensures rest == rest0[Min(2 * insize, |rest0|)..]
      ensures out + Pass(lt, recs, rest, insize) == out0 + Pass(lt, recs, rest0, insize)
    {
      hide Apart, Merge, Pass, Disjoint, Distinct;
      var q, psize := StepAlong(p0, insize, rest0);
      ghost var a, s := rest0[..psize], rest0[psize..];
      ghost var n := Min(insize, |s|);
      SplitRun(out0, rest0, psize, next);
      PassOne(lt, recs, rest0, insize);
      tail, p, out := MergeRuns(lt, p0, psize, q, insize, tail0, out0, a, s);
      rest := s[n..];
      assert out + Pass(lt, recs, rest, insize)
          == out0 + (Merge(lt, recs, a, s[..n]) + Pass(lt, recs, rest, insize));
    }

    /** One pass along the list; `many` says whether more than one merge was done. */
    method DoPass(lt: (R, R) -> bool, insize: nat, ghost list: seq<nat>) returns (many: bool)
      requires insize > 0 && Valid() && list != [] && IsList(next, head, list) && Distinct(list)
      modifies this`next, this`head
      ensures Valid() && Positions(list, |recs|) && IsList(next, head, Pass(lt, recs, list, insize))
      ensures Distinct(Pass(lt, recs, list, insize))
      ensures many <==> |list| > 2 * insize
    {
      hide Apart, Merge, Pass, Linked, Disjoint, Distinct;
      var p, tail := head, NULL;
      head := NULL;
      var merges := 0;
      ghost var rest, out: seq<nat> := list, [];
      StartApart(list);
      StartPass(next, lt, recs, list, insize);
      while p != NULL
        invariant Merging(tail, NULL, p, out, [], rest) && Positions(rest, |recs|)
        invariant |rest| <= |list|
        invariant merges >= 0 && (merges == 0 <==> |rest| == |list|)
        invariant merges == 1 ==> |list| - |rest| <= 2 * insize && (rest == [] || |list| - |rest| == 2 * insize)
        invariant merges > 1 ==> |list| - |rest| > 2 * insize
        invariant Positions(out, |recs|) && out + Pass(lt, recs, rest, insize) == Pass(lt, recs, list, insize)
        decreases |rest|
      {
        merges := merges + 1;
        tail, p, out, rest := MergeNext(lt, insize, p, tail, out, rest);
      }
      FinishPass(next, head, tail, out, lt, recs, insize);
      next := next[tail := NULL];
      many := merges > 1;
    }

    /** Sort by relinking: afterwards the list from `head` is in the one stable order. Without the null pointer at the
        last inserted element the first pass never ends (`FirstPassNeverEnds`). */
    method Sort(lt: (R, R) -> bool)
      requires Valid() && Sortable()
      modifies this`next, this`head
      ensures Valid() && IsList(next, head, SortedOrder(lt, recs))
      ensures Sortable() <==> recs == [] || SortedOrder(lt, recs)[|recs| - 1] == |recs| - 1
    {
      hide Merge, Pass, Passes, SortedOrder;
      var work := FixupListPointers();
      ghost var list := Identity(|recs|);
      StartPasses(lt, recs);
      if !work { return; }
      var insize := 1;
      while true
        invariant insize > 0 && Valid() && IsList(next, head, list) && Distinct(list) && |list| == |recs|
        invariant Passes(lt, recs, list, insize) == SortedOrder(lt, recs)
        decreases |recs| - insize
      {
        PassesUnfold(lt, recs, list, insize);
        ghost var passed := Pass(lt, recs, list, insize);
        var many := DoPass(lt, insize, list);
        list := passed;
        if !many {
          SortableAfter(next, list, |recs|);
          return;
        }
        insize := insize * 2;
      }
    }

    /** Visit the records in list order. */
    method WalkSorted(ghost order: seq<nat>) returns (visited: seq<R>)
      requires Valid() && IsList(next, head, order)
      ensures Positions(order, |recs|) && visited == RecordsAt(recs, order)
    {
      visited := [];
      var list := head;
      ghost var k := 0;
      while list != NULL
        invariant k <= |order| && list == First(order[k..])
        invariant visited == RecordsAt(recs, order[..k])
        decreases |order| - k
      {
        assert order[..k + 1] == order[..k] + [order[k]];
        visited := visited + [recs[list]];
        list := next[list];
        k := k + 1;
      }
      assert order[..k] == order;
    }
  }

  /** Every element points to the next one, the last keeps what it had. */
  function Threaded(next: seq<int>): (r: seq<int>)
    ensures |r| == |next|
  {
    seq(|next|, i requires 0 <= i < |next| => if i + 1 < |next| then i + 1 else next[i])
  }

  lemma ThreadedIsList(next: seq<int>)
    requires next != []
    ensures IsList(Threaded(next), 0, Identity(|next|)) <==> next[|next| - 1] == NULL
  {
    assert Identity(|next|)[|next| - 1] == |next| - 1;
  }

  /** The variables of the first pass, in which runs have one element. */
  datatype FirstPass = FirstPass(next: seq<int>, head: int, tail: int, p: int, q: int, psize: nat, qsize: nat)

  predicate MoreToMerge(s: FirstPass) {
    s.psize > 0 || (s.qsize > 0 && s.q != NULL)
  }

  /** Neither loop goes on. */
  predicate Ended(s: FirstPass) {
    !MoreToMerge(s) && s.q == NULL
  }

  /** All pointers lead to elements, none is null. */
  predicate NoNull(s: FirstPass, n: nat) {
    && |s.next| == n && 0 <= s.p < n && 0 <= s.q < n && NULL <= s.tail < n
    && forall i :: 0 <= i < n ==> 0 <= s.next[i] < n
  }

  /** The two runs that start at `p`. */
  function TwoRunsAt(s: FirstPass, p: int): FirstPass
    requires 0 <= p < |s.next|
  {
    s.(p := p, q := s.next[p], psize := 1, qsize := 1)
  }

  /** One turn of the inner loop, or of the outer one when there is nothing more to merge. */
  function Turn<R>(lt: (R, R) -> bool, recs: seq<R>, s: FirstPass): FirstPass
    requires NoNull(s, |recs|)
  {
    if MoreToMerge(s) then
      var fromQ := s.psize == 0 || (s.qsize > 0 && lt(recs[s.q], recs[s.p]));
      var e := if fromQ then s.q else s.p;
      s.(next := if s.tail == NULL then s.next else s.next[s.tail := e],
         head := if s.tail == NULL then e else s.head,
         tail := e,
         p := if fromQ then s.p else s.next[s.p],
         q := if fromQ then s.next[s.q] else s.q,
         psize := if fromQ then s.psize else s.psize - 1,
         qsize := if fromQ && s.qsize > 0 then s.qsize - 1 else s.qsize)
    else
      TwoRunsAt(s, s.q)
  }

  lemma TurnKeepsNoNull<R>(lt: (R, R) -> bool, recs: seq<R>, s: FirstPass)
    requires NoNull(s, |recs|)
    ensures NoNull(Turn(lt, recs, s), |recs|) && !Ended(s)
  {
  }

  function Turns<R>(lt: (R, R) -> bool, recs: seq<R>, s: FirstPass, k: nat): (r: FirstPass)
    requires NoNull(s, |recs|)
    ensures NoNull(r, |recs|)
    decreases k
  {
    if k == 0 then s
    else
      TurnKeepsNoNull(lt, recs, s);
      Turns(lt, recs, Turn(lt, recs, s), k - 1)
  }

  /** Why a sort needs the null pointer: when the last inserted element points to an element, as an earlier sort may
      have left it, the first pass is not at its end after any number of turns. */
  lemma FirstPassNeverEnds<R>(lt: (R, R) -> bool, recs: seq<R>, next: seq<int>, k: nat)
    requires |next| == |recs| > 0 && 0 <= next[|recs| - 1] < |recs|
    ensures var s := TwoRunsAt(FirstPass(Threaded(next), NULL, NULL, 0, 0, 0, 0), 0);
      NoNull(s, |recs|) && !Ended(Turns(lt, recs, s, k))
  {
    var s := TwoRunsAt(FirstPass(Threaded(next), NULL, NULL, 0, 0, 0, 0), 0);
    TurnKeepsNoNull(lt, recs, Turns(lt, recs, s, k));
  }

  /** Two records in descending order: the sort leaves the last inserted one in front, pointing to the other. */
  lemma DescendingPairGoesStale<R(!new)>(lt: (R, R) -> bool, recs: seq<R>, next: seq<int>)
    requires StrictWeakOrder(lt) && |recs| == |next| == 2 && lt(recs[1], recs[0])
    requires IsList(next, 1, SortedOrder(lt, recs))
    ensures SortedOrder(lt, recs) == [1, 0] && next[1] == 0
    ensures !IsList(Threaded(next), 0, Identity(2))
  {
    SortIsStable(lt, recs);
    var order := SortedOrder(lt, recs);
    assert order == [1, 0];
    assert next[order[0]] == order[1];
    ThreadedIsList(next);
  }

  function RecordsAt<R>(recs: seq<R>, order: seq<nat>): (r: seq<R>)
    requires Positions(order, |recs|)
    ensures |r| == |order|
  {
    seq(|order|, i requires 0 <= i < |order| => recs[order[i]])
  }

  lemma StartPasses<R>(lt: (R, R) -> bool, recs: seq<R>)
    ensures SortedOrder(lt, recs) == Passes(lt, recs, Identity(|recs|), 1)
    ensures recs == [] ==> SortedOrder(lt, recs) == []
  {
  }

  lemma PassesUnfold<R>(lt: (R, R) -> bool, recs: seq<R>, list: seq<nat>, k: nat)
    requires k > 0 && Positions(list, |recs|)
    ensures Passes(lt, recs, list, k)
         == if |list| <= 2 * k then Pass(lt, recs, list, k) else Passes(lt, recs, Pass(lt, recs, list, k), 2 * k)
  {
    hide Pass;
  }

  /** Only the last of the list has the null pointer. */
  lemma SortableAfter(next: seq<int>, list: seq<nat>, n: nat)
    requires Terminated(next, list) && Distinct(list) && |list| == n == |next| && n > 0
    ensures next[n - 1] == NULL <==> list[n - 1] == n - 1
  {
    Surjective(list, n);
    assert n - 1 in list;
    var k :| 0 <= k < n && list[k] == n - 1;
    assert k < n - 1 ==> next[list[k]] == list[k + 1];
    assert k != n - 1 ==> list[n - 1] != n - 1;
  }

  /** n different positions below n are all of them. */
  lemma {:induction false} Surjective(list: seq<nat>, n: nat)
    requires Positions(list, n) && Distinct(list) && |list| == n
    ensures forall p :: 0 <= p < n ==> p in list
  {
    forall p | 0 <= p < n
      ensures p in list
    {
      if p !in list {
        var extended := list + [p];
        DistinctSubset(extended, n);
      }
    }
  }

  lemma FinishPass<R>(next: seq<int>, head: int, tail: int, out: seq<nat>, lt: (R, R) -> bool, recs: seq<R>, k: nat)
    requires Apart(out, [], []) && Linked(next, out) && k > 0
    requires tail == Last(out) && (out != [] ==> head == out[0])
    ensures Distinct(out) && out + Pass(lt, recs, [], k) == out
    ensures out != [] ==> 0 <= tail < |next| && IsList(next[tail := NULL], head, out)
  {
  }

  lemma StartApart(list: seq<nat>)
    requires Distinct(list)
    ensures Apart([], [], list)
  {
  }

  lemma StartPass<R>(next: seq<int>, lt: (R, R) -> bool, recs: seq<R>, list: seq<nat>, k: nat)
    requires Linked(next, list) && |next| == |recs| && k > 0
    ensures Positions(list, |recs|) && [] + Pass(lt, recs, list, k) == Pass(lt, recs, list, k)
    ensures Linked(next, []) && list[0..] == list
  {
  }

  /** Dividing what is left of the list into the first run and the rest. */
  lemma SplitRun(out: seq<nat>, rest: seq<nat>, m: nat, next: seq<int>)
    requires Apart(out, [], rest) && m <= |rest| && Terminated(next, rest)
    ensures Apart(out, rest[..m], rest[m..]) && Linked(next, rest[..m]) && Terminated(next, rest[m..])
  {
    forall x | x in rest[..m]
      ensures x !in rest[m..]
    {
    }
  }

  lemma PassOne<R>(lt: (R, R) -> bool, recs: seq<R>, list: seq<nat>, k: nat)
    requires k > 0 && Positions(list, |recs|) && list != []
    ensures var m := Min(k, |list|);
      var s := list[m..];
      var n := Min(k, |s|);
      && Positions(list[..m], |recs|) && Positions(s[..n], |recs|) && Positions(s[n..], |recs|)
      && Pass(lt, recs, list, k) == Merge(lt, recs, list[..m], s[..n]) + Pass(lt, recs, s[n..], k)
  {
    hide Merge;
  }

  lemma NothingLeft<R>(lt: (R, R) -> bool, recs: seq<R>, a: seq<nat>, b: seq<nat>)
    requires Positions(a, |recs|) && Positions(b, |recs|) && a == [] && b == []
    ensures Merge(lt, recs, a, b) == []
  {
  }

  lemma LinkedTail(next: seq<int>, a: seq<nat>)
    requires Linked(next, a) && a != []
    ensures Linked(next, a[1..]) && a[0] < |next| && (a[1..] != [] ==> next[a[0]] == a[1])
    ensures Terminated(next, a) ==> Terminated(next, a[1..]) && next[a[0]] == First(a[1..])
  {
  }

  lemma MergeTakesFirst<R>(lt: (R, R) -> bool, recs: seq<R>, out: seq<nat>, a: seq<nat>, b: seq<nat>)
    requires Positions(a, |recs|) && Positions(b, |recs|) && a != []
    requires b == [] || !lt(recs[b[0]], recs[a[0]])
    ensures out + Merge(lt, recs, a, b) == out + [a[0]] + Merge(lt, recs, a[1..], b)
  {
    hide Merge;
    MergeStarts(lt, recs, a, b);
    assert out + ([a[0]] + Merge(lt, recs, a[1..], b)) == out + [a[0]] + Merge(lt, recs, a[1..], b);
  }

  lemma DropFirst(s0: seq<nat>, s: seq<nat>, n: nat)
    requires 0 < |s| <= |s0| && s == s0[|s0| - |s|..] && n > 0
    ensures s[1..] == s0[|s0| - |s| + 1..]
    ensures s[1..][..Min(n - 1, |s| - 1)] == s[..Min(n, |s|)][1..]
  {
  }

  lemma HeadAndTail<T>(s: seq<T>)
    requires s != []
    ensures s == [s[0]] + s[1..]
  {
  }

  lemma MergeStarts<R>(lt: (R, R) -> bool, recs: seq<R>, a: seq<nat>, b: seq<nat>)
    requires Positions(a, |recs|) && Positions(b, |recs|) && a != []
    requires b == [] || !lt(recs[b[0]], recs[a[0]])
    ensures Merge(lt, recs, a, b) == [a[0]] + Merge(lt, recs, a[1..], b)
  {
    if b == [] {
      HeadAndTail(a);
    }
  }

  lemma MergeTakesSecond<R>(lt: (R, R) -> bool, recs: seq<R>, out: seq<nat>, a: seq<nat>, b: seq<nat>)
    requires Positions(a, |recs|) && Positions(b, |recs|) && b != []
    requires a == [] || lt(recs[b[0]], recs[a[0]])
    ensures out + Merge(lt, recs, a, b) == out + [b[0]] + Merge(lt, recs, a, b[1..])
  {
    hide Merge;
    MergeStartsSecond(lt, recs, a, b);
    assert out + ([b[0]] + Merge(lt, recs, a, b[1..])) == out + [b[0]] + Merge(lt, recs, a, b[1..]);
  }

  lemma MergeStartsSecond<R>(lt: (R, R) -> bool, recs: seq<R>, a: seq<nat>, b: seq<nat>)
    requires Positions(a, |recs|) && Positions(b, |recs|) && b != []
    requires a == [] || lt(recs[b[0]], recs[a[0]])
    ensures Merge(lt, recs, a, b) == [b[0]] + Merge(lt, recs, a, b[1..])
  {
    if a == [] {
      HeadAndTail(b);
    }
  }

  /** Taking the first element of the first run. */
  lemma MoveFirst<R>(lt: (R, R) -> bool, recs: seq<R>, next: seq<int>, out: seq<nat>, a: seq<nat>, s: seq<nat>,
      b: seq<nat>)
    requires |next| == |recs| && Apart(out, a, s) && Linked(next, a) && a != [] && b <= s && Terminated(next, s)
    requires b == [] || (Positions(b, |recs|) && Positions(a, |recs|) && !lt(recs[b[0]], recs[a[0]]))
    ensures Apart(out + [a[0]], a[1..], s) && a[0] !in out && a[0] !in a[1..] && a[0] !in s
    ensures Linked(next, a[1..]) && (a[1..] != [] ==> next[a[0]] == a[1])
    ensures Positions(a, |recs|) && Positions(b, |recs|) && Positions(a[1..], |recs|)
    ensures out + Merge(lt, recs, a, b) == out + [a[0]] + Merge(lt, recs, a[1..], b)
  {
    hide Apart, Merge;
    ApartFirst(out, a, s);
    TakeFirst(out, a, s);
    LinkedTail(next, a);
    PrefixPositions(b, s, |recs|);
    MergeTakesFirst(lt, recs, out, a, b);
  }

  lemma PrefixPositions(b: seq<nat>, s: seq<nat>, n: nat)
    requires b <= s && Positions(s, n)
    ensures Positions(b, n)
  {
  }

  lemma ApartFirst(out: seq<nat>, a: seq<nat>, s: seq<nat>)
    requires Apart(out, a, s)
    ensures a != [] ==> a[0] !in out
    ensures s != [] ==> s[0] !in out
  {
    if a != [] { assert a[0] in a; }
    if s != [] { assert s[0] in s; }
  }

  /** Taking the first element of the second run. */
  lemma MoveSecond<R>(lt: (R, R) -> bool, recs: seq<R>, next: seq<int>, out: seq<nat>, a: seq<nat>, s: seq<nat>,
      b: seq<nat>)
    requires |next| == |recs| && Apart(out, a, s) && Linked(next, a) && b != [] && b <= s && Terminated(next, s)
    requires a == [] || (Positions(b, |recs|) && Positions(a, |recs|) && lt(recs[b[0]], recs[a[0]]))
    ensures Apart(out + [s[0]], a, s[1..]) && s[0] !in out && s[0] !in s[1..] && s[0] !in a
    ensures Terminated(next, s[1..]) && next[s[0]] == First(s[1..])
    ensures Positions(a, |recs|) && Positions(b, |recs|) && Positions(b[1..], |recs|)
    ensures out + Merge(lt, recs, a, b) == out + [s[0]] + Merge(lt, recs, a, b[1..])
  {
    hide Apart, Merge;
    ApartFirst(out, a, s);
    TakeSecond(out, a, s);
    LinkedTail(next, s);
    PrefixPositions(b, s, |recs|);
    MergeTakesSecond(lt, recs, out, a, b);
  }

  /** Linking the merged list leaves the links still to be followed alone. */
  lemma AppendKeeps(next: seq<int>, out: seq<nat>, e: nat, a: seq<nat>, s: seq<nat>)
    requires Apart(out + [e], a, s) && out != [] && Positions(out, |next|)
    requires Linked(next, a) && Terminated(next, s)
    ensures var after := next[out[|out| - 1] := e]; Linked(after, a) && Terminated(after, s)
  {
    var t := out[|out| - 1];
    assert t in out + [e];
    LinkedElsewhere(next, a, t, e);
    LinkedElsewhere(next, s, t, e);
  }
}
