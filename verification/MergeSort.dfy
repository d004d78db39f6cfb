/** The bottom-up merge sort of np1/rel/detail/merge_sort.hpp: a linked list threaded through the stored
    elements, sorted by relinking. A pointer is the index of an element, -1 the null pointer. */
module MergeSort {
  import opened StableOrder

  // ----- What one pass and the whole sort do to the list of positions

  function Merge<R>(lt: (R, R) -> bool, recs: seq<R>, a: seq<nat>, b: seq<nat>): (m: seq<nat>)
    requires Positions(a, |recs|) && Positions(b, |recs|)
    ensures Positions(m, |recs|) && |m| == |a| + |b|
  {
    if a == [] then b
    else if b == [] then a
    else if !lt(recs[b[0]], recs[a[0]]) then [a[0]] + Merge(lt, recs, a[1..], b)
    else [b[0]] + Merge(lt, recs, a, b[1..])
  }

  lemma {:induction false} MergeKeepsElements<R>(lt: (R, R) -> bool, recs: seq<R>, a: seq<nat>, b: seq<nat>)
    requires Positions(a, |recs|) && Positions(b, |recs|)
    ensures forall p :: p in Merge(lt, recs, a, b) <==> p in a || p in b
    decreases |a| + |b|
  {
    if a != [] && b != [] {
      assert forall p :: p in a <==> p == a[0] || p in a[1..];
      assert forall p :: p in b <==> p == b[0] || p in b[1..];
      if !lt(recs[b[0]], recs[a[0]]) {
        MergeKeepsElements(lt, recs, a[1..], b);
      } else {
        MergeKeepsElements(lt, recs, a, b[1..]);
      }
    }
  }

  function Min(a: nat, b: nat): nat {
    if a < b then a else b
  }

  /** Merge neighbouring blocks of `k` all along the list. */
  function Pass<R>(lt: (R, R) -> bool, recs: seq<R>, list: seq<nat>, k: nat): (r: seq<nat>)
    requires k > 0 && Positions(list, |recs|)
    ensures Positions(r, |recs|) && |r| == |list|
    decreases |list|
  {
    if list == [] then []
    else
      var m := Min(k, |list|);
      var s := list[m..];
      var n := Min(k, |s|);
      Merge(lt, recs, list[..m], s[..n]) + Pass(lt, recs, s[n..], k)
  }

  function Passes<R>(lt: (R, R) -> bool, recs: seq<R>, list: seq<nat>, k: nat): (r: seq<nat>)
    requires k > 0 && Positions(list, |recs|)
    ensures Positions(r, |recs|) && |r| == |list|
    decreases |list| - k
  {
    var next := Pass(lt, recs, list, k);
    if |list| <= 2 * k then next else Passes(lt, recs, next, 2 * k)
  }

  function Identity(n: nat): (r: seq<nat>)
    ensures |r| == n && Positions(r, n) && forall i :: 0 <= i < n ==> r[i] == i
  {
    seq(n, i => i)
  }

  // ----- Merging keeps the order

  lemma {:induction false} MergeAscending<R(!new)>(lt: (R, R) -> bool, recs: seq<R>, a: seq<nat>, b: seq<nat>)
    requires StrictWeakOrder(lt) && Positions(a, |recs|) && Positions(b, |recs|)
    requires Ascending(lt, recs, a) && Ascending(lt, recs, b)
    requires forall p, q :: p in a && q in b ==> p < q
    ensures Ascending(lt, recs, Merge(lt, recs, a, b))
    decreases |a| + |b|
  {
    if a != [] && b != [] {
      if !lt(recs[b[0]], recs[a[0]]) {
        var m := Merge(lt, recs, a[1..], b);
        SliceAscending(lt, recs, a, 1, |a|);
        assert a[1..|a|] == a[1..] && forall p :: p in a[1..] ==> p in a;
        MergeAscending(lt, recs, a[1..], b);
        MergeKeepsElements(lt, recs, a[1..], b);
        forall j | 0 <= j < |m|
          ensures Before(lt, recs, a[0], m[j])
        {
          assert m[j] in m;
          assert a[0] in a && b[0] in b;
          FirstIsLeast(lt, recs, a, b, m[j]);
        }
        ConsAscending(lt, recs, a[0], m);
      } else {
        var m := Merge(lt, recs, a, b[1..]);
        SliceAscending(lt, recs, b, 1, |b|);
        assert b[1..|b|] == b[1..] && forall p :: p in b[1..] ==> p in b;
        MergeAscending(lt, recs, a, b[1..]);
        MergeKeepsElements(lt, recs, a, b[1..]);
        forall j | 0 <= j < |m|
          ensures Before(lt, recs, b[0], m[j])
        {
          assert m[j] in m;
          FirstIsLess(lt, recs, a, b, m[j]);
        }
        ConsAscending(lt, recs, b[0], m);
      }
    }
  }

  lemma FirstIsLeast<R(!new)>(lt: (R, R) -> bool, recs: seq<R>, a: seq<nat>, b: seq<nat>, p: nat)
    requires StrictWeakOrder(lt) && Positions(a, |recs|) && Positions(b, |recs|) && a != [] && b != []
    requires Ascending(lt, recs, a) && Ascending(lt, recs, b) && p < |recs| && (p in a[1..] || p in b)
    requires a[0] < b[0] && !lt(recs[b[0]], recs[a[0]])
    requires forall q :: q in b ==> a[0] < q
    ensures Before(lt, recs, a[0], p)
  {
    if p in a[1..] {
      var k :| 1 <= k < |a| && a[k] == p;
    } else {
      var k :| 0 <= k < |b| && b[k] == p;
      if k > 0 {
        assert Before(lt, recs, b[0], b[k]);
        assert Before(lt, recs, a[0], b[0]);
        BeforeIsTransitive(lt, recs, a[0], b[0], b[k]);
      }
    }
  }

  lemma FirstIsLess<R(!new)>(lt: (R, R) -> bool, recs: seq<R>, a: seq<nat>, b: seq<nat>, p: nat)
    requires StrictWeakOrder(lt) && Positions(a, |recs|) && Positions(b, |recs|) && a != [] && b != []
    requires Ascending(lt, recs, a) && Ascending(lt, recs, b) && p < |recs| && (p in a || p in b[1..])
    requires lt(recs[b[0]], recs[a[0]])
    ensures Before(lt, recs, b[0], p)
  {
    if p in b[1..] {
      var k :| 1 <= k < |b| && b[k] == p;
    } else {
      var k :| 0 <= k < |a| && a[k] == p;
      if k > 0 {
        assert Before(lt, recs, a[0], a[k]);
        assert Before(lt, recs, b[0], a[0]);
        BeforeIsTransitive(lt, recs, b[0], a[0], a[k]);
      }
    }
  }

  lemma SliceAscending<R>(lt: (R, R) -> bool, recs: seq<R>, s: seq<nat>, i: nat, j: nat)
    requires Positions(s, |recs|) && Ascending(lt, recs, s) && i <= j <= |s|
    ensures Positions(s[i..j], |recs|) && Ascending(lt, recs, s[i..j])
  {
  }

  lemma ConsAscending<R>(lt: (R, R) -> bool, recs: seq<R>, x: nat, s: seq<nat>)
    requires x < |recs| && Positions(s, |recs|) && Ascending(lt, recs, s)
    requires forall j :: 0 <= j < |s| ==> Before(lt, recs, x, s[j])
    ensures Ascending(lt, recs, [x] + s)
  {
    var r := [x] + s;
    forall i, j | 0 <= i < j < |r|
      ensures Before(lt, recs, r[i], r[j])
    {
      assert r[j] == s[j - 1];
      if i > 0 {
        assert r[i] == s[i - 1];
      }
    }
  }

  // ----- Passes double the length of the sorted runs

  /** Consecutive sorted runs of length `k`, the one that starts at `lo` holding exactly positions that
      started out there. */
  ghost predicate Runs<R(!new)>(lt: (R, R) -> bool, recs: seq<R>, list: seq<nat>, k: nat, lo: nat)
    requires k > 0 && Positions(list, |recs|)
    decreases |list|
  {
    list != [] ==>
      var m := Min(k, |list|);
      && Ascending(lt, recs, list[..m])
      && (forall i :: 0 <= i < m ==> lo <= list[i] < lo + m)
      && Runs(lt, recs, list[m..], k, lo + m)
  }

  lemma {:induction false} PassDoublesRuns<R(!new)>(lt: (R, R) -> bool, recs: seq<R>, list: seq<nat>, k: nat, lo: nat)
    requires StrictWeakOrder(lt) && k > 0 && Positions(list, |recs|) && Runs(lt, recs, list, k, lo)
    ensures Runs(lt, recs, Pass(lt, recs, list, k), 2 * k, lo)
    decreases |list|
  {
    hide StrictWeakOrder, Ascending, Merge, Runs, Pass;
    if list == [] {
      NoRuns(lt, recs, list, k, lo);
    } else {
      var m := Min(k, |list|);
      var s := list[m..];
      var n := Min(k, |s|);
      RunsUnfold(lt, recs, list, k, lo);
      SecondRun(lt, recs, s, k, lo + m);
      TwoRuns(lt, recs, list[..m], s[..n], lo);
      PassDoublesRuns(lt, recs, s[n..], k, lo + m + n);
      PassUnfold(lt, recs, list, k);
      RunsFold(lt, recs, Merge(lt, recs, list[..m], s[..n]), Pass(lt, recs, s[n..], k), 2 * k, lo);
    }
  }

  lemma NoRuns<R(!new)>(lt: (R, R) -> bool, recs: seq<R>, list: seq<nat>, k: nat, lo: nat)
    requires k > 0 && list == []
    ensures Positions(list, |recs|) && Pass(lt, recs, list, k) == []
    ensures Runs(lt, recs, Pass(lt, recs, list, k), 2 * k, lo)
  {
  }

  lemma PassUnfold<R>(lt: (R, R) -> bool, recs: seq<R>, list: seq<nat>, k: nat)
    requires k > 0 && Positions(list, |recs|) && list != []
    ensures var m := Min(k, |list|); var s := list[m..]; var n := Min(k, |s|);
      && Positions(list[..m], |recs|) && Positions(s[..n], |recs|) && Positions(s[n..], |recs|)
      && Pass(lt, recs, list, k) == Merge(lt, recs, list[..m], s[..n]) + Pass(lt, recs, s[n..], k)
  {
    hide Merge;
  }

  /** The run after the first, which may be missing. */
  lemma SecondRun<R(!new)>(lt: (R, R) -> bool, recs: seq<R>, s: seq<nat>, k: nat, lo: nat)
    requires k > 0 && Positions(s, |recs|) && Runs(lt, recs, s, k, lo)
    ensures var n := Min(k, |s|);
      && Positions(s[..n], |recs|) && Positions(s[n..], |recs|) && Ascending(lt, recs, s[..n])
      && (forall i :: 0 <= i < n ==> lo <= s[..n][i] < lo + n)
      && Runs(lt, recs, s[n..], k, lo + n)
  {
    hide Ascending, Runs;
    if s == [] {
      NothingAscends(lt, recs, s[..0]);
      assert s[0..] == s;
    } else {
      RunsUnfold(lt, recs, s, k, lo);
    }
  }

  /** A run in front of runs; it is shorter than the others only if none follows. */
  lemma RunsFold<R(!new)>(lt: (R, R) -> bool, recs: seq<R>, run: seq<nat>, rest: seq<nat>, k: nat, lo: nat)
    requires k > 0 && run != [] && Positions(run, |recs|) && Positions(rest, |recs|) && Ascending(lt, recs, run)
    requires |run| <= k && (rest != [] ==> |run| == k)
    requires forall i :: 0 <= i < |run| ==> lo <= run[i] < lo + |run|
    requires Runs(lt, recs, rest, k, lo + |run|)
    ensures Positions(run + rest, |recs|) && Runs(lt, recs, run + rest, k, lo)
  {
    hide Ascending;
    var all := run + rest;
    assert all[..|run|] == run && all[|run|..] == rest;
  }

  lemma RunsUnfold<R(!new)>(lt: (R, R) -> bool, recs: seq<R>, list: seq<nat>, k: nat, lo: nat)
    requires k > 0 && Positions(list, |recs|) && Runs(lt, recs, list, k, lo) && list != []
    ensures var m := Min(k, |list|);
      && Positions(list[..m], |recs|) && Positions(list[m..], |recs|)
      && Ascending(lt, recs, list[..m])
      && (forall i :: 0 <= i < m ==> lo <= list[..m][i] < lo + m)
      && Runs(lt, recs, list[m..], k, lo + m)
  {
    hide Ascending;
  }

  lemma NothingAscends<R>(lt: (R, R) -> bool, recs: seq<R>, s: seq<nat>)
    requires s == []
    ensures Positions(s, |recs|) && Ascending(lt, recs, s)
  {
  }

  /** Merging two neighbouring runs gives a run of their combined length. */
  lemma TwoRuns<R(!new)>(lt: (R, R) -> bool, recs: seq<R>, a: seq<nat>, b: seq<nat>, lo: nat)
    requires StrictWeakOrder(lt) && Positions(a, |recs|) && Positions(b, |recs|)
    requires Ascending(lt, recs, a) && Ascending(lt, recs, b)
    requires forall i :: 0 <= i < |a| ==> lo <= a[i] < lo + |a|
    requires forall i :: 0 <= i < |b| ==> lo + |a| <= b[i] < lo + |a| + |b|
    ensures var merged := Merge(lt, recs, a, b);
      Ascending(lt, recs, merged) && (forall i :: 0 <= i < |merged| ==> lo <= merged[i] < lo + |a| + |b|)
  {
    hide StrictWeakOrder, Ascending;
    MergeAscending(lt, recs, a, b);
    MergeKeepsElements(lt, recs, a, b);
    var merged := Merge(lt, recs, a, b);
    forall i | 0 <= i < |merged|
      ensures lo <= merged[i] < lo + |a| + |b|
    {
      assert merged[i] in merged;
    }
  }

  lemma PassOfNothing<R>(lt: (R, R) -> bool, recs: seq<R>, list: seq<nat>, k: nat)
    requires k > 0 && list == []
    ensures Positions(list, |recs|) && Pass(lt, recs, list, k) == []
  {
  }

  lemma {:induction false} PassKeepsElements<R>(lt: (R, R) -> bool, recs: seq<R>, list: seq<nat>, k: nat)
    requires k > 0 && Positions(list, |recs|)
    ensures forall p :: p in Pass(lt, recs, list, k) <==> p in list
    decreases |list|
  {
    hide Merge, Pass;
    if list == [] {
      PassOfNothing(lt, recs, list, k);
    } else {
      var m := Min(k, |list|);
      var s := list[m..];
      var n := Min(k, |s|);
      PassUnfold(lt, recs, list, k);
      PassKeepsElements(lt, recs, s[n..], k);
      MergeKeepsElements(lt, recs, list[..m], s[..n]);
      assert list == list[..m] + (s[..n] + s[n..]);
    }
  }

  lemma {:induction false} PassesSort<R(!new)>(lt: (R, R) -> bool, recs: seq<R>, list: seq<nat>, k: nat)
    requires StrictWeakOrder(lt) && k > 0 && Positions(list, |recs|) && Runs(lt, recs, list, k, 0)
    ensures Ascending(lt, recs, Passes(lt, recs, list, k))
    ensures forall p :: p in Passes(lt, recs, list, k) <==> p in list
    decreases |list| - k
  {
    var next := Pass(lt, recs, list, k);
    PassDoublesRuns(lt, recs, list, k, 0);
    PassKeepsElements(lt, recs, list, k);
    if |list| <= 2 * k {
      assert next[..|next|] == next;
    } else {
      PassesSort(lt, recs, next, 2 * k);
    }
  }

  lemma {:induction false} SingletonRuns<R(!new)>(lt: (R, R) -> bool, recs: seq<R>, list: seq<nat>, lo: nat)
    requires Positions(list, |recs|) && forall i :: 0 <= i < |list| ==> list[i] == lo + i
    ensures Runs(lt, recs, list, 1, lo)
    decreases |list|
  {
    if list != [] {
      SingletonRuns(lt, recs, list[1..], lo + 1);
    }
  }

  /** The order the sort leaves the elements in. */
  function SortedOrder<R>(lt: (R, R) -> bool, recs: seq<R>): (r: seq<nat>)
    ensures Positions(r, |recs|) && |r| == |recs|
  {
    Passes(lt, recs, Identity(|recs|), 1)
  }

  /** For every strict weak order the sort is a stable sort: every element once, in order, and elements
      that compare equal in the order they were inserted. */
  lemma SortIsStable<R(!new)>(lt: (R, R) -> bool, recs: seq<R>)
    requires StrictWeakOrder(lt)
    ensures IsStableSort(lt, recs, SortedOrder(lt, recs))
  {
    var list := Identity(|recs|);
    SingletonRuns(lt, recs, list, 0);
    PassesSort(lt, recs, list, 1);
    forall p | 0 <= p < |recs|
      ensures p in list
    {
      assert list[p] == p;
    }
  }

  lemma AscendingIsDistinct<R(!new)>(lt: (R, R) -> bool, recs: seq<R>, s: seq<nat>)
    requires StrictWeakOrder(lt) && Positions(s, |recs|) && Ascending(lt, recs, s)
    ensures forall i, j :: 0 <= i < j < |s| ==> s[i] != s[j]
  {
    forall i, j | 0 <= i < j < |s|
      ensures s[i] != s[j]
    {
      assert Before(lt, recs, s[i], s[j]);
    }
  }

  lemma SameOrLater<R(!new)>(lt: (R, R) -> bool, recs: seq<R>, a: seq<nat>, b: seq<nat>, k: nat, i: nat)
    requires StrictWeakOrder(lt) && IsStableSort(lt, recs, a) && IsStableSort(lt, recs, b)
    requires k < |recs| && i < |recs| && a[..k] == b[..k] && a[i] == b[k]
    ensures i == k || Before(lt, recs, a[k], a[i])
  {
    AscendingIsDistinct(lt, recs, b);
    forall m | 0 <= m < k
      ensures a[m] == b[m]
    {
      assert a[m] == a[..k][m];
    }
  }

  /** There is only one stable sort. */
  lemma {:induction false} StableSortIsUnique<R(!new)>(lt: (R, R) -> bool, recs: seq<R>, a: seq<nat>, b: seq<nat>,
      k: nat)
    requires StrictWeakOrder(lt) && IsStableSort(lt, recs, a) && IsStableSort(lt, recs, b) && k <= |recs|
    ensures a[..k] == b[..k]
    decreases k
  {
    if k > 0 {
      StableSortIsUnique(lt, recs, a, b, k - 1);
      BeforeIsTotal(lt, recs, a[k - 1], b[k - 1]);
      assert b[k - 1] in a && a[k - 1] in b;
      var i :| 0 <= i < |a| && a[i] == b[k - 1];
      var j :| 0 <= j < |b| && b[j] == a[k - 1];
      SameOrLater(lt, recs, a, b, k - 1, i);
      SameOrLater(lt, recs, b, a, k - 1, j);
      assert a[..k] == a[..k - 1] + [a[k - 1]] && b[..k] == b[..k - 1] + [b[k - 1]];
    }
  }
}
