/** Strict weak orders, and the one order a stable sort may leave its input in. */
module StableOrder {
  ghost predicate StrictWeakOrder<R(!new)>(lt: (R, R) -> bool) {
    && (forall a :: !lt(a, a))
    && (forall a, b, c :: lt(a, b) && lt(b, c) ==> lt(a, c))
    && (forall a, b, c :: !lt(a, b) && !lt(b, c) ==> !lt(a, c))
  }

  /** Position `a` comes before position `b` in a stable sort: its record is less, or neither is and it
      came in first. */
  predicate Before<R>(lt: (R, R) -> bool, recs: seq<R>, a: nat, b: nat)
    requires a < |recs| && b < |recs|
  {
    lt(recs[a], recs[b]) || (!lt(recs[b], recs[a]) && a < b)
  }

  lemma BeforeIsTotal<R(!new)>(lt: (R, R) -> bool, recs: seq<R>, a: nat, b: nat)
    requires StrictWeakOrder(lt) && a < |recs| && b < |recs|
    ensures a != b ==> (Before(lt, recs, a, b) <==> !Before(lt, recs, b, a))
    ensures !Before(lt, recs, a, a)
  {
  }

  lemma BeforeIsTransitive<R(!new)>(lt: (R, R) -> bool, recs: seq<R>, a: nat, b: nat, c: nat)
    requires StrictWeakOrder(lt) && a < |recs| && b < |recs| && c < |recs|
    requires Before(lt, recs, a, b) && Before(lt, recs, b, c)
    ensures Before(lt, recs, a, c)
  {
  }

  predicate Positions(s: seq<nat>, n: nat) {
    forall i :: 0 <= i < |s| ==> s[i] < n
  }

  predicate Ascending<R>(lt: (R, R) -> bool, recs: seq<R>, s: seq<nat>)
    requires Positions(s, |recs|)
  {
    forall i, j :: 0 <= i < j < |s| ==> Before(lt, recs, s[i], s[j])
  }

  /** `order` lists every position exactly once, in stable sorted order. */
  ghost predicate IsStableSort<R>(lt: (R, R) -> bool, recs: seq<R>, order: seq<nat>) {
    && |order| == |recs| && Positions(order, |recs|)
    && (forall p :: 0 <= p < |recs| ==> p in order)
    && Ascending(lt, recs, order)
  }

  lemma {:induction false} DistinctSubset(s: seq<nat>, n: nat)
    requires Positions(s, n) && forall i, j :: 0 <= i < j < |s| ==> s[i] != s[j]
    ensures |s| <= n
    decreases n
  {
    if s != [] {
      assert s[0] < n;
      if n - 1 in s {
        var k :| 0 <= k < |s| && s[k] == n - 1;
        var rest := s[..k] + s[k + 1..];
        DistinctSubset(rest, n - 1);
      } else {
        DistinctSubset(s, n - 1);
      }
    }
  }
}
