/** What ordering, equality and counting by several columns mean, column by column: the results of order_by, unique
    and count in terms of the records themselves. */
module ColumnOrder {
  import opened Compare
  import opened CompareSpecs
  import opened Multimap
  import opened StableOrder
  import opened MergeSort
  import opened ExternalSort
  import JoinedRows
  import SM = SortManager

  function CompareColumn(specs: seq<Spec>, r1: Fields, r2: Fields, k: nat): int
    requires k < |specs|
  {
    var n := specs[k].fieldNumber;
    CompareBy(specs[k].kind, if n < |r1| then r1[n] else "", if n < |r2| then r2[n] else "")
  }

  /** Every column compares equal. */
  predicate EqualColumns(specs: seq<Spec>, r1: Fields, r2: Fields) {
    forall k :: 0 <= k < |specs| ==> CompareColumn(specs, r1, r2, k) == 0
  }

  /** Column `k` is the first in which the records do not compare equal. */
  predicate DecidedAt(specs: seq<Spec>, r1: Fields, r2: Fields, k: nat) {
    && k < |specs| && CompareColumn(specs, r1, r2, k) != 0
    && forall i :: 0 <= i < k ==> CompareColumn(specs, r1, r2, i) == 0
  }

  lemma {:induction false} KeyCompareByColumns(specs: seq<Spec>, r1: Fields, r2: Fields)
    ensures KeyCompare(specs, r1, r2) == 0 <==> EqualColumns(specs, r1, r2)
    ensures forall k: nat :: DecidedAt(specs, r1, r2, k) ==>
      KeyCompare(specs, r1, r2) == CompareColumn(specs, r1, r2, k)
    ensures KeyCompare(specs, r1, r2) != 0 ==> exists k: nat :: DecidedAt(specs, r1, r2, k)
  {
    hide CompareBy;
    if specs != [] {
      KeyCompareByColumns(specs[1..], r1, r2);
      assert forall k: nat :: 1 <= k < |specs| ==>
        CompareColumn(specs, r1, r2, k) == CompareColumn(specs[1..], r1, r2, k - 1);
      if CompareColumn(specs, r1, r2, 0) != 0 {
        assert DecidedAt(specs, r1, r2, 0);
      } else if KeyCompare(specs, r1, r2) != 0 {
        var k: nat :| DecidedAt(specs[1..], r1, r2, k);
        assert DecidedAt(specs, r1, r2, k + 1);
      }
    }
  }

  lemma EqualKeyByColumns(specs: seq<Spec>, r1: Fields, r2: Fields)
    ensures CompareTexts(Kinds(specs), Texts(specs, r1), Texts(specs, r2)) == 0 <==> EqualColumns(specs, r1, r2)
  {
    hide CompareBy;
    JoinedRows.EqualTextsExactly(Kinds(specs), Texts(specs, r1), Texts(specs, r2));
    assert forall k :: 0 <= k < |specs| ==>
      CompareColumn(specs, r1, r2, k) == CompareBy(Kinds(specs)[k], Texts(specs, r1)[k], Texts(specs, r2)[k]);
  }

  // --- order_by. ---

  /** The record at place `p` of the input belongs before the one at `q`: the first column that tells them apart says
      so, or none does and the one that came first, or last when descending, goes first. */
  predicate Precedes(specs: seq<Spec>, data: seq<Fields>, descending: bool, p: nat, q: nat)
    requires p < |data| && q < |data|
  {
    || (exists k: nat :: k < |specs| && DecidedAt(specs, data[p], data[q], k)
         && if descending then CompareColumn(specs, data[p], data[q], k) > 0
            else CompareColumn(specs, data[p], data[q], k) < 0)
    || (EqualColumns(specs, data[p], data[q]) && if descending then p > q else p < q)
  }

  /** The output has every record of the input once, in that order. */
  ghost predicate IsOrderedBy(specs: seq<Spec>, data: seq<Fields>, descending: bool, output: seq<Fields>) {
    exists places: seq<nat> ::
      && |places| == |data| == |output| && (forall p: nat :: p in places <==> p < |data|)
      && (forall k :: 0 <= k < |output| ==> places[k] < |data| && output[k] == data[places[k]])
      && forall k, l :: 0 <= k < l < |places| ==> Precedes(specs, data, descending, places[k], places[l])
  }

  lemma OperatorIs(specs: seq<Spec>, data: seq<Fields>, descending: bool, p: nat, q: nat)
    requires p < |data| && q < |data|
    ensures var c := KeyCompare(specs, data[p], data[q]);
      (if descending then GreaterThan(specs) else LessThan(specs))(SM.Number(data)[p], SM.Number(data)[q])
      <==> if descending then c > 0 || (c == 0 && p > q) else c < 0 || (c == 0 && p < q)
  {
    hide KeyCompare;
    var recs := SM.Number(data);
    assert recs[p] == Record(data[p], p + 1) && recs[q] == Record(data[q], q + 1);
  }

  lemma PrecedesByKey(specs: seq<Spec>, data: seq<Fields>, descending: bool, p: nat, q: nat)
    requires p < |data| && q < |data|
    ensures var c := KeyCompare(specs, data[p], data[q]);
      Precedes(specs, data, descending, p, q)
      <==> if descending then c > 0 || (c == 0 && p > q) else c < 0 || (c == 0 && p < q)
  {
    hide KeyCompare, EqualColumns, CompareColumn;
    var r1, r2 := data[p], data[q];
    KeyCompareByColumns(specs, r1, r2);
    if KeyCompare(specs, r1, r2) != 0 {
      var k: nat :| DecidedAt(specs, r1, r2, k);
      assert k < |specs| && DecidedAt(specs, r1, r2, k);
    }
  }

  /** What order_by emits, in both directions. */
  lemma SortedRows(specs: seq<Spec>, data: seq<Fields>, descending: bool)
    ensures IsOrderedBy(specs, data, descending,
                        SortedData(if descending then GreaterThan(specs) else LessThan(specs), SM.Number(data)))
  {
    hide LessThan, GreaterThan, SortedOrder, Precedes, KeyCompare, StrictWeakOrder, Before;
    var lt := if descending then GreaterThan(specs) else LessThan(specs);
    var key := if descending then KeyGreater(specs) else KeyLess(specs);
    var recs := SM.Number(data);
    OperatorsOrderRecords(specs);
    OperatorIsTotal(lt, key, descending);
    SortIsStable(lt, recs);
    var places := SortedOrder(lt, recs);
    AscendingIsDistinct(lt, recs, places);
    forall k, l | 0 <= k < l < |places| ensures Precedes(specs, data, descending, places[k], places[l]) {
      assert Before(lt, recs, places[k], places[l]);
      assert recs[places[k]].number == places[k] + 1 && recs[places[l]].number == places[l] + 1;
      BeforeIsLess(lt, key, descending, recs, places[k], places[l]);
      OperatorIs(specs, data, descending, places[k], places[l]);
      PrecedesByKey(specs, data, descending, places[k], places[l]);
    }
  }
}
