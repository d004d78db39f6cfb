/** np1/rel/detail/compare_specs.hpp: ordering records by several columns. */
module CompareSpecs {
  import opened StableOrder
  import opened MergeSort
  import MS = MergeSorter
  import opened ExternalSort
  import opened Compare

  datatype Spec = Spec(kind: Kind, fieldNumber: nat)

  type Fields = seq<string>

  /** `field`: a field that is not there compares as an empty text. */
  function Field(r: Fields, n: nat): string {
    if n < |r| then r[n] else ""
  }

  function SpecCompare(spec: Spec, r1: Fields, r2: Fields): int {
    CompareBy(spec.kind, Field(r1, spec.fieldNumber), Field(r2, spec.fieldNumber))
  }

  /** The first column that tells two records apart decides. */
  function KeyCompare(specs: seq<Spec>, r1: Fields, r2: Fields): int {
    if specs == [] then 0
    else if SpecCompare(specs[0], r1, r2) != 0 then SpecCompare(specs[0], r1, r2)
    else KeyCompare(specs[1..], r1, r2)
  }

  function KeyLess(specs: seq<Spec>): (Fields, Fields) -> bool {
    (r1: Fields, r2: Fields) => KeyCompare(specs, r1, r2) < 0
  }

  function KeyGreater(specs: seq<Spec>): (Fields, Fields) -> bool {
    (r1: Fields, r2: Fields) => KeyCompare(specs, r1, r2) > 0
  }

  /** compare_specs_less_than_sort_operator. */
  function LessThan(specs: seq<Spec>): (Record<Fields>, Record<Fields>) -> bool {
    (r1: Record<Fields>, r2: Record<Fields>) =>
      KeyCompare(specs, r1.data, r2.data) < 0 || (KeyCompare(specs, r1.data, r2.data) == 0 && r1.number < r2.number)
  }

  /** compare_specs_greater_than_sort_operator. */
  function GreaterThan(specs: seq<Spec>): (Record<Fields>, Record<Fields>) -> bool {
    (r1: Record<Fields>, r2: Record<Fields>) =>
      KeyCompare(specs, r1.data, r2.data) > 0 || (KeyCompare(specs, r1.data, r2.data) == 0 && r1.number > r2.number)
  }

  /** The loop of the sort operators, in the direction `less`. */
  method SortOperator(specs: seq<Spec>, less: bool, r1: Record<Fields>, r2: Record<Fields>) returns (r: bool)
    ensures r == if less then LessThan(specs)(r1, r2) else GreaterThan(specs)(r1, r2)
  {
    var i := 0;
    while i < |specs|
      invariant 0 <= i <= |specs| && KeyCompare(specs, r1.data, r2.data) == KeyCompare(specs[i..], r1.data, r2.data)
    {
      var f1, f2 := Field(r1.data, specs[i].fieldNumber), Field(r2.data, specs[i].fieldNumber);
      var result := CompareBy(specs[i].kind, f1, f2);
      if if less then result < 0 else result > 0 { return true; }
      if if less then result > 0 else result < 0 { return false; }
      assert specs[i..][1..] == specs[i + 1..];
      i := i + 1;
    }
    r := if less then r1.number < r2.number else r1.number > r2.number;
  }

  lemma {:induction false} KeyCompareIsOrder(specs: seq<Spec>, a: Fields, b: Fields, c: Fields)
    ensures KeyCompare(specs, a, b) == -KeyCompare(specs, b, a)
    ensures KeyCompare(specs, a, b) <= 0 && KeyCompare(specs, b, c) <= 0 ==>
              KeyCompare(specs, a, c) <= 0
              && (KeyCompare(specs, a, b) < 0 || KeyCompare(specs, b, c) < 0 ==> KeyCompare(specs, a, c) < 0)
  {
    if specs != [] {
      var n := specs[0].fieldNumber;
      hide CompareBy, Field;
      ComparisonIsOrder(specs[0].kind, Field(a, n), Field(b, n), Field(c, n));
      ComparisonIsOrder(specs[0].kind, Field(c, n), Field(b, n), Field(a, n));
      ComparisonIsOrder(specs[0].kind, Field(b, n), Field(c, n), Field(a, n));
      KeyCompareIsOrder(specs[1..], a, b, c);
    }
  }

  lemma KeyIsStrictWeak(specs: seq<Spec>)
    ensures StrictWeakOrder(KeyLess(specs)) && StrictWeakOrder(KeyGreater(specs))
  {
    hide KeyCompare;
    var less, greater := KeyLess(specs), KeyGreater(specs);
    forall a, b ensures less(a, b) == (KeyCompare(specs, a, b) < 0) && greater(a, b) == less(b, a) {
      KeyCompareIsOrder(specs, a, b, b);
    }
    forall a, b, c
      ensures !less(a, a) && (less(a, b) && less(b, c) ==> less(a, c)) && (!less(a, b) && !less(b, c) ==> !less(a, c))
    {
      KeyLessIsStrictWeak(specs, a, b, c);
    }
  }

  lemma KeyLessIsStrictWeak(specs: seq<Spec>, a: Fields, b: Fields, c: Fields)
    ensures var less := KeyLess(specs);
            !less(a, a) && (less(a, b) && less(b, c) ==> less(a, c)) && (!less(a, b) && !less(b, c) ==> !less(a, c))
  {
    hide KeyCompare;
    KeyCompareIsOrder(specs, a, b, c);
    KeyCompareIsOrder(specs, c, b, a);
    KeyCompareIsOrder(specs, a, c, b);
    KeyCompareIsOrder(specs, a, a, a);
  }

  /** Both operators order by the key and then by record number, and greater-than is the converse of
      less-than: on records with different numbers each is a strict total order. */
  lemma OperatorsOrderRecords(specs: seq<Spec>)
    ensures OrdersRecords(LessThan(specs), KeyLess(specs), false)
    ensures OrdersRecords(GreaterThan(specs), KeyGreater(specs), true)
    ensures forall a: Record<Fields>, b: Record<Fields> :: GreaterThan(specs)(a, b) == LessThan(specs)(b, a)
  {
    hide KeyCompare;
    KeyIsStrictWeak(specs);
    forall a: Record<Fields>, b: Record<Fields>
      ensures KeyCompare(specs, a.data, b.data) == -KeyCompare(specs, b.data, a.data)
    {
      KeyCompareIsOrder(specs, a.data, b.data, a.data);
    }
  }

  function Reverse<T>(s: seq<T>): (r: seq<T>)
    ensures |r| == |s| && forall i :: 0 <= i < |r| ==> r[i] == s[|s| - 1 - i]
  {
    seq(|s|, i requires 0 <= i < |s| => s[|s| - 1 - i])
  }

  /** Sorting in descending order gives exactly the reverse of sorting in ascending order, records with
      equal keys included. */
  lemma DescendingIsReverse(specs: seq<Spec>, input: seq<Record<Fields>>)
    requires Numbered(input)
    ensures SortedData(GreaterThan(specs), input) == Reverse(SortedData(LessThan(specs), input))
  {
    hide LessThan, GreaterThan, SortedOrder, Before;
    var lt, gt := LessThan(specs), GreaterThan(specs);
    OperatorsOrderRecords(specs);
    OperatorIsTotal(lt, KeyLess(specs), false);
    OperatorIsTotal(gt, KeyGreater(specs), true);
    SortIsStable(lt, input);
    SortIsStable(gt, input);
    var o, r := SortedOrder(lt, input), Reverse(SortedOrder(lt, input));
    AscendingIsDistinct(lt, input, o);
    forall i, j | 0 <= i < j < |r| ensures Before(gt, input, r[i], r[j]) {
      assert Before(lt, input, o[|o| - 1 - j], o[|o| - 1 - i]);
      BeforeIsLess(lt, KeyLess(specs), false, input, r[j], r[i]);
      BeforeIsLess(gt, KeyGreater(specs), true, input, r[i], r[j]);
    }
    forall p | 0 <= p < |input| ensures p in r {
      assert p in o;
      var k :| 0 <= k < |o| && o[k] == p;
      assert r[|o| - 1 - k] == p;
    }
    StableSortIsUnique(gt, input, r, SortedOrder(gt, input), |input|);
    assert r[..|input|] == r && SortedOrder(gt, input)[..|input|] == SortedOrder(gt, input);
  }

  /** What an ascending sort emits: a stable sort of the input by the key alone. */
  lemma AscendingIsStable(specs: seq<Spec>, input: seq<Record<Fields>>)
    requires Numbered(input)
    ensures IsStableSort(KeyLess(specs), DataOf(input), SortedOrder(LessThan(specs), input))
  {
    var lt, key := LessThan(specs), KeyLess(specs);
    OperatorsOrderRecords(specs);
    OperatorIsTotal(lt, key, false);
    SortIsStable(lt, input);
    var o := SortedOrder(lt, input);
    AscendingIsDistinct(lt, input, o);
    forall i, j | 0 <= i < j < |o| ensures Before(key, DataOf(input), o[i], o[j]) {
      assert Before(lt, input, o[i], o[j]);
      BeforeIsLess(lt, key, false, input, o[i], o[j]);
    }
  }
}
