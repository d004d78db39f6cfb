/** Exactly when the median callback of np1/rel/group.hpp writes the middle record of each group, for records in any
    order, and so for the aggregated column at any place among the headings. */
module GroupRuns {
  import opened Wrappers
  import opened Compare
  import opened CompareSpecs
  import opened Multimap
  import opened HashTable
  import opened GroupCount
  import opened GM = GroupMedian
  import RM = RecordMultiHashMap
  import opened StableOrder
  import opened MergeSort
  import opened ExternalSort
  import SM = SortManager
  import opened ColumnOrder

  /** How many records of `s` are in the group of `r`. */
  function Size(specs: seq<Spec>, s: seq<Fields>, r: Fields): nat {
    CountOf(specs, s, Texts(specs, r))
  }

  lemma SizeOfNone(specs: seq<Spec>, s: seq<Fields>, r: Fields)
    ensures Size(specs, s[..0], r) == 0
  {
  }

  lemma SizeNext(specs: seq<Spec>, s: seq<Fields>, k: nat, r: Fields)
    requires k < |s|
    ensures Size(specs, s[..k + 1], r) == Size(specs, s[..k], r) + if SameGroup(specs, s[k], r) then 1 else 0
  {
    hide CompareTexts;
    assert s[..k + 1] == s[..k] + [s[k]];
    CountNext(specs, s[..k], s[k], Texts(specs, r));
  }

  lemma SizeAlike(specs: seq<Spec>, s: seq<Fields>, a: Fields, b: Fields)
    requires SameGroup(specs, a, b)
    ensures Size(specs, s, a) == Size(specs, s, b)
  {
    SameKeyCounts(specs, s, Texts(specs, a), Texts(specs, b));
  }

  lemma {:induction false} SizeGrows(specs: seq<Spec>, s: seq<Fields>, k: nat, n: nat, r: Fields)
    requires k <= n <= |s|
    ensures Size(specs, s[..k], r) <= Size(specs, s[..n], r)
    decreases n
  {
    hide Size;
    if k < n {
      SizeGrows(specs, s, k, n - 1, r);
      SizeNext(specs, s, n - 1, r);
    }
  }

  /** Of the records of its group, the record at `j` is the how-manyeth. */
  function Rank(specs: seq<Spec>, s: seq<Fields>, j: nat): nat
    requires j < |s|
  {
    Size(specs, s[..j + 1], s[j])
  }

  /** The rank of the middle record of the group of the record at `j`. */
  function Middle(specs: seq<Spec>, s: seq<Fields>, j: nat): nat
    requires j < |s|
  {
    (Size(specs, s, s[j]) + 1) / 2
  }

  /** A run of records of one group starts here. */
  predicate Starts(specs: seq<Spec>, s: seq<Fields>, p: nat)
    requires p < |s|
  {
    p == 0 || !SameGroup(specs, s[p - 1], s[p])
  }

  /** The place of the record at `j` within its run. */
  function PlaceInRun(specs: seq<Spec>, s: seq<Fields>, j: nat): (r: nat)
    requires j < |s|
    ensures 1 <= r <= j + 1
  {
    if Starts(specs, s, j) then 1 else PlaceInRun(specs, s, j - 1) + 1
  }

  function RunLength(specs: seq<Spec>, s: seq<Fields>, p: nat): nat
    requires p < |s|
  {
    GroupLength(specs, s[p], s[p..])
  }

  predicate IsWritten(specs: seq<Spec>, s: seq<Fields>, j: nat)
    requires j < |s|
  {
    PlaceInRun(specs, s, j) == Middle(specs, s, j)
  }

  predicate IsMiddle(specs: seq<Spec>, s: seq<Fields>, j: nat)
    requires j < |s|
  {
    Rank(specs, s, j) == Middle(specs, s, j)
  }

  /** A record is the middle one of its group when as many records of the group come behind it as before it, or one
      more. */
  lemma MiddleSplitsGroup(specs: seq<Spec>, s: seq<Fields>, j: nat)
    requires j < |s|
    ensures var before := set x: nat | x < j && EqualColumns(specs, s[x], s[j]);
      var behind := set x: nat | j < x < |s| && EqualColumns(specs, s[x], s[j]);
      IsMiddle(specs, s, j) <==> |behind| == |before| || |behind| == |before| + 1
  {
    hide CountOf, EqualColumns, CompareTexts, SameGroup;
    var r := s[j];
    var before := set x: nat | x < j && EqualColumns(specs, s[x], r);
    var behind := set x: nat | j < x < |s| && EqualColumns(specs, s[x], r);
    var all := set x: nat | x < |s| && EqualColumns(specs, s[x], r);
    CountIsNumber(specs, s, r);
    RankIsNumber(specs, s, j);
    EqualToItself(specs, r);
    ThreeParts(all, before, j, behind);
  }

  lemma ThreeParts(all: set<nat>, before: set<nat>, j: nat, behind: set<nat>)
    requires forall x :: x in all <==> x in before || x == j || x in behind
    requires (forall x <- before :: x < j) && forall x <- behind :: j < x
    ensures |all| == |before| + 1 + |behind|
  {
    assert all == before + {j} + behind;
  }

  lemma RankIsNumber(specs: seq<Spec>, s: seq<Fields>, j: nat)
    requires j < |s|
    ensures Rank(specs, s, j) == |set x: nat | x < j && EqualColumns(specs, s[x], s[j])| + 1
  {
    hide CountOf, EqualColumns;
    var r, first := s[j], s[..j];
    SizeNext(specs, s, j, r);
    CountIsNumber(specs, first, r);
    SameGroupIsEquivalence(specs, r, r, r);
    assert (set x: nat | x < |first| && EqualColumns(specs, first[x], r))
        == set x: nat | x < j && EqualColumns(specs, s[x], r);
  }

  lemma EqualToItself(specs: seq<Spec>, r: Fields)
    ensures EqualColumns(specs, r, r)
  {
    hide CompareTexts;
    CompareTextsIsOrder(Kinds(specs), Texts(specs, r), Texts(specs, r), Texts(specs, r));
    EqualKeyByColumns(specs, r, r);
  }

  /** The records at the places that are written. */
  function Written(specs: seq<Spec>, s: seq<Fields>, from: nat): seq<Fields>
    requires from <= |s|
    decreases |s| - from
  {
    if from == |s| then []
    else (if IsWritten(specs, s, from) then [s[from]] else []) + Written(specs, s, from + 1)
  }

  /** The middle record of each group: of n records the ((n + 1) / 2)-th. */
  function MiddleRecords(specs: seq<Spec>, s: seq<Fields>, from: nat): seq<Fields>
    requires from <= |s|
    decreases |s| - from
  {
    if from == |s| then []
    else (if IsMiddle(specs, s, from) then [s[from]] else []) + MiddleRecords(specs, s, from + 1)
  }

  /** Written are the middle records and no others. */
  predicate MiddlesWritten(specs: seq<Spec>, s: seq<Fields>) {
    forall j :: 0 <= j < |s| ==> (IsWritten(specs, s, j) <==> IsMiddle(specs, s, j))
  }

  /** The first run of each group holds its middle, and every later run is shorter than that. */
  predicate RunsFit(specs: seq<Spec>, s: seq<Fields>) {
    forall p :: 0 <= p < |s| && Starts(specs, s, p) ==>
      if Rank(specs, s, p) == 1 then Middle(specs, s, p) <= RunLength(specs, s, p)
      else RunLength(specs, s, p) < Middle(specs, s, p)
  }

  /** What the callback holds before the record at `j`. */
  predicate Holding(specs: seq<Spec>, s: seq<Fields>, state: State, j: nat)
    requires j <= |s|
  {
    if j == 0 then state == START
    else
      && !state.isFirst && SameGroup(specs, state.example, s[j - 1])
      && state.counter == PlaceInRun(specs, s, j - 1) && state.medianOffset == Middle(specs, s, j - 1)
  }

  /** One call writes the record at `j` exactly when it is at the middle's place of its run. */
  lemma StepAt(specs: seq<Spec>, s: seq<Fields>, state: State, j: nat)
    requires j < |s| && Holding(specs, s, state, j)
    ensures var (state', write) := Step(specs, state, s[j], CountOf(specs, s, Texts(specs, s[j])));
      Holding(specs, s, state', j + 1) && write == IsWritten(specs, s, j)
  {
    hide SameGroup, CountOf;
    SameGroupIsEquivalence(specs, s[j], s[j], s[j]);
    if j > 0 {
      SameGroupIsEquivalence(specs, state.example, s[j - 1], s[j]);
      SameGroupIsEquivalence(specs, s[j - 1], state.example, s[j]);
      if SameGroup(specs, s[j - 1], s[j]) {
        SizeAlike(specs, s, s[j - 1], s[j]);
      }
    }
  }

  lemma {:induction false} WalkWrites(specs: seq<Spec>, s: seq<Fields>, state: State, j: nat)
    requires j <= |s| && Holding(specs, s, state, j)
    ensures Walk(specs, s, state, s[j..]) == Written(specs, s, j)
    decreases |s| - j
  {
    hide SameGroup, CountOf, Holding, IsWritten, Step, Walk;
    if j == |s| {
      WalkNone(specs, s, state);
    } else {
      assert s[j..][0] == s[j] && s[j..][1..] == s[j + 1..];
      WalkOne(specs, s, state, s[j..]);
      StepAt(specs, s, state, j);
      var (state', write) := Step(specs, state, s[j], CountOf(specs, s, Texts(specs, s[j])));
      WalkWrites(specs, s, state', j + 1);
    }
  }

  /** The callback over a whole list. */
  lemma WalkIsWritten(specs: seq<Spec>, s: seq<Fields>)
    ensures Walk(specs, s, START, s) == Written(specs, s, 0)
  {
    hide SameGroup, Walk;
    WalkWrites(specs, s, START, 0);
    assert s[0..] == s;
  }

  lemma {:induction false} WrittenAreMiddles(specs: seq<Spec>, s: seq<Fields>, from: nat)
    requires from <= |s| && MiddlesWritten(specs, s)
    ensures Written(specs, s, from) == MiddleRecords(specs, s, from)
    decreases |s| - from
  {
    hide IsWritten, IsMiddle;
    if from < |s| {
      WrittenAreMiddles(specs, s, from + 1);
    }
  }

  /** The run a record is in starts as many records before it as its place says, and it has as many of its group
      before it as that start has, and those in between. */
  lemma {:induction false} RunOf(specs: seq<Spec>, s: seq<Fields>, j: nat) returns (p: nat)
    requires j < |s|
    ensures p == j + 1 - PlaceInRun(specs, s, j) && Starts(specs, s, p)
    ensures forall i :: p <= i <= j ==> SameGroup(specs, s[p], s[i])
    ensures Rank(specs, s, j) == Rank(specs, s, p) + (j - p)
  {
    hide SameGroup, Size;
    SameGroupIsEquivalence(specs, s[j], s[j], s[j]);
    if Starts(specs, s, j) {
      p := j;
    } else {
      p := RunOf(specs, s, j - 1);
      SameGroupIsEquivalence(specs, s[p], s[j - 1], s[j]);
      SizeNext(specs, s, j, s[j]);
      SizeAlike(specs, s[..j], s[j - 1], s[j]);
    }
  }

  lemma {:induction false} LongerRun(specs: seq<Spec>, first: Fields, s: seq<Fields>, n: nat)
    requires n <= |s| && forall i :: 0 <= i < n ==> SameGroup(specs, first, s[i])
    ensures n <= GroupLength(specs, first, s)
  {
    hide SameGroup;
    if n > 0 {
      assert SameGroup(specs, first, s[0]);
      LongerRun(specs, first, s[1..], n - 1);
    }
  }

  lemma PlaceFits(specs: seq<Spec>, s: seq<Fields>, j: nat, p: nat)
    requires p <= j < |s| && forall i :: p <= i <= j ==> SameGroup(specs, s[p], s[i])
    ensures j - p < RunLength(specs, s, p)
  {
    hide SameGroup;
    forall i | 0 <= i < j - p + 1 ensures SameGroup(specs, s[p], s[p..][i]) {
      assert s[p..][i] == s[p + i];
    }
    LongerRun(specs, s[p], s[p..], j - p + 1);
  }

  /** The records of a run have its places in order. */
  lemma {:induction false} PlacesOfRun(specs: seq<Spec>, s: seq<Fields>, p: nat, t: nat)
    requires p < |s| && Starts(specs, s, p) && t < RunLength(specs, s, p)
    ensures p + t < |s| && SameGroup(specs, s[p], s[p + t]) && PlaceInRun(specs, s, p + t) == t + 1
  {
    hide SameGroup, GroupLength;
    assert s[p..][t] == s[p + t];
    if t > 0 {
      PlacesOfRun(specs, s, p, t - 1);
      SameGroupIsEquivalence(specs, s[p], s[p + t - 1], s[p + t]);
      SameGroupIsEquivalence(specs, s[p + t - 1], s[p], s[p + t]);
    }
  }

  /** Every rank up to the size of a group occurs. */
  lemma {:induction false} RankOccurs(specs: seq<Spec>, s: seq<Fields>, r: Fields, k: nat, m: nat) returns (j: nat)
    requires k <= |s| && 1 <= m <= Size(specs, s[..k], r)
    ensures j < k && SameGroup(specs, s[j], r) && Rank(specs, s, j) == m
    decreases k
  {
    hide SameGroup, Size;
    if k == 0 {
      SizeOfNone(specs, s, r);
      assert false;
    } else {
      SizeNext(specs, s, k - 1, r);
      if m <= Size(specs, s[..k - 1], r) {
        j := RankOccurs(specs, s, r, k - 1, m);
      } else {
        j := k - 1;
        SizeAlike(specs, s[..k], s[k - 1], r);
      }
    }
  }

  lemma OneFirst(specs: seq<Spec>, s: seq<Fields>, p: nat, q: nat)
    requires p < |s| && q < |s| && SameGroup(specs, s[p], s[q]) && Rank(specs, s, p) == Rank(specs, s, q) == 1
    ensures p == q
  {
    hide SameGroup, Size;
    SameGroupIsEquivalence(specs, s[p], s[q], s[p]);
    SizeAlike(specs, s[..p + 1], s[p], s[q]);
    SizeAlike(specs, s[..q + 1], s[q], s[p]);
    SameGroupIsEquivalence(specs, s[p], s[p], s[p]);
    SameGroupIsEquivalence(specs, s[q], s[q], s[q]);
    if p < q {
      SizeNext(specs, s, q, s[q]);
      SizeGrows(specs, s, p + 1, q, s[q]);
    } else if q < p {
      SizeNext(specs, s, p, s[p]);
      SizeGrows(specs, s, q + 1, p, s[p]);
    }
  }

  lemma RankPositive(specs: seq<Spec>, s: seq<Fields>, j: nat)
    requires j < |s|
    ensures 1 <= Rank(specs, s, j) <= Size(specs, s, s[j]) && 1 <= Middle(specs, s, j) <= Size(specs, s, s[j])
  {
    hide SameGroup, Size;
    SameGroupIsEquivalence(specs, s[j], s[j], s[j]);
    SizeNext(specs, s, j, s[j]);
    SizeGrows(specs, s, j + 1, |s|, s[j]);
    assert s[..|s|] == s;
  }

  lemma WrittenAt(specs: seq<Spec>, s: seq<Fields>, j: nat)
    requires MiddlesWritten(specs, s) && j < |s|
    ensures PlaceInRun(specs, s, j) == Middle(specs, s, j) <==> Rank(specs, s, j) == Middle(specs, s, j)
  {
    assert IsWritten(specs, s, j) <==> IsMiddle(specs, s, j);
  }

  lemma EarlierRank(specs: seq<Spec>, s: seq<Fields>, i: nat, j: nat)
    requires i < j < |s| && SameGroup(specs, s[i], s[j])
    ensures Rank(specs, s, i) < Rank(specs, s, j)
  {
    hide SameGroup, Size;
    SameGroupIsEquivalence(specs, s[j], s[j], s[j]);
    SizeAlike(specs, s[..i + 1], s[i], s[j]);
    SizeGrows(specs, s, i + 1, j, s[j]);
    SizeNext(specs, s, j, s[j]);
  }

  /** Behind a first run that holds the middle, all ranks are past it. */
  lemma LaterIsPast(specs: seq<Spec>, s: seq<Fields>, p: nat)
    requires RunsFit(specs, s) && p < |s| && Starts(specs, s, p) && Rank(specs, s, p) != 1
    ensures Middle(specs, s, p) < Rank(specs, s, p)
  {
    hide SameGroup, Size, GroupLength, Starts;
    RankPositive(specs, s, p);
    assert s[..|s|] == s;
    var f := RankOccurs(specs, s, s[p], |s|, 1);
    var q := RunOf(specs, s, f);
    RankPositive(specs, s, q);
    SizeAlike(specs, s, s[f], s[p]);
    var m := Middle(specs, s, p);
    PlacesOfRun(specs, s, f, m - 1);
    var j := f + m - 1;
    SameGroupIsEquivalence(specs, s[f], s[j], s[p]);
    SameGroupIsEquivalence(specs, s[j], s[f], s[p]);
    SameGroupIsEquivalence(specs, s[p], s[f], s[p]);
    if p < f {
      EarlierRank(specs, s, p, f);
    } else if p <= j {
      PlacesOfRun(specs, s, f, p - f);
      StartsPlace(specs, s, p);
    } else {
      var q2 := RunOf(specs, s, j);
      EarlierRank(specs, s, j, p);
    }
  }

  lemma StartsPlace(specs: seq<Spec>, s: seq<Fields>, p: nat)
    requires p < |s|
    ensures Starts(specs, s, p) <==> PlaceInRun(specs, s, p) == 1
  {
  }

  lemma FitMeansWritten(specs: seq<Spec>, s: seq<Fields>, j: nat)
    requires RunsFit(specs, s) && j < |s|
    ensures IsWritten(specs, s, j) <==> IsMiddle(specs, s, j)
  {
    hide SameGroup, Size, GroupLength, Starts;
    var p := RunOf(specs, s, j);
    PlaceFits(specs, s, j, p);
    SizeAlike(specs, s, s[p], s[j]);
    if Rank(specs, s, p) != 1 {
      LaterIsPast(specs, s, p);
    }
  }

  lemma WrittenMeansFit(specs: seq<Spec>, s: seq<Fields>, p: nat)
    requires MiddlesWritten(specs, s) && p < |s| && Starts(specs, s, p)
    ensures if Rank(specs, s, p) == 1 then Middle(specs, s, p) <= RunLength(specs, s, p)
      else RunLength(specs, s, p) < Middle(specs, s, p)
  {
    hide SameGroup, Size, GroupLength, Starts;
    var m := Middle(specs, s, p);
    RankPositive(specs, s, p);
    if Rank(specs, s, p) == 1 {
      assert s[..|s|] == s;
      var j := RankOccurs(specs, s, s[p], |s|, m);
      SizeAlike(specs, s, s[j], s[p]);
      assert IsMiddle(specs, s, j) && IsWritten(specs, s, j);
      var q := RunOf(specs, s, j);
      PlaceFits(specs, s, j, q);
      SameGroupIsEquivalence(specs, s[q], s[j], s[p]);
      SameGroupIsEquivalence(specs, s[p], s[q], s[p]);
      OneFirst(specs, s, p, q);
    } else if m <= RunLength(specs, s, p) {
      PlacesOfRun(specs, s, p, m - 1);
      var j := p + m - 1;
      SizeAlike(specs, s, s[p], s[j]);
      var q := RunOf(specs, s, j);
      WrittenAt(specs, s, j);
      assert false;
    }
  }

  /** The callback writes exactly the middle record of each group if and only if the first run of each group holds it
      and every later run of the group is shorter than that. */
  lemma MiddlesWrittenExactly(specs: seq<Spec>, s: seq<Fields>)
    ensures MiddlesWritten(specs, s) <==> RunsFit(specs, s)
  {
    if RunsFit(specs, s) {
      forall j | 0 <= j < |s| ensures IsWritten(specs, s, j) <==> IsMiddle(specs, s, j) {
        FitMeansWritten(specs, s, j);
      }
    }
    if MiddlesWritten(specs, s) {
      forall p | 0 <= p < |s| && Starts(specs, s, p)
        ensures if Rank(specs, s, p) == 1 then Middle(specs, s, p) <= RunLength(specs, s, p)
          else RunLength(specs, s, p) < Middle(specs, s, p)
      {
        WrittenMeansFit(specs, s, p);
      }
    }
  }

  // --- The place of the aggregated column among the headings. ---

  /** With the groups standing together every group is one run. */
  lemma ContiguousFits(specs: seq<Spec>, s: seq<Fields>)
    requires Contiguous(specs, s)
    ensures RunsFit(specs, s)
  {
    hide SameGroup, CountOf, GroupLength, Contiguous;
    forall p: nat | p < |s| && Starts(specs, s, p)
      ensures Rank(specs, s, p) == 1 && Middle(specs, s, p) <= RunLength(specs, s, p)
    {
      GroupCounted(specs, s, p, RunLength(specs, s, p));
      RankPositive(specs, s, p);
      assert s[..|s|] == s;
      var f := RankOccurs(specs, s, s[p], |s|, 1);
      FirstIsStart(specs, s, f, p);
    }
  }

  lemma FirstIsStart(specs: seq<Spec>, s: seq<Fields>, f: nat, p: nat)
    requires Contiguous(specs, s) && f < |s| && p < |s| && Starts(specs, s, p)
    requires SameGroup(specs, s[f], s[p]) && Rank(specs, s, f) == 1
    ensures Rank(specs, s, p) == 1
  {
    hide SameGroup, Size;
    SameGroupIsEquivalence(specs, s[f], s[p], s[f]);
    RankPositive(specs, s, p);
    if f < p {
      SameGroupIsEquivalence(specs, s[f], s[p - 1], s[f]);
      SameGroupIsEquivalence(specs, s[p - 1], s[f], s[p]);
      Between(specs, s, f, p - 1, p);
      assert false;
    } else if p < f {
      EarlierRank(specs, s, p, f);
    }
  }

  lemma Between(specs: seq<Spec>, s: seq<Fields>, i: int, j: int, k: int)
    requires 0 <= i && Contiguous(specs, s) && i <= j <= k < |s| && SameGroup(specs, s[i], s[k])
    ensures SameGroup(specs, s[i], s[j])
  {
    hide SameGroup;
  }

  predicate DistinctColumns(specs: seq<Spec>) {
    forall i, j :: 0 <= i < j < |specs| ==> specs[i].fieldNumber != specs[j].fieldNumber
  }

  /** The sorted records of an input, the aggregated column standing between the columns before and after it. */
  function Sorted(pre: seq<Spec>, aggregator: Spec, post: seq<Spec>, input: seq<Fields>): seq<Fields> {
    SortedData(LessThan(pre + [aggregator] + post), SM.Number(input))
  }

  /** For every heading line with the aggregated column anywhere: the middle record of each group is written, for all
      inputs, if and only if the column is the last. */
  lemma RightExactlyWhenLast(pre: seq<Spec>, aggregator: Spec, post: seq<Spec>)
    requires DistinctColumns(pre + [aggregator] + post)
    ensures post == []
       <==> forall input :: AllKeyed(pre + post, input) ==> MiddlesWritten(pre + post,
       Sorted(pre, aggregator, post, input))
  {
    hide MiddlesWritten, AllKeyed, Contiguous, RunsFit, SortedData;
    if post == [] {
      forall input ensures MiddlesWritten(pre + post, Sorted(pre, aggregator, post, input)) {
        assert pre + post == pre && pre + [aggregator] + post == pre + [aggregator];
        SortedIsContiguous(pre, aggregator, input);
        ContiguousFits(pre, Sorted(pre, aggregator, post, input));
        MiddlesWrittenExactly(pre, Sorted(pre, aggregator, post, input));
      }
    } else {
      NotRightWhenNotLast(pre, aggregator, post);
    }
  }

  /** One more than every column number. */
  function Width(specs: seq<Spec>): (n: nat)
    ensures forall i :: 0 <= i < |specs| ==> specs[i].fieldNumber < n
  {
    if specs == [] then 0
    else
      var rest := Width(specs[1..]);
      assert forall i :: 1 <= i < |specs| ==> specs[i] == specs[1..][i - 1];
      if specs[0].fieldNumber < rest then rest else specs[0].fieldNumber + 1
  }

  /** A record of ones but for two columns. */
  function Row(width: nat, column1: nat, text1: string, column2: nat, text2: string): (r: Fields)
    ensures |r| == width
    ensures forall i :: 0 <= i < width ==> Field(r, i) == if i == column1 then text1 else if i == column2 then text2
        else "1"
  {
    seq(width, i => if i == column1 then text1 else if i == column2 then text2 else "1")
  }

  /** Three records that sort by the aggregated column into two runs of one group around a record of another. */
  function Interleaved(pre: seq<Spec>, aggregator: Spec, post: seq<Spec>): seq<Fields>
    requires post != []
  {
    var width, a, c := Width(pre + [aggregator] + post), aggregator.fieldNumber, post[0].fieldNumber;
    [Row(width, a, "1", c, "1"), Row(width, a, "2", c, "2"), Row(width, a, "3", c, "1")]
  }

  /** In every kind of column. */
  lemma OneTwoThree(kind: Kind)
    ensures CompareBy(kind, "1", "2") < 0 && CompareBy(kind, "2", "3") < 0
    ensures Hashable(kind, "1") && Hashable(kind, "2") && Hashable(kind, "3")
  {
    hide Lex;
    assert Strip("1") == "1" && Strip("2") == "2" && Strip("3") == "3";
  }

  lemma EqualTexts(kind: Kind, text: string)
    ensures CompareBy(kind, text, text) == 0
  {
    hide CompareBy;
    ComparisonIsOrder(kind, text, text, text);
  }

  lemma {:induction false} SkipEqual(pre: seq<Spec>, rest: seq<Spec>, a: Fields, b: Fields)
    requires forall i :: 0 <= i < |pre| ==> SpecCompare(pre[i], a, b) == 0
    ensures KeyCompare(pre + rest, a, b) == KeyCompare(rest, a, b)
  {
    hide CompareBy;
    if pre == [] {
      assert pre + rest == rest;
    } else {
      assert (pre + rest)[1..] == pre[1..] + rest && (pre + rest)[0] == pre[0];
      SkipEqual(pre[1..], rest, a, b);
    }
  }

  /** The columns before the aggregated one, and the first one after it. */
  lemma ColumnsApart(pre: seq<Spec>, aggregator: Spec, post: seq<Spec>)
    requires DistinctColumns(pre + [aggregator] + post) && post != []
    ensures forall i :: 0 <= i < |pre| ==>
        pre[i].fieldNumber != aggregator.fieldNumber && pre[i].fieldNumber != post[0].fieldNumber
    ensures forall i :: 0 <= i < |post| ==> post[i].fieldNumber != aggregator.fieldNumber
    ensures forall i :: 0 <= i < |pre + post| ==>
      (pre + post)[i].fieldNumber != aggregator.fieldNumber
      && (pre + post)[i].fieldNumber < Width(pre + [aggregator] + post)
    ensures aggregator.fieldNumber < Width(pre + [aggregator] + post)
  {
    var all := pre + [aggregator] + post;
    assert all[|pre|] == aggregator;
    assert forall i :: 0 <= i < |pre| ==> all[i] == pre[i];
    assert forall i :: 0 <= i < |post| ==> all[|pre| + 1 + i] == post[i];
  }

  lemma EarlierColumnsEqual(pre: seq<Spec>, aggregator: Spec, post: seq<Spec>, width: nat, x: string, y: string,
      u: string, v: string)
    requires DistinctColumns(pre + [aggregator] + post) && post != [] && width == Width(pre + [aggregator] + post)
    ensures var a, c := aggregator.fieldNumber, post[0].fieldNumber;
      forall i :: 0 <= i < |pre| ==> SpecCompare(pre[i], Row(width, a, x, c, u), Row(width, a, y, c, v)) == 0
  {
    hide CompareBy, Width, DistinctColumns, Row;
    ColumnsApart(pre, aggregator, post);
    var a, c := aggregator.fieldNumber, post[0].fieldNumber;
    forall i | 0 <= i < |pre| ensures SpecCompare(pre[i], Row(width, a, x, c, u), Row(width, a, y, c, v)) == 0 {
      assert (pre + post)[i] == pre[i];
      EqualTexts(pre[i].kind, "1");
    }
  }

  /** The aggregated column decides between two of the rows. */
  lemma RowsSort(pre: seq<Spec>, aggregator: Spec, post: seq<Spec>, width: nat, x: string, y: string, u: string,
      v: string)
    requires DistinctColumns(pre + [aggregator] + post) && post != [] && width == Width(pre + [aggregator] + post)
    requires CompareBy(aggregator.kind, x, y) < 0
    ensures var a, c := aggregator.fieldNumber, post[0].fieldNumber;
      KeyCompare(pre + [aggregator] + post, Row(width, a, x, c, u), Row(width, a, y, c, v)) < 0
  {
    hide CompareBy, Width, DistinctColumns, Row;
    var a, c := aggregator.fieldNumber, post[0].fieldNumber;
    ColumnsApart(pre, aggregator, post);
    EarlierColumnsEqual(pre, aggregator, post, width, x, y, u, v);
    assert pre + [aggregator] + post == pre + ([aggregator] + post);
    SkipEqual(pre, [aggregator] + post, Row(width, a, x, c, u), Row(width, a, y, c, v));
  }

  lemma RowsApart(pre: seq<Spec>, aggregator: Spec, post: seq<Spec>, width: nat, x: string, y: string, u: string,
      v: string)
    requires DistinctColumns(pre + [aggregator] + post) && post != [] && width == Width(pre + [aggregator] + post)
    requires CompareBy(post[0].kind, u, v) != 0
    ensures var a, c := aggregator.fieldNumber, post[0].fieldNumber;
      !SameGroup(pre + post, Row(width, a, x, c, u), Row(width, a, y, c, v))
  {
    hide CompareBy, Width, DistinctColumns, Row, CompareTexts;
    var a, c := aggregator.fieldNumber, post[0].fieldNumber;
    var r1, r2 := Row(width, a, x, c, u), Row(width, a, y, c, v);
    ColumnsApart(pre, aggregator, post);
    EarlierColumnsEqual(pre, aggregator, post, width, x, y, u, v);
    SkipEqual(pre, post, r1, r2);
    assert (pre + post)[|pre|] == post[0];
    KeyCompareIsCompareTexts(pre + post, r1, r2);
  }

  lemma RowsAlike(pre: seq<Spec>, aggregator: Spec, post: seq<Spec>, width: nat, x: string, y: string, u: string)
    requires DistinctColumns(pre + [aggregator] + post) && post != [] && width == Width(pre + [aggregator] + post)
    ensures var a, c := aggregator.fieldNumber, post[0].fieldNumber;
      SameGroup(pre + post, Row(width, a, x, c, u), Row(width, a, y, c, u))
  {
    hide CompareTexts, Width, DistinctColumns, Row;
    var a, c := aggregator.fieldNumber, post[0].fieldNumber;
    var r1, r2 := Row(width, a, x, c, u), Row(width, a, y, c, u);
    ColumnsApart(pre, aggregator, post);
    assert Texts(pre + post, r1) == Texts(pre + post, r2);
    SameGroupIsEquivalence(pre + post, r1, r1, r1);
  }

  /** A group of two in two runs. */
  lemma TwoRunsDoNotFit(specs: seq<Spec>, a1: Fields, b: Fields, a2: Fields)
    requires SameGroup(specs, a1, a2) && !SameGroup(specs, a1, b)
    ensures !RunsFit(specs, [a1, b, a2])
  {
    hide SameGroup, CountOf, GroupLength;
    var s := [a1, b, a2];
    SameGroupIsEquivalence(specs, a1, a2, b);
    SameGroupIsEquivalence(specs, a2, a1, b);
    SameGroupIsEquivalence(specs, b, a2, b);
    CountThree(specs, a1, b, a2);
    assert s[..3] == s;
    RunStarts(specs, s, 2, RunLength(specs, s, 2));
    assert Starts(specs, s, 2);
  }

  lemma NotRightWhenNotLast(pre: seq<Spec>, aggregator: Spec, post: seq<Spec>)
    requires DistinctColumns(pre + [aggregator] + post) && post != []
    ensures var input := Interleaved(pre, aggregator, post);
      AllKeyed(pre + post, input) && !MiddlesWritten(pre + post, Sorted(pre, aggregator, post, input))
  {
    hide CompareBy, Width, DistinctColumns, Row, SameGroup, MiddlesWritten, RunsFit, KeyCompare, SortedData, Hashable;
    var specs, input := pre + post, Interleaved(pre, aggregator, post);
    var width := Width(pre + [aggregator] + post);
    OneTwoThree(aggregator.kind);
    OneTwoThree(post[0].kind);
    RowsSort(pre, aggregator, post, width, "1", "2", "1", "2");
    RowsSort(pre, aggregator, post, width, "2", "3", "2", "1");
    RowsApart(pre, aggregator, post, width, "1", "2", "1", "2");
    RowsAlike(pre, aggregator, post, width, "1", "3", "1");
    SortKeeps(pre + [aggregator] + post, input);
    TwoRunsDoNotFit(specs, input[0], input[1], input[2]);
    MiddlesWrittenExactly(specs, input);
    ColumnsApart(pre, aggregator, post);
    forall k | 0 <= k < 3 ensures Keyed(specs, input[k]) {
      forall i | 0 <= i < |specs| ensures Hashable(Kinds(specs)[i], Texts(specs, input[k])[i]) {
        OneTwoThree(specs[i].kind);
      }
    }
  }

  /** group_median, the aggregated column standing anywhere: what is written, and that it is the middle record of each
      group exactly when the runs fit, so always when the column is the last. None where the source aborts. */
  method GroupMedian(pre: seq<Spec>, aggregator: Spec, post: seq<Spec>, add: (char, int) -> int, init: int,
      memory: RM.Memory,
                     byteSize: Fields -> nat, maxChunkSize: nat,
                     input: seq<Fields>) returns (output: Option<seq<Fields>>)
    requires AllHashable(pre + post, input)
    ensures memory.ample ==> (output.Some?
        <==> AllCheck(pre + post, input) && SM.Acceptable(byteSize, maxChunkSize, input))
    ensures output.Some? ==>
      var s := Sorted(pre, aggregator, post, input);
      && output.value == Written(pre + post, s, 0)
      && (RunsFit(pre + post, s) ==> output.value == MiddleRecords(pre + post, s, 0))
      && (post == [] ==> output.value == Medians(pre, s))
  {
    hide RM.RecordMultiHashMap.Valid, HasFields, HashableTexts, CompareTexts, Walk, Medians, KeyCompare, SortedData,
        RunsFit, Written,
         MiddleRecords, Contiguous, MiddlesWritten;
    var specs, sortSpecs := pre + post, pre + [aggregator] + post;
    var counts := CountAll(Hashing(specs, add, init), memory, input);
    if counts.None? { return None; }
    OperatorsOrderRecords(sortSpecs);
    var sorted := SM.OrderBy(LessThan(sortSpecs), byteSize, maxChunkSize, input, KeyLess(sortSpecs), false);
    if sorted.None? { return None; }
    var s := sorted.value;
    SortedHasSameRecords(sortSpecs, input);
    SameRecordsCount(specs, input, s);
    var out := OutputMedians(counts.value, s, input);
    WalkOfPermutation(specs, input, s, START, s);
    WalkIsWritten(specs, s);
    if RunsFit(specs, s) {
      MiddlesWrittenExactly(specs, s);
      WrittenAreMiddles(specs, s, 0);
    }
    if post == [] {
      assert specs == pre && sortSpecs == pre + [aggregator];
      SortedIsContiguous(pre, aggregator, input);
      WalkIsMedians(pre, s, 0);
      assert s[0..] == s;
    }
    output := Some(out);
  }
}
