/** What the rows of a join are, column by column, in terms of the two files and their headings alone. */
module JoinedRows {
  import opened Wrappers
  import opened DataTypes
  import opened HeadingTexts
  import opened Compare
  import opened CompareSpecs
  import opened Multimap
  import opened JoinHelper

  /** The headings of the first file, then those of the second that the first does not have: each once, in the order
      of the second file. */
  ghost predicate HeadingsJoined(headings: Fields, headings1: Fields, headings2: Fields) {
    && headings1 <= headings && Distinct(headings)
    && (forall h :: h in headings[|headings1|..] <==> h in headings2 && h !in headings1)
    && forall c, d, x, y |
         |headings1| <= c < d < |headings| && 0 <= x < |headings2| && 0 <= y < |headings2|
         && headings[c] == headings2[x] && headings[d] == headings2[y] :: x < y
  }

  /** The text for a missing value of the heading's type. */
  predicate IsEmptyText(heading: string, text: string) {
    && (HasType(heading, TString) || HasType(heading, TIString) ==> text == "")
    && (HasType(heading, TInt) || HasType(heading, TUint) ==> text == "0")
    && (HasType(heading, TDouble) ==> text == "0.0")
    && (HasType(heading, TBool) ==> text == "false")
    && (HasType(heading, TIpAddress) ==> text == "0.0.0.0")
  }

  /** The first record, then under each further heading the second record's field of that heading, or the empty text
      of its type when there is no second record. A field the second record is too short for is empty. */
  predicate RowOf(row: Fields, r1: Fields, right: Option<Fields>, headings: Fields, headings1: Fields,
      headings2: Fields)
  {
    && |row| + |headings1| == |r1| + |headings| && r1 <= row
    && forall c, y |
         |headings1| <= c < |headings| && 0 <= y < |headings2| && headings[c] == headings2[y] ::
         var text := row[|r1| + c - |headings1|];
         match right
         case Some(r2) => text == if y < |r2| then r2[y] else ""
         case None => IsEmptyText(headings2[y], text)
  }

  /** Under every heading both files have, the two fields compare equal in the way its type asks for. */
  predicate SameKeys(headings1: Fields, headings2: Fields, r1: Fields, r2: Fields) {
    forall x, y :: 0 <= x < |headings1| && 0 <= y < |headings2| && headings1[x] == headings2[y] ==>
      SameField(headings1[x], Field(r1, x), Field(r2, y))
  }

  predicate SameField(heading: string, f1: string, f2: string) {
    && ("string" <= heading ==> CompareBy(StringKey, f1, f2) == 0)
    && ("istring" <= heading ==> CompareBy(IStringKey, f1, f2) == 0)
    && ("int" <= heading ==> CompareBy(IntKey, f1, f2) == 0)
    && ("uint" <= heading ==> CompareBy(UintKey, f1, f2) == 0)
  }

  // --- The rows in order. ---

  /** A row's place in the first file, and in the second unless it is a padded row. */
  datatype Pair = Pair(left: nat, right: Option<nat>)

  predicate Earlier(p: Pair, q: Pair) {
    p.left < q.left || (p.left == q.left && p.right.Some? && q.right.Some? && p.right.value < q.right.value)
  }

  predicate Ordered(pairs: seq<Pair>) {
    forall k, l :: 0 <= k < l < |pairs| ==> Earlier(pairs[k], pairs[l])
  }

  predicate Matched(p: Pair, headings1: Fields, headings2: Fields, file1: seq<Fields>, file2: seq<Fields>) {
    p.left < |file1| && p.right.Some? && p.right.value < |file2|
    && SameKeys(headings1, headings2, file1[p.left], file2[p.right.value])
  }

  predicate HasNoMatch(r1: Fields, headings1: Fields, headings2: Fields, file2: seq<Fields>) {
    forall y :: 0 <= y < |file2| ==> !SameKeys(headings1, headings2, r1, file2[y])
  }

  predicate Unmatched(p: Pair, headings1: Fields, headings2: Fields, file1: seq<Fields>, file2: seq<Fields>) {
    p.left < |file1| && p.right.None? && HasNoMatch(file1[p.left], headings1, headings2, file2)
  }

  predicate RowsOf(output: seq<Fields>, pairs: seq<Pair>, headings: Fields, headings1: Fields, headings2: Fields,
      file1: seq<Fields>, file2: seq<Fields>)
  {
    |output| == |pairs| && forall k :: 0 <= k < |output| ==>
      var p := pairs[k];
      && p.left < |file1| && (p.right.Some? ==> p.right.value < |file2|)
      && RowOf(output[k], file1[p.left], if p.right.Some? then Some(file2[p.right.value]) else None, headings,
               headings1, headings2)
  }

  /** One row for each two records whose common fields agree, ordered by the first and then by the second. */
  ghost predicate IsNaturalJoin(output: seq<Fields>, headings: Fields, headings1: Fields, headings2: Fields,
      file1: seq<Fields>, file2: seq<Fields>)
  {
    exists pairs :: Ordered(pairs) && RowsOf(output, pairs, headings, headings1, headings2, file1, file2)
      && forall p :: p in pairs <==> Matched(p, headings1, headings2, file1, file2)
  }

  /** The same, and one padded row for each record of the first file that agrees with none of the second. */
  ghost predicate IsLeftJoin(output: seq<Fields>, headings: Fields, headings1: Fields, headings2: Fields,
      file1: seq<Fields>, file2: seq<Fields>)
  {
    exists pairs :: Ordered(pairs) && RowsOf(output, pairs, headings, headings1, headings2, file1, file2)
      && forall p :: p in pairs <==>
           Matched(p, headings1, headings2, file1, file2) || Unmatched(p, headings1, headings2, file1, file2)
  }

  predicate Ascending(places: seq<nat>) {
    forall k, l :: 0 <= k < l < |places| ==> places[k] < places[l]
  }

  /** The records of the first file that agree with none of the second, in order. */
  ghost predicate IsAntiJoin(output: seq<Fields>, headings1: Fields, headings2: Fields, file1: seq<Fields>,
      file2: seq<Fields>)
  {
    exists places: seq<nat> :: Ascending(places) && |output| == |places|
      && (forall k :: 0 <= k < |places| ==> places[k] < |file1| && output[k] == file1[places[k]])
      && forall x: nat :: x in places <==> x < |file1| && HasNoMatch(file1[x], headings1, headings2, file2)
  }

  /** Every record has a field under each heading both files have. */
  predicate KeysPresent(headings1: Fields, headings2: Fields, file1: seq<Fields>, file2: seq<Fields>) {
    forall x, y :: 0 <= x < |headings1| && 0 <= y < |headings2| && headings1[x] == headings2[y] ==>
      (forall i :: 0 <= i < |file1| ==> x < |file1[i]|) && (forall j :: 0 <= j < |file2| ==> y < |file2[j]|)
  }

  /** Every heading both files have starts with the name of one of the four types. */
  predicate KeyTypesKnown(headings1: Fields, headings2: Fields) {
    forall h <- headings1 :: h in headings2 ==> "string" <= h || "istring" <= h || "int" <= h || "uint" <= h
  }

  lemma OrderedConcat(block: seq<Pair>, rest: seq<Pair>, i: nat)
    requires Ordered(block) && Ordered(rest)
    requires (forall p <- block :: p.left == i) && forall p <- rest :: p.left > i
    ensures Ordered(block + rest)
    ensures forall p :: p in block + rest <==> p in block || p in rest
  {
    assert forall k :: 0 <= k < |block| ==> block[k] in block;
    assert forall k :: 0 <= k < |rest| ==> rest[k] in rest;
  }

  /** The kinds of key go by the first letters of the heading. */
  lemma KindsByText(heading: string)
    ensures KindOf(heading) == Some(StringKey) <==> "string" <= heading
    ensures KindOf(heading) == Some(IStringKey) <==> "istring" <= heading
    ensures KindOf(heading) == Some(IntKey) <==> "int" <= heading
    ensures KindOf(heading) == Some(UintKey) <==> "uint" <= heading
    ensures KindOf(heading).None? <==>
      !("string" <= heading || "istring" <= heading || "int" <= heading || "uint" <= heading)
  {
    assert "string" <= heading ==> heading[0] == 's';
    assert "istring" <= heading ==> heading[0] == 'i' && heading[1] == 's';
    assert "int" <= heading ==> heading[0] == 'i' && heading[1] == 'n';
    assert "uint" <= heading ==> heading[0] == 'u';
  }

  // --- The columns that are not common. ---

  lemma {:induction false} OthersExactly(headings1: Fields, headings2: Fields, k: nat)
    requires k <= |headings2|
    ensures forall x :: x in OtherColumns(headings1, headings2, k) <==>
      k <= x < |headings2| && headings2[x] !in headings1
    ensures Ascending(OtherColumns(headings1, headings2, k))
    decreases |headings2| - k
  {
    hide Ascending;
    NoneAscend();
    if k < |headings2| {
      OthersExactly(headings1, headings2, k + 1);
      var rest := OtherColumns(headings1, headings2, k + 1);
      InFront(k, rest);
      assert OtherColumns(headings1, headings2, k) == (if headings2[k] in headings1 then rest else [k] + rest);
    }
  }

  lemma NoneAscend()
    ensures Ascending([])
  {
  }

  lemma InFront(k: nat, rest: seq<nat>)
    requires Ascending(rest) && forall x <- rest :: x > k
    ensures Ascending([k] + rest) && forall x :: x in [k] + rest <==> x == k || x in rest
  {
    assert forall j :: 0 <= j < |rest| ==> rest[j] in rest;
  }

  lemma MergedHeadings(headings1: Fields, headings2: Fields)
    requires Distinct(headings1) && Distinct(headings2)
    ensures HeadingsJoined(Merge(headings1, headings2, OtherColumns(headings1, headings2, 0)), headings1, headings2)
  {
    hide OtherColumns, Merge, Distinct;
    OthersExactly(headings1, headings2, 0);
    var cols := OtherColumns(headings1, headings2, 0);
    var headings := Merge(headings1, headings2, cols);
    MergedAt(headings1, headings2, cols);
    MergedOnce(headings1, headings2, cols, headings);
    var n := |headings1|;
    forall h ensures h in headings[n..] <==> h in headings2 && h !in headings1 {
      assert forall c :: n <= c < |headings| ==> headings[n..][c - n] == headings[c] && cols[c - n] in cols;
      if h in headings2 && h !in headings1 {
        var x :| 0 <= x < |headings2| && headings2[x] == h;
        assert x in cols;
        var k :| 0 <= k < |cols| && cols[k] == x;
        assert headings[n + k] == h;
      }
    }
  }

  lemma MergedAt(r1: Fields, r2: Fields, cols: seq<nat>)
    requires forall x <- cols :: x < |r2|
    ensures var row := Merge(r1, r2, cols);
      && |row| == |r1| + |cols| && r1 <= row
      && forall c :: |r1| <= c < |row| ==> cols[c - |r1|] < |r2| && row[c] == r2[cols[c - |r1|]]
  {
    assert Merge(r1, r2, cols)[..|r1|] == r1;
    assert forall k :: 0 <= k < |cols| ==> cols[k] in cols;
  }

  /** No heading comes twice, and the further ones keep the order of the second file. */
  lemma MergedOnce(headings1: Fields, headings2: Fields, cols: seq<nat>, headings: Fields)
    requires Distinct(headings1) && Distinct(headings2) && Ascending(cols) && headings1 <= headings
    requires forall x <- cols :: x < |headings2| && headings2[x] !in headings1
    requires |headings| == |headings1| + |cols|
    requires forall c :: |headings1| <= c < |headings| ==>
      cols[c - |headings1|] < |headings2| && headings[c] == headings2[cols[c - |headings1|]]
    ensures Distinct(headings)
    ensures forall c, d, x, y |
      |headings1| <= c < d < |headings| && 0 <= x < |headings2| && 0 <= y < |headings2|
      && headings[c] == headings2[x] && headings[d] == headings2[y] :: x < y
  {
    forall c, d | 0 <= c < d < |headings| ensures headings[c] != headings[d] {
      if d >= |headings1| {
        assert cols[d - |headings1|] in cols;
        if c < |headings1| {
          assert headings[c] == headings1[c] && headings1[c] in headings1;
        }
      }
    }
    forall c, d, x, y |
      |headings1| <= c < d < |headings| && 0 <= x < |headings2| && 0 <= y < |headings2|
      && headings[c] == headings2[x] && headings[d] == headings2[y] ensures x < y
    {
      assert x == cols[c - |headings1|] && y == cols[d - |headings1|];
    }
  }

  /** A merged row; with a record of empty texts it is a padded one. */
  lemma MergedRow(r1: Fields, r2: Fields, headings: Fields, headings1: Fields, headings2: Fields)
    requires Distinct(headings2) && headings == Merge(headings1, headings2, OtherColumns(headings1, headings2, 0))
    ensures RowOf(Merge(r1, r2, OtherColumns(headings1, headings2, 0)), r1, Some(r2), headings, headings1, headings2)
  {
    hide OtherColumns, IsEmptyText;
    OthersExactly(headings1, headings2, 0);
    var cols := OtherColumns(headings1, headings2, 0);
    var row := Merge(r1, r2, cols);
    assert row[..|r1|] == r1;
    forall c, y | |headings1| <= c < |headings| && 0 <= y < |headings2| && headings[c] == headings2[y]
      ensures row[|r1| + c - |headings1|] == if y < |r2| then r2[y] else ""
    {
      var x := cols[c - |headings1|];
      assert x in cols && headings[c] == headings2[x];
      assert x == y;
    }
  }

  lemma PaddedRow(row: Fields, r1: Fields, r2: Fields, headings: Fields, headings1: Fields, headings2: Fields)
    requires RowOf(row, r1, Some(r2), headings, headings1, headings2) && |r2| == |headings2|
    requires |headings1| <= |headings|
    requires forall y :: 0 <= y < |headings2| ==> IsEmptyText(headings2[y], r2[y])
    ensures RowOf(row, r1, None, headings, headings1, headings2)
  {
    hide IsEmptyText;
  }

  // --- The key. ---

  lemma {:induction false} EqualTextsExactly(kinds: seq<Kind>, a: seq<string>, b: seq<string>)
    requires |a| == |b| == |kinds|
    ensures CompareTexts(kinds, a, b) == 0 <==> forall i :: 0 <= i < |kinds| ==> CompareBy(kinds[i], a[i], b[i]) == 0
  {
    hide CompareBy;
    if kinds != [] {
      EqualTextsExactly(kinds[1..], a[1..], b[1..]);
      assert forall i :: 1 <= i < |kinds| ==>
        kinds[i] == kinds[1..][i - 1] && a[i] == a[1..][i - 1] && b[i] == b[1..][i - 1];
    }
  }

  /** Two records have equal keys exactly when they agree under every common heading. */
  lemma KeysAreCommonHeadings(specs1: seq<Spec>, specs2: seq<Spec>, headings1: Fields, headings2: Fields, r1: Fields,
      r2: Fields)
    requires Distinct(headings1) && Distinct(headings2) && |specs1| == |specs2| && Kinds(specs1) == Kinds(specs2)
    requires SpecsFor(specs1, headings1, CommonHeadings(headings1, headings2))
    requires SpecsFor(specs2, headings2, CommonHeadings(headings1, headings2))
    ensures CompareTexts(Kinds(specs2), Texts(specs2, r2), Texts(specs1, r1)) == 0
        <==> SameKeys(headings1, headings2, r1, r2)
  {
    hide CompareBy, CommonHeadings, KindOf, SameField, Field;
    var common := CommonHeadings(headings1, headings2);
    CommonAreInBoth(headings1, headings2);
    EqualTextsExactly(Kinds(specs2), Texts(specs2, r2), Texts(specs1, r1));
    forall i | 0 <= i < |specs1|
      ensures CompareBy(Kinds(specs2)[i], Texts(specs2, r2)[i], Texts(specs1, r1)[i]) == 0
          <==> SameField(common[i], Field(r1, specs1[i].fieldNumber), Field(r2, specs2[i].fieldNumber))
    {
      SameFieldIs(common[i], Field(r1, specs1[i].fieldNumber), Field(r2, specs2[i].fieldNumber));
    }
    if SameKeys(headings1, headings2, r1, r2) {
      forall i | 0 <= i < |specs1|
        ensures SameField(common[i], Field(r1, specs1[i].fieldNumber), Field(r2, specs2[i].fieldNumber))
      {
        assert headings1[specs1[i].fieldNumber] == common[i] == headings2[specs2[i].fieldNumber];
      }
    }
    if forall i :: 0 <= i < |specs1| ==>
         SameField(common[i], Field(r1, specs1[i].fieldNumber), Field(r2, specs2[i].fieldNumber)) {
      forall x, y | 0 <= x < |headings1| && 0 <= y < |headings2| && headings1[x] == headings2[y]
        ensures SameField(headings1[x], Field(r1, x), Field(r2, y))
      {
        assert headings1[x] in common;
        var i :| 0 <= i < |common| && common[i] == headings1[x];
        assert specs1[i].fieldNumber == x && specs2[i].fieldNumber == y;
      }
    }
  }

  lemma SameFieldIs(heading: string, f1: string, f2: string)
    requires KindOf(heading).Some?
    ensures SameField(heading, f1, f2) <==> CompareBy(KindOf(heading).value, f2, f1) == 0
  {
    hide CompareBy, KindOf;
    KindsByText(heading);
    ComparisonIsOrder(KindOf(heading).value, f1, f2, f1);
  }
}
