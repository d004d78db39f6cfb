/** np1/rel/detail/join_helper.hpp and the key columns of np1/rel/detail/compare_spec.hpp. */
module JoinHelper {
  import opened Wrappers
  import opened Headings
  import opened Compare
  import opened CompareSpecs
  import opened Multimap

  predicate Distinct(s: seq<string>) {
    forall i, j :: 0 <= i < j < |s| ==> s[i] != s[j]
  }

  /** Every heading carries a type tag, as the headings written by the tools do. */
  predicate Tagged(headings: seq<string>) {
    forall i :: 0 <= i < |headings| ==> WithoutTypeTag(headings[i]) != headings[i]
  }

  predicate StartsWith(s: string, prefix: string) {
    prefix <= s
  }

  /** The kind of key a typed heading makes; none for types that cannot be joined on here. */
  function KindOf(heading: string): Option<Kind> {
    if StartsWith(heading, "string") then Some(StringKey)
    else if StartsWith(heading, "istring") then Some(IStringKey)
    else if StartsWith(heading, "int") then Some(IntKey)
    else if StartsWith(heading, "uint") then Some(UintKey)
    else None
  }

  /** The compare specs for some headings of a file. */
  method MakeSpecs(headings: seq<string>, selected: seq<string>) returns (specs: Option<seq<Spec>>)
    requires Tagged(headings) && Distinct(headings) && forall i :: 0 <= i < |selected| ==> selected[i] in headings
    ensures specs.Some? <==> forall i :: 0 <= i < |selected| ==> KindOf(selected[i]).Some?
    ensures specs.Some? ==> SpecsFor(specs.value, headings, selected)
  {
    hide WithoutTypeTag, KindOf, FindHeadingFrom;
    var r: seq<Spec> := [];
    var i := 0;
    while i < |selected|
      invariant 0 <= i <= |selected| && SpecsFor(r, headings, selected[..i])
      invariant forall k :: 0 <= k < i ==> KindOf(selected[k]).Some?
    {
      var fieldNumber := FindHeading(headings, selected[i]);
      assert headings[0..] == headings;
      FindTagged(headings, selected[i], 0);
      if KindOf(headings[fieldNumber.value]).None? { return None; }
      r := r + [Spec(KindOf(headings[fieldNumber.value]).value, fieldNumber.value)];
      assert selected[..i + 1] == selected[..i] + [selected[i]];
      i := i + 1;
    }
    assert selected[..|selected|] == selected;
    specs := Some(r);
  }

  /** Each spec stands for the column with the selected heading. */
  predicate SpecsFor(specs: seq<Spec>, headings: seq<string>, selected: seq<string>) {
    && |specs| == |selected|
    && forall i :: 0 <= i < |specs| ==>
         && specs[i].fieldNumber < |headings| && headings[specs[i].fieldNumber] == selected[i]
         && KindOf(selected[i]) == Some(specs[i].kind)
  }

  lemma {:induction false} FindTagged(headings: seq<string>, heading: string, k: nat)
    requires k <= |headings| && Tagged(headings) && heading in headings[k..]
    ensures FindHeadingFrom(headings, k, heading).Some?
    ensures headings[FindHeadingFrom(headings, k, heading).value] == heading
    decreases |headings| - k
  {
    if headings[k] != heading {
      FindTagged(headings, heading, k + 1);
    }
  }

  // --- Common and other columns. ---

  /** The headings of the first file that the second has too, in the order of the first. */
  function CommonHeadings(headings1: seq<string>, headings2: seq<string>): seq<string> {
    if headings1 == [] then []
    else (if headings1[0] in headings2 then [headings1[0]] else []) + CommonHeadings(headings1[1..], headings2)
  }

  /** The columns, from `k` on, of the second file that the first does not have. */
  function OtherColumns(headings1: seq<string>, headings2: seq<string>, k: nat): (r: seq<nat>)
    requires k <= |headings2|
    ensures forall i :: 0 <= i < |r| ==> k <= r[i] < |headings2|
    decreases |headings2| - k
  {
    if k == |headings2| then []
    else (if headings2[k] in headings1 then [] else [k]) + OtherColumns(headings1, headings2, k + 1)
  }

  /** `find_common_and_non_common_headings`. */
  method FindCommonAndNonCommonHeadings(headings1: seq<string>, headings2: seq<string>)
    returns (common: seq<string>, nonCommon: seq<nat>)
    requires Distinct(headings2)
    ensures common == CommonHeadings(headings1, headings2) && nonCommon == OtherColumns(headings1, headings2, 0)
  {
    common := [];
    var common2: seq<nat> := [];
    var i1 := 0;
    while i1 < |headings1|
      invariant 0 <= i1 <= |headings1|
      invariant CommonHeadings(headings1, headings2) == common + CommonHeadings(headings1[i1..], headings2)
      invariant forall k :: k in common2 <==> 0 <= k < |headings2| && headings2[k] in headings1[..i1]
    {
      ghost var before, before2 := common, common2;
      var i2 := 0;
      while i2 < |headings2|
        invariant 0 <= i2 <= |headings2|
        invariant common == before + if headings1[i1] in headings2[..i2] then [headings1[i1]] else []
        invariant forall k :: k in common2 <==> k in before2 || (0 <= k < i2 && headings2[k] == headings1[i1])
      {
        if headings1[i1] == headings2[i2] {
          common := common + [headings1[i1]];
          common2 := common2 + [i2];
        }
        assert headings2[..i2 + 1] == headings2[..i2] + [headings2[i2]];
        i2 := i2 + 1;
      }
      assert headings2[..i2] == headings2 && headings1[i1..][1..] == headings1[i1 + 1..];
      assert headings1[..i1 + 1] == headings1[..i1] + [headings1[i1]];
      i1 := i1 + 1;
    }
    assert headings1[..i1] == headings1;
    nonCommon := FindNonCommon(headings1, headings2, common2);
  }

  /** Its last loop: the columns of the second file that were not found to be common. */
  method FindNonCommon(ghost headings1: seq<string>, headings2: seq<string>,
      common2: seq<nat>) returns (nonCommon: seq<nat>)
    requires forall k :: k in common2 <==> 0 <= k < |headings2| && headings2[k] in headings1
    ensures nonCommon == OtherColumns(headings1, headings2, 0)
  {
    nonCommon := [];
    var fieldNumber := 0;
    while fieldNumber < |headings2|
      invariant 0 <= fieldNumber <= |headings2|
      invariant OtherColumns(headings1, headings2, 0) == nonCommon + OtherColumns(headings1, headings2, fieldNumber)
    {
      var found := false;
      var i := 0;
      while !found && i < |common2|
        invariant 0 <= i <= |common2| && (found <==> fieldNumber in common2[..i])
        decreases |common2| - i
      {
        found := common2[i] == fieldNumber;
        assert common2[..i + 1] == common2[..i] + [common2[i]];
        i := i + 1;
      }
      assert !found ==> common2[..i] == common2;
      if !found { nonCommon := nonCommon + [fieldNumber]; }
      fieldNumber := fieldNumber + 1;
    }
  }

  lemma {:induction false} CommonAreInBoth(headings1: seq<string>, headings2: seq<string>)
    ensures forall h :: h in CommonHeadings(headings1, headings2) <==> h in headings1 && h in headings2
  {
    if headings1 != [] {
      CommonAreInBoth(headings1[1..], headings2);
      assert headings1 == [headings1[0]] + headings1[1..];
    }
  }

  /** One record of the first file and one of the second as a single record: the first, and the columns of
      the second it does not have. */
  function Merge(r1: Fields, r2: Fields, nonCommon: seq<nat>): Fields {
    r1 + seq(|nonCommon|, i requires 0 <= i < |nonCommon| => Field(r2, nonCommon[i]))
  }

  /** `record_merge_write` of two records that are not the empty reference. */
  method RecordMergeWrite(r1: Fields, r2: Fields, nonCommon: seq<nat>) returns (r: Fields)
    ensures r == Merge(r1, r2, nonCommon)
  {
    if |nonCommon| > 0 {
      var refs: Fields := [];
      var i := 0;
      while i < |nonCommon|
        invariant 0 <= i <= |nonCommon|
        invariant refs == seq(i, k requires 0 <= k < i => Field(r2, nonCommon[k]))
      {
        refs := refs + [Field(r2, nonCommon[i])];
        i := i + 1;
      }
      r := r1 + refs;
    } else {
      r := r1;
      assert Merge(r1, r2, nonCommon) == r1 + [];
    }
  }

  /** The specs made for both files pair up columns of one kind. */
  lemma PairedSpecs(headings1: seq<string>, headings2: seq<string>, selected: seq<string>, specs1: seq<Spec>,
      specs2: seq<Spec>)
    requires SpecsFor(specs1, headings1, selected) && SpecsFor(specs2, headings2, selected)
    ensures |specs1| == |specs2| && Kinds(specs1) == Kinds(specs2)
  {
    forall i | 0 <= i < |specs1| ensures Kinds(specs1)[i] == Kinds(specs2)[i] {
      assert Some(specs1[i].kind) == Some(specs2[i].kind);
    }
  }
}
