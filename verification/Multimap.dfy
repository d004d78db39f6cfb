/** Keys of records, and what a multimap that keeps insertion order promises. */
module Multimap {
  import opened Compare
  import opened CompareSpecs

  datatype Entry<V> = Entry(r: Fields, v: V)

  function Kinds(specs: seq<Spec>): (r: seq<Kind>)
    ensures |r| == |specs|
  {
    seq(|specs|, i requires 0 <= i < |specs| => specs[i].kind)
  }

  /** The texts of the key columns of a record. */
  function Texts(specs: seq<Spec>, r: Fields): (t: seq<string>)
    ensures |t| == |specs|
  {
    seq(|specs|, i requires 0 <= i < |specs| => Field(r, specs[i].fieldNumber))
  }

  /** The source aborts when a record that is compared or hashed lacks one of the columns. */
  predicate HasFields(specs: seq<Spec>, r: Fields) {
    forall i :: 0 <= i < |specs| ==> specs[i].fieldNumber < |r|
  }

  function CompareTexts(kinds: seq<Kind>, t1: seq<string>, t2: seq<string>): int
    requires |t1| == |t2| == |kinds|
  {
    if kinds == [] then 0
    else if CompareBy(kinds[0], t1[0], t2[0]) != 0 then CompareBy(kinds[0], t1[0], t2[0])
    else CompareTexts(kinds[1..], t1[1..], t2[1..])
  }

  predicate HashableTexts(kinds: seq<Kind>, t: seq<string>)
    requires |t| == |kinds|
  {
    forall i :: 0 <= i < |kinds| ==> Hashable(kinds[i], t[i])
  }

  /** Records every operation on the map can take. */
  predicate AllHashable(specs: seq<Spec>, file: seq<Fields>) {
    forall i :: 0 <= i < |file| ==> HashableTexts(Kinds(specs), Texts(specs, file[i]))
  }

  /** A record without one of the key columns stops the process. */
  predicate CheckFields(specs: seq<Spec>, r: Fields) {
    HasFields(specs, r)
  }

  predicate AllCheck(specs: seq<Spec>, file: seq<Fields>) {
    forall i :: 0 <= i < |file| ==> CheckFields(specs, file[i])
  }

  function HashTexts(kinds: seq<Kind>, add: (char, int) -> int, t: seq<string>, hval: int): int
    requires |t| == |kinds|
  {
    if kinds == [] then hval else HashTexts(kinds[1..], add, t[1..], HashBy(kinds[0], add, t[0], hval))
  }

  lemma {:induction false} CompareTextsIsOrder(kinds: seq<Kind>, a: seq<string>, b: seq<string>, c: seq<string>)
    requires |a| == |b| == |c| == |kinds|
    ensures CompareTexts(kinds, a, a) == 0 && CompareTexts(kinds, a, b) == -CompareTexts(kinds, b, a)
    ensures CompareTexts(kinds, a, b) == 0 && CompareTexts(kinds, b, c) == 0 ==> CompareTexts(kinds, a, c) == 0
  {
    if kinds != [] {
      hide CompareBy;
      ComparisonIsOrder(kinds[0], a[0], b[0], c[0]);
      ComparisonIsOrder(kinds[0], c[0], b[0], a[0]);
      ComparisonIsOrder(kinds[0], a[0], c[0], a[0]);
      ComparisonIsOrder(kinds[0], a[0], a[0], a[0]);
      CompareTextsIsOrder(kinds[1..], a[1..], b[1..], c[1..]);
    }
  }

  /** Keys that compare equal hash alike. */
  lemma {:induction false} EqualTextsHashAlike(kinds: seq<Kind>, add: (char, int) -> int, a: seq<string>,
      b: seq<string>, hval: int)
    requires |a| == |b| == |kinds| && CompareTexts(kinds, a, b) == 0 && HashableTexts(kinds, a)
    requires HashableTexts(kinds, b)
    ensures HashTexts(kinds, add, a, hval) == HashTexts(kinds, add, b, hval)
  {
    if kinds != [] {
      hide CompareBy, HashBy, Hashable;
      EqualHashesAlike(kinds[0], a[0], b[0], add, hval);
      EqualTextsHashAlike(kinds[1..], add, a[1..], b[1..], HashBy(kinds[0], add, a[0], hval));
    }
  }

  /** `hetero_record_compare`, on two records with all their key columns and specs of one kind each. */
  method HeteroRecordCompare(r1: Fields, specs1: seq<Spec>, r2: Fields, specs2: seq<Spec>) returns (result: int)
    requires Kinds(specs1) == Kinds(specs2) && HasFields(specs1, r1) && HasFields(specs2, r2)
    ensures result == CompareTexts(Kinds(specs1), Texts(specs1, r1), Texts(specs2, r2))
  {
    ghost var kinds, t1, t2 := Kinds(specs1), Texts(specs1, r1), Texts(specs2, r2);
    var i := 0;
    while i < |specs1|
      invariant 0 <= i <= |specs1| == |kinds| == |specs2|
      invariant CompareTexts(kinds, t1, t2) == CompareTexts(kinds[i..], t1[i..], t2[i..])
    {
      var field1, field2 := r1[specs1[i].fieldNumber], r2[specs2[i].fieldNumber];
      assert kinds[i..][0] == specs1[i].kind && t1[i..][0] == field1 && t2[i..][0] == field2;
      var compareResult := CompareBy(specs1[i].kind, field1, field2);
      if compareResult != 0 { return compareResult; }
      assert kinds[i..][1..] == kinds[i + 1..] && t1[i..][1..] == t1[i + 1..] && t2[i..][1..] == t2[i + 1..];
      i := i + 1;
    }
    result := 0;
  }

  /** The hash of a record, before it is reduced to the size of the table. */
  method HashRecord(specs: seq<Spec>, add: (char, int) -> int, init: int, r: Fields) returns (hval: int)
    requires HasFields(specs, r)
    ensures hval == HashTexts(Kinds(specs), add, Texts(specs, r), init)
  {
    ghost var kinds, t := Kinds(specs), Texts(specs, r);
    hval := init;
    var i := 0;
    while i < |specs|
      invariant 0 <= i <= |specs| == |kinds|
      invariant HashTexts(kinds, add, t, init) == HashTexts(kinds[i..], add, t[i..], hval)
    {
      assert kinds[i..][0] == specs[i].kind && t[i..][0] == r[specs[i].fieldNumber];
      hval := HashBy(specs[i].kind, add, r[specs[i].fieldNumber], hval);
      assert kinds[i..][1..] == kinds[i + 1..] && t[i..][1..] == t[i + 1..];
      i := i + 1;
    }
  }

  // --- The plain multimap. ---

  predicate KeyIs<V>(specs: seq<Spec>, e: Entry<V>, key: seq<string>)
    requires |key| == |specs|
  {
    CompareTexts(Kinds(specs), Texts(specs, e.r), key) == 0
  }

  /** The entries whose key compares equal to `key`, in order. */
  function Matching<V>(specs: seq<Spec>, s: seq<Entry<V>>, key: seq<string>): seq<Entry<V>>
    requires |key| == |specs|
  {
    if s == [] then [] else (if KeyIs(specs, s[0], key) then [s[0]] else []) + Matching(specs, s[1..], key)
  }

  /** Two lists of entries that no key can tell apart, and that hold the same entries equally often. */
  ghost predicate SameMultimap<V>(specs: seq<Spec>, a: seq<Entry<V>>, b: seq<Entry<V>>) {
    && multiset(a) == multiset(b)
    && forall key: seq<string> :: |key| == |specs| && HashableTexts(Kinds(specs), key) ==>
      Matching(specs, a, key) == Matching(specs, b, key)
  }

  lemma {:induction false} MatchingConcat<V>(specs: seq<Spec>, a: seq<Entry<V>>, b: seq<Entry<V>>, key: seq<string>)
    requires |key| == |specs|
    ensures Matching(specs, a + b, key) == Matching(specs, a, key) + Matching(specs, b, key)
  {
    hide KeyIs;
    if a == [] {
      assert a + b == b;
    } else {
      MatchingConcat(specs, a[1..], b, key);
      assert (a + b)[1..] == a[1..] + b;
    }
  }

  lemma MatchingOne<V>(specs: seq<Spec>, e: Entry<V>, key: seq<string>)
    requires |key| == |specs|
    ensures Matching(specs, [e], key) == if KeyIs(specs, e, key) then [e] else []
  {
    hide KeyIs;
    assert [e][1..] == [];
  }

  lemma {:induction false} MatchingNone<V>(specs: seq<Spec>, s: seq<Entry<V>>, key: seq<string>)
    requires |key| == |specs| && forall i :: 0 <= i < |s| ==> !KeyIs(specs, s[i], key)
    ensures Matching(specs, s, key) == []
  {
    hide KeyIs;
    if s != [] { MatchingNone(specs, s[1..], key); }
  }

  lemma {:induction false} MatchingAll<V>(specs: seq<Spec>, s: seq<Entry<V>>, key: seq<string>)
    requires |key| == |specs| && forall i :: 0 <= i < |s| ==> KeyIs(specs, s[i], key)
    ensures Matching(specs, s, key) == s
  {
    hide KeyIs;
    if s != [] { MatchingAll(specs, s[1..], key); }
  }

  /** An entry more at the end. */
  lemma SameMultimapAppend<V>(specs: seq<Spec>, a: seq<Entry<V>>, b: seq<Entry<V>>, e: Entry<V>)
    requires SameMultimap(specs, a, b)
    ensures SameMultimap(specs, a + [e], b + [e])
  {
    hide KeyIs, Hashable;
    forall key: seq<string> | |key| == |specs| && HashableTexts(Kinds(specs), key)
      ensures Matching(specs, a + [e], key) == Matching(specs, b + [e], key)
    {
      MatchingConcat(specs, a, [e], key);
      MatchingConcat(specs, b, [e], key);
    }
  }
}
