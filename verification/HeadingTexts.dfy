/** Headings and references to them, by their texts: what a prefix, a type tag and a name look like
    (np1/rel/detail/helper.hpp, np1/rel/record_ref.hpp and np1/rel/rlang/dt.hpp). */
module HeadingTexts {
  import opened Wrappers
  import opened DataTypes
  import opened Headings

  /** The text refers to `name` in this record, or in the other one. */
  predicate Spells(text: string, isThis: bool, name: string) {
    if isThis then text == "this." + name || (text == name && '.' !in text)
    else text == "other." + name || text == "prev." + name
  }

  /** Texts that refer to no record: the part before the first dot is none of the three prefixes. */
  predicate HasOtherPrefix(text: string) {
    exists dot :: 0 <= dot < |text| && text[dot] == '.' && '.' !in text[..dot]
        && text[..dot] != "this" && text[..dot] != "other" && text[..dot] != "prev"
  }

  /** The name is written with a type tag of its own: it has a colon before its last character. */
  predicate IsTagged(name: string) {
    exists i :: 0 <= i < |name| - 1 && name[i] == ':'
  }

  /** The heading is the name itself, or the name behind a tag and its colon. A name that is tagged itself has to be
      the whole heading. */
  predicate Carries(heading: string, name: string) {
    heading == name
    || (!IsTagged(name) && name != "" && |heading| > |name|
        && heading[|heading| - |name| - 1..] == ":" + name && ':' !in heading[..|heading| - |name| - 1])
  }

  /** The first heading that carries the name is at `k`. */
  predicate FirstAt(headings: seq<string>, name: string, k: nat) {
    k < |headings| && Carries(headings[k], name) && forall j :: 0 <= j < k ==> !Carries(headings[j], name)
  }

  /** The heading is a type, a colon and something more. */
  predicate HasType(heading: string, t: DataType) {
    match t
    case TString => "string:" < heading
    case TIString => "istring:" < heading
    case TInt => "int:" < heading
    case TUint => "uint:" < heading
    case TDouble => "double:" < heading
    case TBool => "bool:" < heading
    case TIpAddress => "ipaddress:" < heading
  }

  /** The heading of a column of type `t`, written out. */
  predicate IsTypedHeading(heading: string, t: DataType, name: string) {
    match t
    case TString => heading == "string:" + name
    case TIString => heading == "istring:" + name
    case TInt => heading == "int:" + name
    case TUint => heading == "uint:" + name
    case TDouble => heading == "double:" + name
    case TBool => heading == "bool:" + name
    case TIpAddress => heading == "ipaddress:" + name
  }

  // --- Cutting texts at a dot or a colon. ---

  /** The first place of a character is the one with none before it. */
  lemma FirstPlace(s: string, c: char, k: nat)
    requires k < |s| && s[k] == c && c !in s[..k]
    ensures IndexOf(s, c) == Some(k)
  {
    var found := IndexOf(s, c).value;
    assert forall i :: 0 <= i < k ==> s[i] == s[..k][i] && s[i] != c;
    assert forall i :: 0 <= i < found ==> s[i] == s[..found][i] && s[i] != c;
  }

  lemma CutAtDot(prefix: string, name: string)
    requires '.' !in prefix
    ensures var text := prefix + "." + name;
      && IndexOf(text, '.') == Some(|prefix|) && '.' in text
      && text[..|prefix|] == prefix && text[|prefix| + 1..] == name
  {
    var text := prefix + "." + name;
    assert text[..|prefix|] == prefix && text[|prefix| + 1..] == name && text[|prefix|] == '.';
    FirstPlace(text, '.', |prefix|);
  }

  lemma SpelledReference(text: string, isThis: bool, name: string)
    requires Spells(text, isThis, name)
    ensures GetRecordIdentifier(text) == Some(Reference(isThis, name))
  {
    hide IndexOf;
    CutAtDot("this", name);
    CutAtDot("other", name);
    CutAtDot("prev", name);
    assert "this" + "." + name == "this." + name;
    assert "other" + "." + name == "other." + name;
    assert "prev" + "." + name == "prev." + name;
  }

  lemma UnknownPrefix(text: string)
    requires HasOtherPrefix(text)
    ensures GetRecordIdentifier(text) == None
  {
    var dot :| 0 <= dot < |text| && text[dot] == '.' && '.' !in text[..dot]
        && text[..dot] != "this" && text[..dot] != "other" && text[..dot] != "prev";
    FirstPlace(text, '.', dot);
  }

  /** Every text refers to one record, or has another prefix. */
  lemma EveryTextIsSpelled(text: string)
    ensures HasOtherPrefix(text) || exists isThis, name :: Spells(text, isThis, name)
  {
    match IndexOf(text, '.')
    case None => assert Spells(text, true, text);
    case Some(dot) =>
      var prefix, name := text[..dot], text[dot + 1..];
      assert text == prefix + "." + name;
      if prefix == "this" {
        assert Spells(text, true, name);
      } else if prefix == "other" || prefix == "prev" {
        assert Spells(text, false, name);
      }
  }

  lemma TaggedName(name: string)
    ensures WithoutTypeTag(name) != name <==> IsTagged(name)
  {
    match IndexOf(name, ':')
    case None =>
    case Some(colon) =>
      if colon < |name| - 1 {
        assert |name[colon + 1..]| < |name|;
      } else {
        assert forall i :: 0 <= i < |name| - 1 ==> name[..colon][i] == name[i];
      }
  }

  lemma CarriedName(heading: string, name: string)
    ensures Carries(heading, name)
        <==> if WithoutTypeTag(name) != name then heading == name else WithoutTypeTag(heading) == name
  {
    TaggedName(name);
    if !IsTagged(name) {
      if heading == name {
        TaggedName(heading);
      }
      if |heading| > |name| {
        var at := |heading| - |name| - 1;
        if Carries(heading, name) {
          assert heading[at..][0] == ':' && heading[at + 1..] == heading[at..][1..] == name;
          FirstPlace(heading, ':', at);
        }
        if WithoutTypeTag(heading) == name && heading != name {
          var colon := IndexOf(heading, ':').value;
          assert heading[colon + 1..] == name && colon == at;
          assert heading[at..] == [heading[at]] + heading[at + 1..];
        }
      }
    }
  }

  lemma {:induction false} FoundAt(headings: seq<string>, name: string, from: nat, k: nat)
    requires from <= k && FirstAt(headings, name, k)
    ensures FindHeadingFrom(headings, from, name) == Some(k)
    decreases k - from
  {
    hide Carries, WithoutTypeTag;
    CarriedName(headings[from], name);
    if from < k {
      FoundAt(headings, name, from + 1, k);
    }
  }

  lemma {:induction false} NotFound(headings: seq<string>, name: string, from: nat)
    requires from <= |headings| && forall j :: 0 <= j < |headings| ==> !Carries(headings[j], name)
    ensures FindHeadingFrom(headings, from, name) == None
    decreases |headings| - from
  {
    hide Carries, WithoutTypeTag;
    if from < |headings| {
      CarriedName(headings[from], name);
      NotFound(headings, name, from + 1);
    }
  }

  lemma TagIs(heading: string, tag: string)
    requires ':' !in tag && tag != ""
    ensures TypeTag(heading) == Some(tag) <==> tag + ":" < heading
  {
    var n := |tag|;
    if tag + ":" < heading {
      assert heading[n] == (tag + ":")[n] && heading[..n] == (tag + ":")[..n] == tag;
      FirstPlace(heading, ':', n);
    }
    if TypeTag(heading) == Some(tag) {
      assert heading[..n + 1] == tag + ":";
    }
  }

  lemma TypedHeading(heading: string, t: DataType)
    ensures HeadingType(heading) == Some(t) <==> HasType(heading, t)
  {
    hide TypeTag;
    TagIs(heading, "string");
    TagIs(heading, "istring");
    TagIs(heading, "int");
    TagIs(heading, "uint");
    TagIs(heading, "double");
    TagIs(heading, "bool");
    TagIs(heading, "ipaddress");
  }

  /** A heading that is made has the text of its type, and is of that type again. */
  lemma MadeHeading(t: DataType, name: string)
    ensures IsTypedHeading(MakeTypedHeading(t, name), t, name)
    ensures name != "" ==> HasType(MakeTypedHeading(t, name), t) && HeadingType(MakeTypedHeading(t, name)) == Some(t)
  {
    hide HeadingType;
    var heading := MakeTypedHeading(t, name);
    TypedHeading(heading, t);
    assert TypeName(t) + ":" + name == heading;
  }
}
