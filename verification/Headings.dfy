/** Heading names: the record prefix of a reference, the type tag, and the search for a heading. */
module Headings {
  import opened Wrappers
  import opened DataTypes

  function IndexOf(s: string, c: char): (r: Option<nat>)
    ensures r.Some? ==> r.value < |s| && s[r.value] == c && c !in s[..r.value]
    ensures r.None? ==> c !in s
  {
    if s == "" then None
    else if s[0] == c then Some(0)
    else match IndexOf(s[1..], c) case None => None case Some(k) => Some(k + 1)
  }

  datatype Reference = Reference(isThis: bool, name: string)

  /** `this.x` and plain `x` name a field of this record, `other.x` and `prev.x` one of the other record. */
  function GetRecordIdentifier(text: string): Option<Reference> {
    match IndexOf(text, '.')
    case None => Some(Reference(true, text))
    case Some(dot) =>
      if text[..dot] == "this" then Some(Reference(true, text[dot + 1..]))
      else if text[..dot] == "other" then Some(Reference(false, text[dot + 1..]))
      else if text[..dot] == "prev" then Some(Reference(false, text[dot + 1..]))
      else None
  }

  function WithoutTypeTag(heading: string): string {
    match IndexOf(heading, ':')
    case None => heading
    case Some(colon) => if colon == |heading| - 1 then heading else heading[colon + 1..]
  }

  function TypeTag(heading: string): Option<string> {
    match IndexOf(heading, ':')
    case None => None
    case Some(colon) => if colon == |heading| - 1 || colon == 0 then None else Some(heading[..colon])
  }

  function TypeName(t: DataType): string {
    match t
    case TString => "string"
    case TIString => "istring"
    case TInt => "int"
    case TUint => "uint"
    case TDouble => "double"
    case TBool => "bool"
    case TIpAddress => "ipaddress"
  }

  function TypeFromName(name: string): Option<DataType> {
    if name == "string" then Some(TString)
    else if name == "istring" then Some(TIString)
    else if name == "int" then Some(TInt)
    else if name == "uint" then Some(TUint)
    else if name == "double" then Some(TDouble)
    else if name == "bool" then Some(TBool)
    else if name == "ipaddress" then Some(TIpAddress)
    else None
  }

  function HeadingType(heading: string): Option<DataType> {
    var tag :- TypeTag(heading);
    TypeFromName(tag)
  }

  function MakeTypedHeading(t: DataType, name: string): string {
    TypeName(t) + ":" + name
  }

  /** The first field, from `k` on, that the heading names. */
  function FindHeadingFrom(headings: seq<string>, k: nat, heading: string): (r: Option<nat>)
    requires k <= |headings|
    ensures r.Some? ==> k <= r.value < |headings|
    decreases |headings| - k
  {
    if k == |headings| then None
    else if (if WithoutTypeTag(heading) != heading then headings[k] == heading
             else WithoutTypeTag(headings[k]) == heading) then Some(k)
    else FindHeadingFrom(headings, k + 1, heading)
  }

  function FindHeading(headings: seq<string>, heading: string): (r: Option<nat>)
    ensures r.Some? ==> r.value < |headings|
  {
    FindHeadingFrom(headings, 0, heading)
  }
}
