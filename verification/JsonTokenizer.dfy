/** np1/json/tokenizer.hpp: cutting a text into tokens. A character is a byte, white space is that of the C locale. */
module JsonTokenizer {
  import opened Wrappers

  datatype Kind =
    Number | String | Special | OpenObject | CloseObject | OpenArray | CloseArray | NameValueDelimiter
    | ElementDelimiter

  datatype Token = Token(kind: Kind, text: string)

  predicate IsSpace(c: char) {
    c == ' ' || '\t' <= c <= '\r'
  }

  predicate IsDigit(c: char) {
    '0' <= c <= '9'
  }

  predicate IsStopChar(c: char) {
    c == ']' || c == '}' || c == ',' || IsSpace(c)
  }

  /** How many digits a text starts with. */
  function Digits(s: string): (r: nat)
    ensures r <= |s| && (r < |s| ==> !IsDigit(s[r])) && forall i :: 0 <= i < r ==> IsDigit(s[i])
  {
    if s == "" || !IsDigit(s[0]) then 0 else 1 + Digits(s[1..])
  }

  function Spaces(s: string): (r: nat)
    ensures r <= |s| && (r < |s| ==> !IsSpace(s[r])) && forall i :: 0 <= i < r ==> IsSpace(s[i])
  {
    if s == "" || !IsSpace(s[0]) then 0 else 1 + Spaces(s[1..])
  }

  /** Where the digits that have to start at `at` end. */
  function SomeDigits(s: string, at: nat): (r: Option<nat>)
    requires at <= |s|
    ensures r.Some? ==> at < r.value <= |s|
  {
    var n := Digits(s[at..]);
    if n == 0 then None else Some(at + n)
  }

  function Fraction(s: string, at: nat): (r: Option<nat>)
    requires at <= |s|
    ensures r.Some? ==> at <= r.value <= |s|
  {
    if at < |s| && s[at] == '.' then SomeDigits(s, at + 1) else Some(at)
  }

  function Exponent(s: string, at: nat): (r: Option<nat>)
    requires at <= |s|
    ensures r.Some? ==> at <= r.value <= |s|
  {
    if at < |s| && (s[at] == 'e' || s[at] == 'E') then
      SomeDigits(s, if at + 1 < |s| && (s[at + 1] == '+' || s[at + 1] == '-') then at + 2 else at + 1)
    else
      Some(at)
  }

  /** The length of the number a text starts with, if it is one and something that may follow it does. */
  function NumberLength(s: string): (r: Option<nat>)
    requires s != ""
    ensures r.Some? ==> 0 < r.value <= |s|
  {
    var whole :- SomeDigits(s, if s[0] == '-' then 1 else 0);
    var frac :- Fraction(s, whole);
    var end :- Exponent(s, frac);
    if end < |s| && !IsStopChar(s[end]) then None else Some(end)
  }

  /** The end of a string: past the next quote with no backslash right before it. */
  function StringEnd(s: string, at: nat): (r: Option<nat>)
    requires 1 <= at <= |s|
    ensures r.Some? ==> at < r.value <= |s|
    decreases |s| - at
  {
    if at == |s| then None
    else if s[at] == '"' && s[at - 1] != '\\' then Some(at + 1)
    else StringEnd(s, at + 1)
  }

  function SpecialLength(s: string, expected: string): (r: Option<nat>)
    ensures r.Some? ==> r.value == |expected| <= |s|
  {
    if expected <= s && (|s| == |expected| || IsStopChar(s[|expected|])) then Some(|expected|) else None
  }

  function Single(kind: Kind): (Kind, Option<nat>) {
    (kind, Some(1))
  }

  /** The kind and length of the token a text starts with; None is an abort. */
  function Scan(s: string): (r: (Kind, Option<nat>))
    requires s != ""
    ensures r.1.Some? ==> 0 < r.1.value <= |s|
  {
    var c := s[0];
    if IsDigit(c) || c == '-' then (Number, NumberLength(s))
    else if c == '"' then (String, StringEnd(s, 1))
    else if c == '{' then Single(OpenObject)
    else if c == ':' then Single(NameValueDelimiter)
    else if c == '}' then Single(CloseObject)
    else if c == '[' then Single(OpenArray)
    else if c == ',' then Single(ElementDelimiter)
    else if c == ']' then Single(CloseArray)
    else if c == 't' then (Special, SpecialLength(s, "true"))
    else if c == 'f' then (Special, SpecialLength(s, "false"))
    else if c == 'n' then (Special, SpecialLength(s, "null"))
    else (Special, None)
  }

  /** What one turn of the tokenizer's loop does with the rest of the text. */
  datatype Turn = End | Abort | Got(token: Token, rest: string)

  function NextToken(s: string): (r: Turn)
    ensures r.Got? ==> |r.rest| < |s|
  {
    Turned(s[Spaces(s)..])
  }

  function Turned(t: string): (r: Turn)
    ensures r.Got? ==> |r.rest| < |t|
  {
    if t == "" then End
    else
      var (kind, length) := Scan(t);
      if length.None? then Abort else Got(Token(kind, t[..length.value]), t[length.value..])
  }

  lemma NothingTurned()
    ensures Turned("") == End
  {
  }

  lemma TurnedSplits(t: string)
    ensures Turned(t).Got? ==> t == Turned(t).token.text + Turned(t).rest
  {
    hide Scan;
  }

  lemma TurnedIs(t: string, kind: Kind, n: nat)
    requires t != ""
    ensures Scan(t).1 == None ==> Turned(t) == Abort
    ensures Scan(t) == (kind, Some(n)) ==> Turned(t) == Got(Token(kind, t[..n]), t[n..])
  {
    hide Scan;
  }

  /** All tokens of a text; None when the tokenizer aborts. */
  function Tokenize(s: string): (r: Option<seq<Token>>)
    decreases |s|
  {
    match NextToken(s)
    case End => Some([])
    case Abort => None
    case Got(token, rest) =>
      var more :- Tokenize(rest);
      Some([token] + more)
  }

  class Tokenizer {
    const data: string
    var p: nat

    ghost predicate Valid()
      reads this
    {
      p <= |data|
    }

    constructor (data: string)
      ensures Valid() && this.data == data && p == 0
    {
      this.data, p := data, 0;
    }

    method EatWhitespace()
      requires Valid()
      modifies this
      ensures Valid() && p == old(p) + Spaces(data[old(p)..])
    {
      while p < |data| && IsSpace(data[p])
        invariant Valid() && old(p) <= p && old(p) + Spaces(data[old(p)..]) == p + Spaces(data[p..])
      {
        assert data[p..][1..] == data[p + 1..];
        p := p + 1;
      }
    }

    /** The loops over digits. */
    method SkipDigits()
      requires Valid()
      modifies this
      ensures Valid() && p == old(p) + Digits(data[old(p)..])
    {
      while p < |data| && IsDigit(data[p])
        invariant Valid() && old(p) <= p && old(p) + Digits(data[old(p)..]) == p + Digits(data[p..])
      {
        assert data[p..][1..] == data[p + 1..];
        p := p + 1;
      }
    }

    /** At least one digit, in the token that began at `start`; `ok` is false where the source aborts. */
    method OnDigits(ghost start: nat) returns (ok: bool)
      requires Valid() && start <= p
      modifies this
      ensures Valid() && start <= p && SomeDigits(data[start..], old(p) - start) == if ok then Some(p - start) else None
    {
      assert data[start..][p - start..] == data[p..];
      var digitStart := p;
      SkipDigits();
      ok := p > digitStart;
    }

    method OnFraction(ghost start: nat) returns (ok: bool)
      requires Valid() && start <= p
      modifies this
      ensures Valid() && start <= p && Fraction(data[start..], old(p) - start) == if ok then Some(p - start) else None
    {
      ok := true;
      if p < |data| && data[p] == '.' {
        p := p + 1;
        ok := OnDigits(start);
      }
    }

    method OnExponent(ghost start: nat) returns (ok: bool)
      requires Valid() && start <= p
      modifies this
      ensures Valid() && start <= p && Exponent(data[start..], old(p) - start) == if ok then Some(p - start) else None
    {
      ok := true;
      if p < |data| && (data[p] == 'e' || data[p] == 'E') {
        p := p + 1;
        if p < |data| && (data[p] == '+' || data[p] == '-') {
          p := p + 1;
        }
        ok := OnDigits(start);
      }
    }

    /** `on_number`; `ok` is false where the source aborts. */
    method OnNumber() returns (ok: bool)
      requires Valid() && p < |data| && (IsDigit(data[p]) || data[p] == '-')
      modifies this
      ensures Valid() && old(p) <= p
      ensures ok ==> NumberLength(data[old(p)..]) == Some(p - old(p))
      ensures !ok ==> NumberLength(data[old(p)..]) == None
    {
      hide SomeDigits, Fraction, Exponent;
      ghost var start := p;
      if data[p] == '-' {
        p := p + 1;
        if !(p < |data| && IsDigit(data[p])) {
          NoDigits(data[start..], 1);
          return false;
        }
      }
      ok := OnDigits(start);
      if !ok { return; }
      ok := OnFraction(start);
      if !ok { return; }
      ok := OnExponent(start);
      if !ok { return; }
      ok := !(p < |data| && !IsStopChar(data[p]));
    }

    /** `memchr`: the next quote. */
    method FindQuote() returns (end: nat)
      requires Valid()
      ensures p <= end <= |data| && (end < |data| ==> data[end] == '"')
      ensures forall i :: p <= i < end ==> data[i] != '"'
    {
      end := p;
      while end < |data| && data[end] != '"'
        invariant p <= end <= |data| && forall i :: p <= i < end ==> data[i] != '"'
      {
        end := end + 1;
      }
    }

    /** `on_string`; `ok` is false where the source aborts. */
    method OnString() returns (ok: bool)
      requires Valid() && p < |data| && data[p] == '"'
      modifies this
      ensures Valid() && old(p) <= p
      ensures StringEnd(data[old(p)..], 1) == if ok then Some(p - old(p)) else None
    {
      ghost var s := data[p..];
      ghost var start := p;
      p := p + 1;
      while true
        invariant Valid() && p > start && StringEnd(s, 1) == StringEnd(s, p - start)
        decreases |data| - p
      {
        var end := FindQuote();
        NoQuote(s, p - start, end - start);
        if end == |data| { return false; }
        p := end + 1;
        if data[end - 1] != '\\' { return true; }
      }
    }

    /** `validate_special` and what follows it. */
    method OnSpecial(expected: string) returns (ok: bool)
      requires Valid()
      modifies this
      ensures Valid() && old(p) <= p
      ensures SpecialLength(data[old(p)..], expected) == if ok then Some(p - old(p)) else None
    {
      var len, remaining := |expected|, |data| - p;
      ok := remaining >= len && (remaining == len || IsStopChar(data[p + len])) && data[p..p + len] == expected;
      if ok {
        p := p + len;
      }
    }

    /** One turn of `raw_tokenize`: the handler is called with the token that is returned. */
    method Next() returns (r: Turn)
      requires Valid()
      modifies this
      ensures Valid() && r == NextToken(data[old(p)..])
      ensures r.Got? ==> data[p..] == r.rest
      ensures old(p) <= p && (r.Got? ==> old(p) + |r.token.text| <= p)
    {
      hide Scan, Spaces, Turned;
      ghost var s := data[p..];
      EatWhitespace();
      var start := p;
      assert data[start..] == s[Spaces(s)..];
      if p >= |data| {
        NothingTurned();
        return End;
      }
      var ok, kind := OnToken();
      TurnedIs(data[start..], kind, p - start);
      if !ok { return Abort; }
      assert data[start..][..p - start] == data[start..p] && data[start..][p - start..] == data[p..];
      r := Got(Token(kind, data[start..p]), data[p..]);
    }

    /** The switch on the first character. */
    method OnToken() returns (ok: bool, kind: Kind)
      requires Valid() && p < |data|
      modifies this
      ensures Valid() && old(p) <= p
      ensures ok ==> Scan(data[old(p)..]) == (kind, Some(p - old(p)))
      ensures !ok ==> Scan(data[old(p)..]).1 == None
    {
      hide NumberLength, StringEnd, SpecialLength;
      ok, kind := true, Special;
      var c := data[p];
      if IsDigit(c) || c == '-' {
        kind := Number;
        ok := OnNumber();
      } else if c == '"' {
        kind := String;
        ok := OnString();
      } else if c == 't' {
        ok := OnSpecial("true");
      } else if c == 'f' {
        ok := OnSpecial("false");
      } else if c == 'n' {
        ok := OnSpecial("null");
      } else if c == '{' || c == ':' || c == '}' || c == '[' || c == ',' || c == ']' {
        kind := KindOfSingle(c);
        p := p + 1;
      } else {
        ok := false;
      }
    }
  }

  function KindOfSingle(c: char): Kind {
    match c
    case '{' => OpenObject
    case ':' => NameValueDelimiter
    case '}' => CloseObject
    case '[' => OpenArray
    case ',' => ElementDelimiter
    case _ => CloseArray
  }

  lemma NoDigits(s: string, at: nat)
    requires at <= |s| && (at < |s| ==> !IsDigit(s[at]))
    ensures SomeDigits(s, at) == None
  {
  }

  lemma {:induction false} NoQuote(s: string, at: nat, end: nat)
    requires 1 <= at <= end <= |s| && forall i :: at <= i < end ==> s[i] != '"'
    ensures StringEnd(s, at) == StringEnd(s, end)
    decreases end - at
  {
    if at < end {
      NoQuote(s, at + 1, end);
    }
  }
}
