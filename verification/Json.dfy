/** JSON values, the tokens that spell them and the texts in which those tokens are laid out (RFC 8259,
    sections 2 to 7), and what the tokenizer makes of such texts. */
module Json {
  import opened Wrappers
  import opened JsonTokenizer

  /** A number's parts; no fraction is "", and an exponent is its letter, its sign and its digits. */
  datatype Numeral = Numeral(negative: bool, whole: string, fraction: string, exponent: Option<Exponential>)
  datatype Exponential = Exponential(letter: char, sign: string, digits: string)

  datatype Value =
    | Num(numeral: Numeral)
    | Str(body: string)
    | True
    | False
    | Null
    | Array(items: seq<Value>)
    | Object(members: seq<Member>)

  datatype Member = Member(name: string, value: Value)

  predicate AllDigits(s: string) {
    forall i :: 0 <= i < |s| ==> s[i] in {'0', '1', '2', '3', '4', '5', '6', '7', '8', '9'}
  }

  predicate IsNumeral(n: Numeral) {
    && n.whole != "" && AllDigits(n.whole) && AllDigits(n.fraction)
    && (n.exponent.Some? ==>
      && n.exponent.value.letter in {'e', 'E'} && n.exponent.value.sign in {"", "+", "-"}
      && n.exponent.value.digits != "" && AllDigits(n.exponent.value.digits))
  }

  function Minus(n: Numeral): string {
    if n.negative then "-" else ""
  }

  function FractionText(n: Numeral): string {
    if n.fraction == "" then "" else "." + n.fraction
  }

  function ExponentText(n: Numeral): string {
    match n.exponent
    case None => ""
    case Some(e) => [e.letter] + e.sign + e.digits
  }

  function NumeralText(n: Numeral): string {
    Minus(n) + n.whole + FractionText(n) + ExponentText(n)
  }

  /** What may stand between the quotes: a backslash goes with the character after it, a quote needs one. */
  predicate IsBody(s: string) {
    s == "" || if s[0] == '\\' then |s| >= 2 && IsBody(s[2..]) else s[0] != '"' && IsBody(s[1..])
  }

  predicate EndsInBackslash(s: string) {
    s != "" && s[|s| - 1] == '\\'
  }

  /** A string the tokenizer can read. */
  predicate IsReadable(s: string) {
    IsBody(s) && !EndsInBackslash(s)
  }

  predicate WellFormed(v: Value) {
    match v
    case Num(n) => IsNumeral(n)
    case Str(s) => IsReadable(s)
    case Array(items) => forall i :: 0 <= i < |items| ==> WellFormed(items[i])
    case Object(members) =>
      forall i :: 0 <= i < |members| ==> IsReadable(members[i].name) && WellFormed(members[i].value)
    case _ => true
  }

  function Quoted(s: string): string {
    "\"" + s + "\""
  }

  const OPEN_OBJECT := Token(OpenObject, "{")
  const CLOSE_OBJECT := Token(CloseObject, "}")
  const OPEN_ARRAY := Token(OpenArray, "[")
  const CLOSE_ARRAY := Token(CloseArray, "]")
  const COLON := Token(NameValueDelimiter, ":")
  const COMMA := Token(ElementDelimiter, ",")

  function TokensOf(v: Value): (r: seq<Token>)
    ensures |r| >= 1
  {
    match v
    case Num(n) => [Token(Number, NumeralText(n))]
    case Str(s) => [Token(String, Quoted(s))]
    case True => [Token(Special, "true")]
    case False => [Token(Special, "false")]
    case Null => [Token(Special, "null")]
    case Array(items) => [OPEN_ARRAY] + ItemTokens(items) + [CLOSE_ARRAY]
    case Object(members) => [OPEN_OBJECT] + MemberTokens(members) + [CLOSE_OBJECT]
  }

  function ItemTokens(items: seq<Value>): seq<Token> {
    if items == [] then []
    else TokensOf(items[0]) + (if |items| == 1 then [] else [COMMA] + ItemTokens(items[1..]))
  }

  function NamedTokens(m: Member): seq<Token> {
    [Token(String, Quoted(m.name)), COLON] + TokensOf(m.value)
  }

  function MemberTokens(members: seq<Member>): seq<Token> {
    if members == [] then []
    else NamedTokens(members[0]) + (if |members| == 1 then [] else [COMMA] + MemberTokens(members[1..]))
  }

  /** The value written without any white space. */
  function Text(v: Value): string {
    match v
    case Num(n) => NumeralText(n)
    case Str(s) => Quoted(s)
    case True => "true"
    case False => "false"
    case Null => "null"
    case Array(items) => "[" + ItemsText(items) + "]"
    case Object(members) => "{" + MembersText(members) + "}"
  }

  function ItemsText(items: seq<Value>): string {
    if items == [] then ""
    else if |items| == 1 then Text(items[0])
    else Text(items[0]) + "," + ItemsText(items[1..])
  }

  function MembersText(members: seq<Member>): string {
    if members == [] then ""
    else
      var first := Quoted(members[0].name) + ":" + Text(members[0].value);
      if |members| == 1 then first else first + "," + MembersText(members[1..])
  }

  /** The texts of tokens one after the other. */
  function Joined(tokens: seq<Token>): string {
    if tokens == [] then "" else tokens[0].text + Joined(tokens[1..])
  }

  lemma {:induction false} JoinedConcat(a: seq<Token>, b: seq<Token>)
    ensures Joined(a + b) == Joined(a) + Joined(b)
  {
    if a == [] {
      assert a + b == b;
    } else {
      assert (a + b)[1..] == a[1..] + b;
      JoinedConcat(a[1..], b);
    }
  }

  lemma {:induction false} JoinedIsText(v: Value)
    ensures Joined(TokensOf(v)) == Text(v)
  {
    match v
    case Array(items) =>
      ItemsJoined(items);
      JoinedConcat([OPEN_ARRAY] + ItemTokens(items), [CLOSE_ARRAY]);
      JoinedConcat([OPEN_ARRAY], ItemTokens(items));
    case Object(members) =>
      MembersJoined(members);
      JoinedConcat([OPEN_OBJECT] + MemberTokens(members), [CLOSE_OBJECT]);
      JoinedConcat([OPEN_OBJECT], MemberTokens(members));
    case _ =>
  }

  lemma {:induction false} ItemsJoined(items: seq<Value>)
    ensures Joined(ItemTokens(items)) == ItemsText(items)
  {
    if items != [] {
      JoinedIsText(items[0]);
      if |items| == 1 {
        assert ItemTokens(items) == TokensOf(items[0]);
      } else {
        ItemsJoined(items[1..]);
        JoinedConcat(TokensOf(items[0]), [COMMA] + ItemTokens(items[1..]));
        JoinedConcat([COMMA], ItemTokens(items[1..]));
      }
    }
  }

  lemma {:induction false} MembersJoined(members: seq<Member>)
    ensures Joined(MemberTokens(members)) == MembersText(members)
  {
    if members != [] {
      var m := members[0];
      JoinedIsText(m.value);
      JoinedConcat([Token(String, Quoted(m.name)), COLON], TokensOf(m.value));
      assert Joined(NamedTokens(m)) == Quoted(m.name) + ":" + Text(m.value);
      if |members| == 1 {
        assert MemberTokens(members) == NamedTokens(m);
      } else {
        MembersJoined(members[1..]);
        JoinedConcat(NamedTokens(m), [COMMA] + MemberTokens(members[1..]));
        JoinedConcat([COMMA], MemberTokens(members[1..]));
      }
    }
  }

  /** The four characters of section 2 of RFC 8259. */
  predicate IsJsonSpace(c: char) {
    c as int == 0x20 || c as int == 0x09 || c as int == 0x0A || c as int == 0x0D
  }

  /** White space: those four, and the vertical tab and the form feed of the C locale. */
  predicate AllSpaces(s: string) {
    forall i :: 0 <= i < |s| ==> IsJsonSpace(s[i]) || s[i] as int == 0x0B || s[i] as int == 0x0C
  }

  /** White space: a text of it before each token and one after the last. */
  predicate Gaps(gaps: seq<string>, tokens: seq<Token>) {
    |gaps| == |tokens| + 1 && forall i :: 0 <= i < |gaps| ==> AllSpaces(gaps[i])
  }

  function Layout(tokens: seq<Token>, gaps: seq<string>): string
    requires |gaps| == |tokens| + 1
  {
    if tokens == [] then gaps[0] else gaps[0] + (tokens[0].text + Layout(tokens[1..], gaps[1..]))
  }

  function NoGaps(tokens: seq<Token>): (r: seq<string>)
    ensures |r| == |tokens| + 1 && Gaps(r, tokens)
  {
    seq(|tokens| + 1, _ => "")
  }

  lemma {:induction false} JoinedIsLayout(tokens: seq<Token>)
    ensures Layout(tokens, NoGaps(tokens)) == Joined(tokens)
  {
    if tokens != [] {
      assert NoGaps(tokens)[1..] == NoGaps(tokens[1..]);
      JoinedIsLayout(tokens[1..]);
    }
  }

  /** A token's text is one the tokenizer accepts as that token. */
  ghost predicate IsToken(t: Token) {
    match t.kind
    case Number => exists n :: IsNumeral(n) && t.text == NumeralText(n)
    case String => exists s :: IsReadable(s) && t.text == Quoted(s)
    case Special => t.text in {"true", "false", "null"}
    case OpenObject => t == OPEN_OBJECT
    case CloseObject => t == CLOSE_OBJECT
    case OpenArray => t == OPEN_ARRAY
    case CloseArray => t == CLOSE_ARRAY
    case NameValueDelimiter => t == COLON
    case ElementDelimiter => t == COMMA
  }

  ghost predicate AreTokens(tokens: seq<Token>) {
    forall i :: 0 <= i < |tokens| ==> IsToken(tokens[i])
  }

  predicate NeedsStop(t: Token) {
    t.kind in {Number, Special}
  }

  predicate Stops(t: Token) {
    t.kind in {CloseObject, CloseArray, ElementDelimiter}
  }

  /** After a number or a literal name comes a token that starts with a stop character. */
  predicate Separated(tokens: seq<Token>) {
    forall i :: 0 <= i < |tokens| - 1 && NeedsStop(tokens[i]) ==> Stops(tokens[i + 1])
  }

  lemma {:induction false} DigitsAre(d: string, rest: string)
    requires AllDigits(d) && (rest == "" || !IsDigit(rest[0]))
    ensures Digits(d + rest) == |d|
  {
    assert forall i :: 0 <= i < |d| ==> (d + rest)[i] == d[i];
    assert rest != "" ==> (d + rest)[|d|] == rest[0];
  }

  lemma {:induction false} SpacesAre(gap: string, rest: string)
    requires AllSpaces(gap) && (rest == "" || !IsSpace(rest[0]))
    ensures Spaces(gap + rest) == |gap|
  {
    assert forall i :: 0 <= i < |gap| ==> (gap + rest)[i] == gap[i];
    assert rest != "" ==> (gap + rest)[|gap|] == rest[0];
  }

  /** Digits in the middle of a text. */
  lemma SomeDigitsAre(before: string, d: string, rest: string)
    requires d != "" && AllDigits(d) && (rest == "" || !IsDigit(rest[0]))
    ensures SomeDigits(before + (d + rest), |before|) == Some(|before| + |d|)
  {
    assert (before + (d + rest))[|before|..] == d + rest;
    DigitsAre(d, rest);
  }

  lemma FractionIs(before: string, n: Numeral, rest: string)
    requires IsNumeral(n) && (rest == "" || (!IsDigit(rest[0]) && rest[0] != '.'))
    ensures Fraction(before + (FractionText(n) + rest), |before|) == Some(|before| + |FractionText(n)|)
  {
    hide SomeDigits;
    var s := before + (FractionText(n) + rest);
    if n.fraction != "" {
      assert s == (before + ".") + (n.fraction + rest);
      assert s[|before|] == '.';
      SomeDigitsAre(before + ".", n.fraction, rest);
    } else if rest != "" {
      assert s[|before|] == rest[0];
    }
  }

  lemma ExponentIs(before: string, n: Numeral, rest: string)
    requires IsNumeral(n) && (rest == "" || (!IsDigit(rest[0]) && rest[0] != 'e' && rest[0] != 'E'))
    ensures Exponent(before + (ExponentText(n) + rest), |before|) == Some(|before| + |ExponentText(n)|)
  {
    hide SomeDigits;
    var s := before + (ExponentText(n) + rest);
    match n.exponent
    case None =>
      if rest != "" { assert s[|before|] == rest[0]; }
    case Some(e) =>
      var start := before + [e.letter] + e.sign;
      assert s == start + (e.digits + rest);
      assert s[|before|] == e.letter;
      if e.sign == "" {
        assert s[|before| + 1] == e.digits[0];
      } else {
        assert s[|before| + 1] == e.sign[0];
      }
      SomeDigitsAre(start, e.digits, rest);
  }

  lemma NumberLengthIs(s: string, whole: nat, fraction: nat, end: nat)
    requires s != "" && SomeDigits(s, if s[0] == '-' then 1 else 0) == Some(whole) && whole <= |s|
    requires Fraction(s, whole) == Some(fraction) && fraction <= |s| && Exponent(s, fraction) == Some(end)
    requires end < |s| ==> IsStopChar(s[end])
    ensures NumberLength(s) == Some(end)
  {
    hide SomeDigits, Fraction, Exponent, IsStopChar;
  }

  /** The same text, cut before the whole part, before the fraction and before the exponent. */
  lemma NumeralParts(n: Numeral, rest: string)
    ensures
      var s := NumeralText(n) + rest;
      && s == Minus(n) + (n.whole + (FractionText(n) + (ExponentText(n) + rest)))
      && s == (Minus(n) + n.whole) + (FractionText(n) + (ExponentText(n) + rest))
      && s == (Minus(n) + n.whole + FractionText(n)) + (ExponentText(n) + rest)
  {
    hide FractionText, ExponentText, Minus;
  }

  /** A number is read to its end whenever nothing that belongs to a number follows. */
  lemma NumberIsRead(n: Numeral, rest: string)
    requires IsNumeral(n) && (rest == "" || IsStopChar(rest[0]))
    ensures NumberLength(NumeralText(n) + rest) == Some(|NumeralText(n)|)
  {
    hide SomeDigits, Fraction, Exponent, NumberLength, NumeralText;
    var s := NumeralText(n) + rest;
    var afterWhole, afterFraction := Minus(n) + n.whole, Minus(n) + n.whole + FractionText(n);
    NumeralParts(n, rest);
    SomeDigitsAre(Minus(n), n.whole, FractionText(n) + (ExponentText(n) + rest));
    assert s[0] == if n.negative then '-' else n.whole[0];
    FractionIs(afterWhole, n, ExponentText(n) + rest);
    ExponentIs(afterFraction, n, rest);
    NumeralLength(n);
    if rest != "" { assert s[|NumeralText(n)|] == rest[0]; }
    NumberLengthIs(s, |afterWhole|, |afterFraction|, |NumeralText(n)|);
  }

  lemma NumeralLength(n: Numeral)
    ensures |NumeralText(n)| == |Minus(n)| + |n.whole| + |FractionText(n)| + |ExponentText(n)|
  {
    hide FractionText, ExponentText, Minus;
  }

  /** Inside a string every quote has a backslash right before it. */
  lemma {:induction false} QuotesAreEscaped(s: string, k: nat)
    requires IsBody(s) && k < |s| && s[k] == '"'
    ensures k > 0 && s[k - 1] == '\\'
  {
    if s[0] == '\\' {
      if k >= 2 { QuotesAreEscaped(s[2..], k - 2); }
    } else if k >= 1 {
      QuotesAreEscaped(s[1..], k - 1);
    }
  }

  /** A string is read to its closing quote exactly when it does not end in an escaped backslash: the tokenizer
      looks at one character before a quote only. */
  lemma StringIsRead(body: string, rest: string)
    requires IsBody(body)
    ensures StringEnd(Quoted(body) + rest, 1) == Some(|Quoted(body)|) <==> !EndsInBackslash(body)
  {
    var s := Quoted(body) + rest;
    var n := |body|;
    forall k | 1 <= k < n + 1 && s[k] == '"' ensures s[k - 1] == '\\' {
      assert s[k] == body[k - 1];
      QuotesAreEscaped(body, k - 1);
      assert s[k - 1] == body[k - 2];
    }
    PassOver(s, 1, n + 1);
    assert s[n + 1] == '"' && s[n] == if n == 0 then '"' else body[n - 1];
  }

  lemma {:induction false} PassOver(s: string, at: nat, end: nat)
    requires 1 <= at <= end <= |s| && forall k :: at <= k < end && s[k] == '"' ==> s[k - 1] == '\\'
    ensures StringEnd(s, at) == StringEnd(s, end)
    decreases end - at
  {
    if at < end { PassOver(s, at + 1, end); }
  }

  /** Each token is read from a text that starts with it. */
  lemma TokenIsRead(t: Token, rest: string)
    requires IsToken(t) && (NeedsStop(t) ==> rest == "" || IsStopChar(rest[0]))
    ensures t.text != "" && !IsSpace(t.text[0]) && Scan(t.text + rest) == (t.kind, Some(|t.text|))
  {
    var s := t.text + rest;
    assert t.text != "" ==> s[0] == t.text[0];
    match t.kind
    case Number =>
      var n :| IsNumeral(n) && t.text == NumeralText(n);
      NumberIsRead(n, rest);
      NumeralStarts(n);
    case String =>
      var b :| IsReadable(b) && t.text == Quoted(b);
      StringIsRead(b, rest);
    case Special =>
      SpecialIsRead(t.text, rest);
    case _ =>
  }

  lemma NumeralStarts(n: Numeral)
    requires IsNumeral(n)
    ensures NumeralText(n) != "" && (NumeralText(n)[0] == '-' || IsDigit(NumeralText(n)[0]))
  {
    assert NumeralText(n)[0] == if n.negative then '-' else n.whole[0];
  }

  lemma SpecialIsRead(text: string, rest: string)
    requires rest == "" || IsStopChar(rest[0])
    ensures SpecialLength(text + rest, text) == Some(|text|)
  {
    assert text <= text + rest;
  }

  lemma NextIsRead(gap: string, t: Token, rest: string)
    requires AllSpaces(gap) && IsToken(t) && (NeedsStop(t) ==> rest == "" || IsStopChar(rest[0]))
    ensures NextToken(gap + (t.text + rest)) == Got(t, rest)
  {
    hide Scan, IsToken, Spaces, IsStopChar, IsSpace;
    var s := gap + (t.text + rest);
    TokenIsRead(t, rest);
    assert (t.text + rest)[0] == t.text[0];
    SpacesAre(gap, t.text + rest);
    assert s[|gap|..] == t.text + rest;
    assert (t.text + rest)[..|t.text|] == t.text && (t.text + rest)[|t.text|..] == rest;
    TurnedIs(t.text + rest, t.kind, |t.text|);
  }

  lemma NextIsLayout(s: string, token: Token, rest: string)
    requires NextToken(s) == Got(token, rest)
    ensures AllSpaces(s[..Spaces(s)]) && s == s[..Spaces(s)] + (token.text + rest)
  {
    hide Turned;
    TurnedSplits(s[Spaces(s)..]);
    assert s == s[..Spaces(s)] + s[Spaces(s)..];
  }

  lemma OnlySpaces(s: string)
    requires AllSpaces(s)
    ensures NextToken(s) == End
  {
    SpacesAre(s, "");
    assert s + "" == s && s[|s|..] == "";
  }

  /** Whatever white space is put between them, separated tokens are read back. */
  lemma {:induction false} TokensAreRead(tokens: seq<Token>, gaps: seq<string>)
    requires AreTokens(tokens) && Separated(tokens) && Gaps(gaps, tokens)
    ensures Tokenize(Layout(tokens, gaps)) == Some(tokens)
  {
    hide NextToken, IsToken, IsStopChar, AllSpaces;
    var s := Layout(tokens, gaps);
    if tokens == [] {
      OnlySpaces(s);
    } else {
      var t, rest := tokens[0], Layout(tokens[1..], gaps[1..]);
      LayoutStarts(tokens, gaps);
      NextIsRead(gaps[0], t, rest);
      TokensAreRead(tokens[1..], gaps[1..]);
      assert [t] + tokens[1..] == tokens;
    }
  }

  /** The rest of a layout starts with a stop character where one is needed. */
  lemma LayoutStarts(tokens: seq<Token>, gaps: seq<string>)
    requires AreTokens(tokens) && Separated(tokens) && Gaps(gaps, tokens) && tokens != []
    ensures
      var rest := Layout(tokens[1..], gaps[1..]);
      NeedsStop(tokens[0]) ==> rest == "" || IsStopChar(rest[0])
  {
    var rest := Layout(tokens[1..], gaps[1..]);
    if gaps[1] != "" {
      assert rest[0] == gaps[1][0];
    } else if |tokens| > 1 && NeedsStop(tokens[0]) {
      assert Stops(tokens[1]) && IsToken(tokens[1]);
      assert rest[0] == tokens[1].text[0];
    }
  }

  /** Every text the tokenizer accepts is a layout of its tokens: only white space lies between them. */
  lemma {:induction false} AcceptedIsLayout(s: string) returns (gaps: seq<string>)
    requires Tokenize(s).Some?
    ensures Gaps(gaps, Tokenize(s).value) && Layout(Tokenize(s).value, gaps) == s
    decreases |s|
  {
    hide NextToken;
    match NextToken(s)
    case End =>
      NothingIsLeft(s);
      gaps := [s];
    case Got(token, rest) =>
      var more := AcceptedIsLayout(rest);
      NextIsLayout(s, token, rest);
      gaps := [s[..Spaces(s)]] + more;
      assert gaps[1..] == more;
      assert Tokenize(s).value[1..] == Tokenize(rest).value;
  }

  lemma NothingIsLeft(s: string)
    requires NextToken(s) == End
    ensures AllSpaces(s)
  {
  }

  /** The tokens of a value are tokens and are separated. */
  lemma {:induction false} TokensAreGood(v: Value)
    requires WellFormed(v)
    ensures AreTokens(TokensOf(v)) && Separated(TokensOf(v))
  {
    match v
    case Array(items) =>
      ItemsAreGood(items);
      GoodBetween(OPEN_ARRAY, ItemTokens(items), CLOSE_ARRAY);
    case Object(members) =>
      MembersAreGood(members);
      GoodBetween(OPEN_OBJECT, MemberTokens(members), CLOSE_OBJECT);
    case _ =>
  }

  lemma GoodBetween(open: Token, inner: seq<Token>, close: Token)
    requires IsToken(open) && !NeedsStop(open) && IsToken(close) && Stops(close)
    requires AreTokens(inner) && Separated(inner)
    ensures AreTokens([open] + inner + [close]) && Separated([open] + inner + [close])
  {
    hide IsToken;
    GoodBeside([open], inner);
    GoodBeside([open] + inner, [close]);
  }

  lemma GoodBeside(a: seq<Token>, b: seq<Token>)
    requires AreTokens(a) && Separated(a) && AreTokens(b) && Separated(b)
    requires a != [] && NeedsStop(a[|a| - 1]) && b != [] ==> Stops(b[0])
    ensures AreTokens(a + b) && Separated(a + b)
  {
    hide IsToken;
  }

  lemma {:induction false} ItemsAreGood(items: seq<Value>)
    requires WellFormed(Array(items))
    ensures AreTokens(ItemTokens(items)) && Separated(ItemTokens(items))
  {
    if items != [] {
      TokensAreGood(items[0]);
      if |items| > 1 {
        ItemsAreGood(items[1..]);
        GoodBeside([COMMA], ItemTokens(items[1..]));
        GoodBeside(TokensOf(items[0]), [COMMA] + ItemTokens(items[1..]));
      } else {
        assert ItemTokens(items) == TokensOf(items[0]);
      }
    }
  }

  lemma NameIsGood(m: Member)
    requires IsReadable(m.name)
    ensures AreTokens([Token(String, Quoted(m.name)), COLON]) && Separated([Token(String, Quoted(m.name)), COLON])
  {
  }

  lemma {:induction false} MembersAreGood(members: seq<Member>)
    requires WellFormed(Object(members))
    ensures AreTokens(MemberTokens(members)) && Separated(MemberTokens(members))
  {
    if members != [] {
      var m := members[0];
      NameIsGood(m);
      TokensAreGood(m.value);
      GoodBeside([Token(String, Quoted(m.name)), COLON], TokensOf(m.value));
      if |members| > 1 {
        MembersAreGood(members[1..]);
        GoodBeside([COMMA], MemberTokens(members[1..]));
        GoodBeside(NamedTokens(m), [COMMA] + MemberTokens(members[1..]));
      } else {
        assert MemberTokens(members) == NamedTokens(m);
      }
    }
  }
}
