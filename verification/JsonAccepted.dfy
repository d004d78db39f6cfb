/** What else than JSON np1/json/parser.hpp accepts: exactly when an accepted text is a JSON value, when its normal
    form reads as the same tokens, and when the normal form is accepted again. */
module JsonAccepted {
  import opened Wrappers
  import opened JsonTokenizer
  import opened Json
  import opened JsonParser
  import opened JsonProofs

  // --- What the tokenizer lets through. ---

  /** A token as the tokenizer reads it: a token of the grammar, but a string may be any that ends at its first quote
      with no backslash right before it. */
  ghost predicate IsLexeme(t: Token) {
    if t.kind == String then t.text != "" && t.text[0] == '"' && StringEnd(t.text, 1) == Some(|t.text|) else IsToken(t)
  }

  ghost predicate AreLexemes(tokens: seq<Token>) {
    forall i :: 0 <= i < |tokens| ==> IsLexeme(tokens[i])
  }

  lemma DigitsRead(s: string, at: nat, end: nat)
    requires at <= |s| && SomeDigits(s, at) == Some(end)
    ensures at < end <= |s| && AllDigits(s[at..end])
  {
    var n := Digits(s[at..]);
    assert forall i :: 0 <= i < n ==> s[at..end][i] == s[at..][i];
  }

  lemma FractionRead(s: string, at: nat, end: nat) returns (digits: string)
    requires at <= |s| && Fraction(s, at) == Some(end)
    ensures AllDigits(digits) && s[at..end] == if digits == "" then "" else "." + digits
  {
    if at < |s| && s[at] == '.' {
      DigitsRead(s, at + 1, end);
      digits := s[at + 1..end];
      assert s[at..end] == [s[at]] + digits;
    } else {
      digits := "";
    }
  }

  lemma ExponentRead(s: string, at: nat, end: nat) returns (e: Option<Exponential>)
    requires at <= |s| && Exponent(s, at) == Some(end)
    ensures s[at..end] == match e { case None => "" case Some(x) => [x.letter] + x.sign + x.digits }
    ensures e.Some? ==>
        && e.value.letter in {'e', 'E'} && e.value.sign in {"", "+", "-"} && e.value.digits != ""
        && AllDigits(e.value.digits)
  {
    if at < |s| && (s[at] == 'e' || s[at] == 'E') {
      var start := if at + 1 < |s| && (s[at + 1] == '+' || s[at + 1] == '-') then at + 2 else at + 1;
      DigitsRead(s, start, end);
      e := Some(Exponential(s[at], s[at + 1..start], s[start..end]));
      assert s[at..end] == [s[at]] + s[at + 1..start] + s[start..end];
      if start == at + 2 {
        assert s[at + 1..start] == [s[at + 1]];
      }
    } else {
      e := None;
    }
  }

  lemma Cuts(s: string, a: nat, b: nat, c: nat, n: nat)
    requires a <= b <= c <= n <= |s|
    ensures s[..n] == s[..a] + s[a..b] + s[b..c] + s[c..n]
  {
  }

  lemma NumberIsNumeral(s: string, n: nat) returns (numeral: Numeral)
    requires s != "" && NumberLength(s) == Some(n)
    ensures n <= |s| && IsNumeral(numeral) && NumeralText(numeral) == s[..n]
    ensures n < |s| ==> IsStopChar(s[n])
  {
    hide SomeDigits, Fraction, Exponent, IsStopChar, AllDigits;
    var sign := if s[0] == '-' then 1 else 0;
    var whole := SomeDigits(s, sign).value;
    var fraction := Fraction(s, whole).value;
    DigitsRead(s, sign, whole);
    var digits := FractionRead(s, whole, fraction);
    var e := ExponentRead(s, fraction, n);
    numeral := Numeral(s[0] == '-', s[sign..whole], digits, e);
    Cuts(s, sign, whole, fraction, n);
    assert s[..sign] == Minus(numeral);
    assert s[whole..fraction] == FractionText(numeral) && s[fraction..n] == ExponentText(numeral);
  }

  lemma {:induction false} StringEndOfPrefix(s: string, at: nat, n: nat)
    requires 1 <= at <= |s| && StringEnd(s, at) == Some(n)
    ensures at < n <= |s| && StringEnd(s[..n], at) == Some(n)
    decreases |s| - at
  {
    if !(s[at] == '"' && s[at - 1] != '\\') {
      StringEndOfPrefix(s, at + 1, n);
    }
  }

  lemma {:induction false} StringEndExtends(s: string, rest: string, at: nat)
    requires 1 <= at <= |s| && StringEnd(s, at).Some?
    ensures StringEnd(s + rest, at) == StringEnd(s, at)
    decreases |s| - at
  {
    if !(s[at] == '"' && s[at - 1] != '\\') {
      StringEndExtends(s, rest, at + 1);
    }
  }

  lemma SpecialRead(s: string, expected: string)
    requires SpecialLength(s, expected).Some?
    ensures |expected| <= |s| && s[..|expected|] == expected
    ensures |expected| < |s| ==> IsStopChar(s[|expected|])
  {
  }

  /** Whatever is scanned is a lexeme, and what needs something to stop it is followed by that. */
  lemma ScanIsLexeme(s: string, kind: Kind, n: nat)
    requires s != "" && Scan(s) == (kind, Some(n))
    ensures 0 < n <= |s| && IsLexeme(Token(kind, s[..n]))
    ensures NeedsStop(Token(kind, s[..n])) && n < |s| ==> IsStopChar(s[n])
  {
    hide NumberLength, StringEnd, IsStopChar;
    if kind == Number {
      var numeral := NumberIsNumeral(s, n);
    } else if kind == String {
      StringEndOfPrefix(s, 1, n);
    } else if kind == Special {
      SpecialRead(s, if s[0] == 't' then "true" else if s[0] == 'f' then "false" else "null");
    } else {
      assert s[..1] == [s[0]];
    }
  }

  lemma {:induction false} TokenizeGivesLexemes(s: string)
    requires Tokenize(s).Some?
    ensures AreLexemes(Tokenize(s).value)
    decreases |s|
  {
    hide Scan, IsLexeme, Spaces;
    match NextToken(s)
    case Got(token, rest) =>
      var t := s[Spaces(s)..];
      ScanIsLexeme(t, token.kind, |token.text|);
      TokenizeGivesLexemes(rest);
    case _ =>
  }

  lemma LexemeIsRead(t: Token, rest: string)
    requires IsLexeme(t) && (NeedsStop(t) ==> rest == "" || IsStopChar(rest[0]))
    ensures t.text != "" && !IsSpace(t.text[0]) && Scan(t.text + rest) == (t.kind, Some(|t.text|))
  {
    hide Scan, IsToken, StringEnd, IsStopChar;
    if t.kind == String {
      StringEndExtends(t.text, rest, 1);
      StringIsScanned(t.text + rest);
    } else {
      TokenIsRead(t, rest);
    }
  }

  lemma StringIsScanned(s: string)
    requires s != "" && s[0] == '"'
    ensures Scan(s) == (String, StringEnd(s, 1)) && !IsSpace('"')
  {
    hide NumberLength, StringEnd;
  }

  /** A lexeme in front of a text is the next token, unless it is not stopped. */
  lemma NextIsLexeme(t: Token, rest: string)
    requires IsLexeme(t) && (NeedsStop(t) ==> rest == "" || IsStopChar(rest[0]))
    ensures NextToken(t.text + rest) == Got(t, rest)
  {
    hide Scan, IsLexeme, IsStopChar, IsSpace;
    LexemeIsRead(t, rest);
    var s := t.text + rest;
    assert s[0] == t.text[0];
    SpacesAre("", s);
    assert "" + s == s && s[0..] == s;
    assert s[..|t.text|] == t.text && s[|t.text|..] == rest;
    TurnedIs(s, t.kind, |t.text|);
  }

  /** The characters numbers are made of. */
  predicate IsNumberChar(c: char) {
    IsDigit(c) || c in {'-', '+', '.', 'e', 'E'}
  }

  lemma LexemeStarts(t: Token)
    requires IsLexeme(t)
    ensures t.text != "" && !IsSpace(t.text[0]) && (IsStopChar(t.text[0]) <==> Stops(t))
    ensures IsNumberChar(t.text[0]) <==> t.kind == Number
  {
    match t.kind
    case Number =>
      var n :| IsNumeral(n) && t.text == NumeralText(n);
      NumeralStarts(n);
    case _ =>
  }

  /** The first characters of tokens side by side. */
  lemma JoinedStarts(tokens: seq<Token>)
    requires AreLexemes(tokens) && tokens != []
    ensures Joined(tokens) != "" && tokens[0].text != "" && Joined(tokens)[0] == tokens[0].text[0]
    ensures !IsSpace(Joined(tokens)[0])
  {
    hide IsLexeme, IsSpace;
    LexemeStarts(tokens[0]);
  }

  lemma {:induction false} LexemesAreRead(tokens: seq<Token>)
    requires AreLexemes(tokens) && Separated(tokens)
    ensures Tokenize(Joined(tokens)) == Some(tokens)
  {
    hide IsLexeme, IsStopChar, NextToken;
    if tokens == [] {
      OnlySpaces("");
    } else {
      if |tokens| > 1 {
        JoinedStarts(tokens[1..]);
        LexemeStarts(tokens[1]);
      }
      NextIsLexeme(tokens[0], Joined(tokens[1..]));
      LexemesAreRead(tokens[1..]);
      assert [tokens[0]] + tokens[1..] == tokens;
    }
  }

  /** What is behind the token that was read stops it. */
  lemma NextIsStopped(s: string, t: Token, rest: string)
    requires NextToken(s) == Got(t, rest) && NeedsStop(t)
    ensures rest == "" || IsStopChar(rest[0])
  {
    hide Scan, IsLexeme, IsStopChar, Spaces;
    var u := s[Spaces(s)..];
    ScanIsLexeme(u, t.kind, |t.text|);
    assert rest == u[|t.text|..];
  }

  /** When the first token of a normal form is read as itself, so is the rest after it. */
  lemma FirstIsItself(tokens: seq<Token>, rest: string)
    requires AreLexemes(tokens) && tokens != [] && NextToken(Joined(tokens)) == Got(tokens[0], rest)
    ensures rest == Joined(tokens[1..])
  {
    hide IsLexeme, IsSpace, Turned;
    var s := Joined(tokens);
    JoinedStarts(tokens);
    SpacesAre("", s);
    assert "" + s == s && s[0..] == s;
    TurnedSplits(s);
    assert s == tokens[0].text + rest == tokens[0].text + Joined(tokens[1..]);
    assert rest == s[|tokens[0].text|..] == Joined(tokens[1..]);
  }

  /** Exactly when the normal form reads as the same tokens: when every number and literal name is stopped. */
  lemma {:induction false} RetokenisedExactly(tokens: seq<Token>)
    requires AreLexemes(tokens)
    ensures Tokenize(Joined(tokens)) == Some(tokens) <==> Separated(tokens)
  {
    hide IsLexeme, IsStopChar, NextToken;
    if Separated(tokens) {
      LexemesAreRead(tokens);
    }
    if Tokenize(Joined(tokens)) == Some(tokens) && tokens != [] {
      var next := NextToken(Joined(tokens));
      assert next.Got? && [next.token] + Tokenize(next.rest).value == tokens;
      FirstIsItself(tokens, next.rest);
      assert tokens[1..] == Tokenize(next.rest).value;
      RetokenisedExactly(tokens[1..]);
      if |tokens| > 1 && NeedsStop(tokens[0]) {
        NextIsStopped(Joined(tokens), tokens[0], next.rest);
        JoinedStarts(tokens[1..]);
        LexemeStarts(tokens[1]);
      }
      assert forall i :: 1 <= i < |tokens| ==> tokens[i] == tokens[1..][i - 1];
    }
  }

  // --- When the normal form is accepted. ---

  /** Numbers side by side run together. */
  function Merge(tokens: seq<Token>): (r: seq<Token>)
    ensures tokens != [] ==> r != [] && r[0].kind == tokens[0].kind
    decreases |tokens|
  {
    if |tokens| < 2 then tokens
    else if tokens[0].kind == Number && tokens[1].kind == Number then
      Merge([Token(Number, tokens[0].text + tokens[1].text)] + tokens[2..])
    else [tokens[0]] + Merge(tokens[1..])
  }

  lemma {:induction false} MergeJoins(tokens: seq<Token>)
    ensures Joined(Merge(tokens)) == Joined(tokens)
    decreases |tokens|
  {
    if |tokens| >= 2 {
      if tokens[0].kind == Number && tokens[1].kind == Number {
        var t := Token(Number, tokens[0].text + tokens[1].text);
        MergeJoins([t] + tokens[2..]);
        assert ([t] + tokens[2..])[1..] == tokens[2..] == tokens[1..][1..];
        assert Joined(tokens) == tokens[0].text + (tokens[1].text + Joined(tokens[2..]));
      } else {
        MergeJoins(tokens[1..]);
        assert ([tokens[0]] + Merge(tokens[1..]))[1..] == Merge(tokens[1..]);
      }
    }
  }

  /** A lexeme, or numbers run together. */
  ghost predicate IsMerged(t: Token) {
    if t.kind == Number then t.text != "" && (IsDigit(t.text[0]) || t.text[0] == '-')
      && forall c <- t.text :: IsNumberChar(c)
    else IsLexeme(t)
  }

  ghost predicate AreMerged(tokens: seq<Token>) {
    && (forall i :: 0 <= i < |tokens| ==> IsMerged(tokens[i]))
    && (forall i :: 0 <= i < |tokens| - 1 ==> tokens[i].kind != Number || tokens[i + 1].kind != Number)
  }

  lemma NumeralChars(n: Numeral)
    requires IsNumeral(n)
    ensures forall c <- NumeralText(n) :: IsNumberChar(c)
  {
    assert forall c <- n.whole :: IsDigit(c);
    assert forall c <- n.fraction :: IsDigit(c);
    if n.exponent.Some? {
      assert forall c <- n.exponent.value.digits :: IsDigit(c);
    }
  }

  lemma LexemeIsMerged(t: Token)
    requires IsLexeme(t)
    ensures IsMerged(t)
  {
    if t.kind == Number {
      var n :| IsNumeral(n) && t.text == NumeralText(n);
      NumeralStarts(n);
      NumeralChars(n);
    }
  }

  lemma {:induction false} MergeMerges(tokens: seq<Token>)
    requires forall i :: 0 <= i < |tokens| ==> IsMerged(tokens[i])
    ensures AreMerged(Merge(tokens))
    decreases |tokens|
  {
    if |tokens| >= 2 {
      if tokens[0].kind == Number && tokens[1].kind == Number {
        var t := Token(Number, tokens[0].text + tokens[1].text);
        assert IsMerged(tokens[0]) && IsMerged(tokens[1]);
        MergeMerges([t] + tokens[2..]);
      } else {
        hide IsMerged;
        MergeMerges(tokens[1..]);
      }
    }
  }

  /** A run of numbers that is read at all is read as one number. */
  lemma NumbersAreRead(text: string, rest: string, n: nat)
    requires IsMerged(Token(Number, text)) && (rest != "" ==> !IsNumberChar(rest[0]))
    requires NumberLength(text + rest) == Some(n)
    ensures n == |text| && IsLexeme(Token(Number, text)) && (rest == "" || IsStopChar(rest[0]))
  {
    hide NumberLength;
    var s := text + rest;
    var numeral := NumberIsNumeral(s, n);
    NumeralChars(numeral);
    assert forall i :: 0 <= i < n ==> s[..n][i] in NumeralText(numeral) && IsNumberChar(s[i]);
    assert forall i :: 0 <= i < |text| ==> text[i] in text && s[i] == text[i];
    assert rest != "" ==> s[|text|] == rest[0];
    assert n == |text|;
    assert s[..n] == text;
  }

  lemma MergedIsRead(t: Token, rest: string)
    requires IsMerged(t) && (t.kind == Number && rest != "" ==> !IsNumberChar(rest[0]))
    requires !NextToken(t.text + rest).Abort?
    ensures IsLexeme(t) && NextToken(t.text + rest) == Got(t, rest)
    ensures (NeedsStop(t) ==> rest == "" || IsStopChar(rest[0]))
  {
    hide NumberLength, StringEnd, IsStopChar, SpecialLength;
    var s := t.text + rest;
    MergedStarts(t);
    assert s[0] == t.text[0];
    SpacesAre("", s);
    assert "" + s == s && s[0..] == s;
    if t.kind == Number {
      NumbersAreRead(t.text, rest, NumberLength(s).value);
    } else if t.kind == Special {
      SpecialRead(s, t.text);
      assert rest != "" ==> s[|t.text|] == rest[0];
    }
    NextIsLexeme(t, rest);
  }

  lemma MergedStarts(t: Token)
    requires IsMerged(t)
    ensures t.text != "" && !IsSpace(t.text[0]) && (IsNumberChar(t.text[0]) <==> t.kind == Number)
    ensures IsStopChar(t.text[0]) <==> Stops(t)
  {
    if t.kind != Number {
      LexemeStarts(t);
    }
  }

  lemma {:induction false} MergedAreRead(tokens: seq<Token>)
    requires AreMerged(tokens) && Tokenize(Joined(tokens)).Some?
    ensures AreLexemes(tokens) && Separated(tokens)
  {
    hide IsLexeme, IsMerged, IsStopChar, NextToken, IsNumberChar, IsSpace;
    if tokens != [] {
      var t, rest := tokens[0], Joined(tokens[1..]);
      if |tokens| > 1 {
        MergedStarts(tokens[1]);
        assert rest == tokens[1].text + Joined(tokens[1..][1..]);
        assert rest[0] == tokens[1].text[0];
      }
      MergedIsRead(t, rest);
      MergedAreRead(tokens[1..]);
      assert forall i :: 1 <= i < |tokens| ==> tokens[i] == tokens[1..][i - 1];
    }
  }

  /** Where two numbers may stand side by side, one may. */
  lemma {:induction false} FeedMerged(stack: seq<State>, tokens: seq<Token>)
    requires Feed(Writer, stack, tokens).Some?
    ensures Feed(Writer, stack, Merge(tokens)).Some?
    decreases |tokens|
  {
    if |tokens| >= 2 {
      var one := FeedOne(Writer, stack, tokens[0]).value;
      if tokens[0].kind == Number && tokens[1].kind == Number {
        var t := Token(Number, tokens[0].text + tokens[1].text);
        OutsideOnly(stack, tokens[0], tokens[1]);
        assert tokens[1..][1..] == tokens[2..] && ([t] + tokens[2..])[1..] == tokens[2..];
        assert FeedOne(Writer, stack, t).value.stack == stack;
        FeedMerged(stack, [t] + tokens[2..]);
      } else {
        FeedMerged(one.stack, tokens[1..]);
        assert ([tokens[0]] + Merge(tokens[1..]))[1..] == Merge(tokens[1..]);
      }
    }
  }

  lemma OutsideOnly(stack: seq<State>, a: Token, b: Token)
    requires a.kind == b.kind == Number && FeedOne(Writer, stack, a).Some?
    requires FeedOne(Writer, FeedOne(Writer, stack, a).value.stack, b).Some?
    ensures stack != [] && Top(stack) == Outside && FeedOne(Writer, stack, a).value.stack == stack
    ensures FeedOne(Writer, FeedOne(Writer, stack, a).value.stack, b).value.stack == stack
  {
    if Top(stack) == Outside {
      assert Replace(stack, Outside) == stack;
    }
  }

  /** Exactly when the normal form of an accepted text is accepted: when numbers side by side make up one number, and
      every number and literal name is stopped then. In that case normalising changes nothing more. */
  lemma NormalFormAcceptedExactly(json: string)
    requires Normalised(json).Some?
    ensures Tokenize(json).Some? && AreLexemes(Tokenize(json).value)
    ensures var tokens, normal := Tokenize(json).value, Normalised(json).value;
      && normal == Joined(tokens)
      && (Normalised(normal).Some? <==> AreLexemes(Merge(tokens)) && Separated(Merge(tokens)))
      && (Normalised(normal).Some? ==> Normalised(normal) == Some(normal) && Tokenize(normal) == Some(Merge(tokens)))
  {
    hide Feed, Pipe, Tokenize, IsLexeme, Merge, Separated;
    PipeNeedsTokens(Writer, [Outside], json);
    PipeIsFeed(Writer, [Outside], json);
    TokenizeGivesLexemes(json);
    var tokens, normal := Tokenize(json).value, Normalised(json).value;
    WriterWritesAll([Outside], tokens);
    FeedMerged([Outside], tokens);
    MergeJoins(tokens);
    forall i | 0 <= i < |tokens| ensures IsMerged(tokens[i]) {
      LexemeIsMerged(tokens[i]);
    }
    MergeMerges(tokens);
    PipeNeedsTokens(Writer, [Outside], normal);
    if Tokenize(normal).Some? {
      MergedAreRead(Merge(tokens));
    }
    if AreLexemes(Merge(tokens)) && Separated(Merge(tokens)) {
      LexemesAreRead(Merge(tokens));
      PipeIsFeed(Writer, [Outside], normal);
      WriterWritesAll([Outside], Merge(tokens));
    }
  }
}
