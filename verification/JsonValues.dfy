/** Exactly which of the texts that np1/json/parser.hpp accepts are JSON values. */
module JsonValues {
  import opened Wrappers
  import opened JsonTokenizer
  import opened Json
  import opened JsonParser
  import opened JsonProofs
  import opened JsonAccepted

  function Weight(t: Token): int {
    if t.kind in {OpenObject, OpenArray} then 1 else if t.kind in {CloseObject, CloseArray} then -1 else 0
  }

  /** How many containers are open after the tokens. */
  function Nest(tokens: seq<Token>): int {
    if tokens == [] then 0 else Weight(tokens[0]) + Nest(tokens[1..])
  }

  /** The last open container is closed by the last token, or there is one token and none was opened. */
  predicate BalancesAtEnd(tokens: seq<Token>) {
    tokens != [] && Nest(tokens) == 0 && forall k :: 0 < k < |tokens| ==> Nest(tokens[..k]) > 0
  }

  predicate IsClose(t: Token) {
    t.kind in {CloseObject, CloseArray}
  }

  predicate NoCommaBeforeClose(tokens: seq<Token>) {
    forall i :: 0 <= i < |tokens| - 1 && tokens[i].kind == ElementDelimiter ==> !IsClose(tokens[i + 1])
  }

  /** No string ends in an escaped backslash, or goes on behind one. */
  ghost predicate StringsReadable(tokens: seq<Token>) {
    forall i :: 0 <= i < |tokens| && tokens[i].kind == String ==> IsToken(tokens[i])
  }

  lemma {:induction false} NestConcat(a: seq<Token>, b: seq<Token>)
    ensures Nest(a + b) == Nest(a) + Nest(b)
  {
    if a == [] {
      assert a + b == b;
    } else {
      assert (a + b)[1..] == a[1..] + b;
      NestConcat(a[1..], b);
    }
  }

  // --- The tokens of a value. ---

  predicate Level(tokens: seq<Token>) {
    Nest(tokens) == 0 && forall k :: 0 <= k <= |tokens| ==> Nest(tokens[..k]) >= 0
  }

  /** Neither at its start nor at its end is there anything that could not stand next to a bracket. */
  predicate Tidy(tokens: seq<Token>) {
    && NoCommaBeforeClose(tokens)
    && (tokens != [] ==> !IsClose(tokens[0]) && tokens[|tokens| - 1].kind != ElementDelimiter)
  }

  lemma LevelConcat(a: seq<Token>, b: seq<Token>)
    requires Level(a) && Level(b)
    ensures Level(a + b)
  {
    NestConcat(a, b);
    forall k | 0 <= k <= |a + b| ensures Nest((a + b)[..k]) >= 0 {
      if k <= |a| {
        assert (a + b)[..k] == a[..k];
      } else {
        assert (a + b)[..k] == a + b[..k - |a|];
        NestConcat(a, b[..k - |a|]);
      }
    }
  }

  lemma BalancedIsLevel(tokens: seq<Token>)
    requires BalancesAtEnd(tokens)
    ensures Level(tokens)
  {
    assert tokens[..|tokens|] == tokens && tokens[..0] == [];
  }

  lemma NestOfOne(t: Token)
    ensures Nest([t]) == Weight(t)
  {
    assert [t][1..] == [];
  }

  lemma OneIsLevel(t: Token)
    requires Weight(t) == 0
    ensures Level([t]) && BalancesAtEnd([t])
  {
    NestOfOne(t);
    assert [t][..0] == [] && [t][..1] == [t];
  }

  lemma BracketsBalance(open: Token, inner: seq<Token>, close: Token)
    requires Weight(open) == 1 && Weight(close) == -1 && Level(inner)
    ensures BalancesAtEnd([open] + inner + [close])
  {
    var all := [open] + inner + [close];
    NestOfOne(open);
    NestOfOne(close);
    NestConcat([open] + inner, [close]);
    NestConcat([open], inner);
    forall k | 0 < k < |all| ensures Nest(all[..k]) > 0 {
      assert all[..k] == [open] + inner[..k - 1];
      NestConcat([open], inner[..k - 1]);
    }
  }

  /** A bracket before or behind what is tidy, and tidy parts with a comma between them. */
  lemma TidyConcat(a: seq<Token>, b: seq<Token>)
    requires NoCommaBeforeClose(a) && NoCommaBeforeClose(b)
    requires a != [] && b != [] && a[|a| - 1].kind == ElementDelimiter ==> !IsClose(b[0])
    ensures NoCommaBeforeClose(a + b)
  {
  }

  lemma OneIsTidy(t: Token)
    ensures NoCommaBeforeClose([t])
  {
  }

  lemma {:induction false} ValueShape(v: Value)
    ensures BalancesAtEnd(TokensOf(v)) && Tidy(TokensOf(v))
  {
    hide Level, BalancesAtEnd, NoCommaBeforeClose, Nest;
    match v
    case Array(items) =>
      ItemsShape(items);
      BracketsBalance(OPEN_ARRAY, ItemTokens(items), CLOSE_ARRAY);
      OneIsTidy(OPEN_ARRAY);
      OneIsTidy(CLOSE_ARRAY);
      TidyConcat([OPEN_ARRAY], ItemTokens(items));
      TidyConcat([OPEN_ARRAY] + ItemTokens(items), [CLOSE_ARRAY]);
    case Object(members) =>
      MembersShape(members);
      BracketsBalance(OPEN_OBJECT, MemberTokens(members), CLOSE_OBJECT);
      OneIsTidy(OPEN_OBJECT);
      OneIsTidy(CLOSE_OBJECT);
      TidyConcat([OPEN_OBJECT], MemberTokens(members));
      TidyConcat([OPEN_OBJECT] + MemberTokens(members), [CLOSE_OBJECT]);
    case _ =>
      OneIsLevel(TokensOf(v)[0]);
      OneIsTidy(TokensOf(v)[0]);
      assert TokensOf(v) == [TokensOf(v)[0]];
  }

  lemma CommaBetween(a: seq<Token>, b: seq<Token>)
    requires Level(a) && Tidy(a) && a != [] && Level(b) && Tidy(b) && b != []
    ensures Level(a + ([COMMA] + b)) && Tidy(a + ([COMMA] + b))
  {
    OneIsLevel(COMMA);
    LevelConcat([COMMA], b);
    LevelConcat(a, [COMMA] + b);
    TidyConcat([COMMA], b);
    TidyConcat(a, [COMMA] + b);
  }

  lemma {:induction false} ItemsShape(items: seq<Value>)
    ensures Level(ItemTokens(items)) && Tidy(ItemTokens(items)) && (items != [] ==> ItemTokens(items) != [])
  {
    hide Level, Tidy, TokensOf;
    if items == [] {
      EmptyShape();
    } else {
      ValueShape(items[0]);
      BalancedIsLevel(TokensOf(items[0]));
      if |items| == 1 {
        assert ItemTokens(items) == TokensOf(items[0]);
      } else {
        ItemsShape(items[1..]);
        CommaBetween(TokensOf(items[0]), ItemTokens(items[1..]));
      }
    }
  }

  lemma EmptyShape()
    ensures Level([]) && Tidy([])
  {
  }

  lemma {:induction false} MemberShape(m: Member)
    ensures Level(NamedTokens(m)) && Tidy(NamedTokens(m))
  {
    var name := Token(String, Quoted(m.name));
    ValueShape(m.value);
    BalancedIsLevel(TokensOf(m.value));
    OneIsLevel(name);
    OneIsLevel(COLON);
    LevelConcat([name], [COLON]);
    assert [name] + [COLON] == [name, COLON];
    LevelConcat([name, COLON], TokensOf(m.value));
    TidyConcat([name, COLON], TokensOf(m.value));
  }

  lemma {:induction false} MembersShape(members: seq<Member>)
    ensures Level(MemberTokens(members)) && Tidy(MemberTokens(members))
    ensures (members != [] ==> MemberTokens(members) != [])
  {
    hide Level, Tidy, TokensOf;
    if members == [] {
      EmptyShape();
    } else {
      MemberShape(members[0]);
      if |members| == 1 {
        assert MemberTokens(members) == NamedTokens(members[0]);
      } else {
        MembersShape(members[1..]);
        CommaBetween(NamedTokens(members[0]), MemberTokens(members[1..]));
      }
    }
  }

  // --- A value from tokens. ---

  /** Tokens that are accepted from a stack, and close more than they open by `low` at their `k`-th. */
  ghost predicate Closing(stack: seq<State>, tokens: seq<Token>, k: int, low: int) {
    && stack != [] && Feed(Writer, stack, tokens).Some? && AreTokens(tokens) && NoCommaBeforeClose(tokens)
    && 0 <= k <= |tokens| && Nest(tokens[..k]) <= low
  }

  lemma FirstStep(stack: seq<State>, tokens: seq<Token>, k: int, low: int)
    requires Closing(stack, tokens, k, low) && (low < 0 || k > 0)
    ensures 0 < k && tokens != [] && IsToken(tokens[0]) && Step(stack, tokens[0]).Some?
    ensures Feed(Writer, Step(stack, tokens[0]).value.0, tokens[1..]).Some?
    ensures NestAfterOne(tokens, k)
  {
    hide Step, IsToken;
    assert tokens[..0] == [];
    if k == 0 {
      assert false;
    }
    assert tokens[..k][1..] == tokens[1..][..k - 1];
  }

  lemma ClosingShape(stack: seq<State>, tokens: seq<Token>, k: int, low: int)
    requires Closing(stack, tokens, k, low)
    ensures stack != [] && 0 <= k <= |tokens|
  {
  }

  lemma NothingWellFormed()
    ensures WellFormed(Array([])) && WellFormed(Object([]))
  {
  }

  predicate NestAfterOne(tokens: seq<Token>, k: int)
    requires 0 < k <= |tokens|
  {
    Nest(tokens[..k]) == Weight(tokens[0]) + Nest(tokens[1..][..k - 1])
  }

  lemma PrefixOfLevel(tokens: seq<Token>, n: nat, k: int)
    requires 0 <= k <= n <= |tokens| && Level(tokens[..n])
    ensures Nest(tokens[..k]) >= 0
  {
    assert tokens[..n][..k] == tokens[..k];
  }

  /** What is left after `n` tokens that balance. */
  lemma Behind(stack: seq<State>, tokens: seq<Token>, k: int, low: int, n: nat, stack': seq<State>)
    requires Closing(stack, tokens, k, low) && low < 0 && n <= |tokens| && Level(tokens[..n])
    requires stack' != [] && Feed(Writer, stack', tokens[n..]).Some?
    ensures n < k && Closing(stack', tokens[n..], k - n, low)
  {
    hide IsToken, Feed;
    if k <= n {
      PrefixOfLevel(tokens, n, k);
      assert false;
    }
    assert tokens[..k] == tokens[..n] + tokens[n..][..k - n];
    NestConcat(tokens[..n], tokens[n..][..k - n]);
  }

  /** A token that starts a value, and the stack in front of what follows it. */
  lemma OneTokenValue(t: Token) returns (v: Value)
    requires IsToken(t) && t.kind in {Number, String, Special}
    ensures WellFormed(v) && TokensOf(v) == [t]
  {
    if t.kind == Number {
      var n :| IsNumeral(n) && t.text == NumeralText(n);
      v := Num(n);
    } else if t.kind == String {
      var body :| IsReadable(body) && t.text == Quoted(body);
      v := Str(body);
    } else {
      v := if t.text == "true" then True else if t.text == "false" then False else Null;
    }
  }

  lemma {:induction false} ParseValue(stack: seq<State>, tokens: seq<Token>, k: nat) returns (v: Value, n: nat)
    requires Closing(stack, tokens, k, 0) && k > 0 && AfterValue(Top(stack)).Some? && !IsClose(tokens[0])
    ensures n <= |tokens| && WellFormed(v) && tokens[..n] == TokensOf(v)
    ensures Feed(Writer, Replace(stack, AfterValue(Top(stack)).value), tokens[n..]).Some?
    decreases |tokens|, 0
  {
    hide IsToken, Feed, Nest, NoCommaBeforeClose, Quoted, TokensOf, WellFormed;
    FirstStep(stack, tokens, k, 0);
    var t, base := tokens[0], Replace(stack, AfterValue(Top(stack)).value);
    ValueStep(stack, t);
    if t.kind == OpenArray {
      Inside(stack, tokens, k, base + [InArrayBeforeValue]);
      var items, m := ParseItems(base + [InArrayBeforeValue], tokens[1..], k - 1, true);
      v, n := Array(items), m + 1;
      ArrayTokens(t, tokens, items, m);
      assert (base + [InArrayBeforeValue])[..|base|] == base && tokens[1..][m..] == tokens[n..];
    } else if t.kind == OpenObject {
      Inside(stack, tokens, k, base + [InObjectBeforeKey]);
      var members, m := ParseMembers(base + [InObjectBeforeKey], tokens[1..], k - 1, true);
      v, n := Object(members), m + 1;
      ObjectTokens(t, tokens, members, m);
      assert (base + [InObjectBeforeKey])[..|base|] == base && tokens[1..][m..] == tokens[n..];
    } else {
      v := OneTokenValue(t);
      n := 1;
      assert tokens[..1] == [t];
    }
  }

  lemma ValueStep(stack: seq<State>, t: Token)
    requires stack != [] && AfterValue(Top(stack)).Some? && Step(stack, t).Some? && !IsClose(t)
    ensures t.kind in {Number, String, Special, OpenArray, OpenObject}
    ensures var base := Replace(stack, AfterValue(Top(stack)).value);
      Step(stack, t).value.0 == base + if t.kind == OpenArray then [InArrayBeforeValue] else if t.kind == OpenObject
        then [InObjectBeforeKey] else []
  {
  }

  lemma Inside(stack: seq<State>, tokens: seq<Token>, k: nat, inner: seq<State>)
    requires Closing(stack, tokens, k, 0) && k > 0 && Weight(tokens[0]) == 1
    requires inner != [] && Feed(Writer, inner, tokens[1..]).Some?
    ensures Closing(inner, tokens[1..], k - 1, -1)
  {
    hide IsToken, Feed;
    assert tokens[..k][1..] == tokens[1..][..k - 1];
  }

  lemma {:induction false} ArrayTokens(t: Token, tokens: seq<Token>, items: seq<Value>, m: nat)
    requires tokens != [] && t == tokens[0] && IsToken(t) && t.kind == OpenArray && m < |tokens|
    requires tokens[1..][..m] == ItemTokens(items) + [CLOSE_ARRAY] && WellFormed(Array(items))
    ensures tokens[..m + 1] == TokensOf(Array(items))
  {
    assert tokens[..m + 1] == [t] + tokens[1..][..m];
  }

  lemma {:induction false} ObjectTokens(t: Token, tokens: seq<Token>, members: seq<Member>, m: nat)
    requires tokens != [] && t == tokens[0] && IsToken(t) && t.kind == OpenObject && m < |tokens|
    requires tokens[1..][..m] == MemberTokens(members) + [CLOSE_OBJECT] && WellFormed(Object(members))
    ensures tokens[..m + 1] == TokensOf(Object(members))
  {
    assert tokens[..m + 1] == [t] + tokens[1..][..m];
  }

  /** The items of an array up to its closing bracket; behind a comma there is one. */
  lemma {:induction false} ParseItems(stack: seq<State>, tokens: seq<Token>, k: nat, first: bool)
    returns (items: seq<Value>, m: nat)
    requires Closing(stack, tokens, k, -1) && Top(stack) == InArrayBeforeValue
    requires !first ==> tokens != [] && !IsClose(tokens[0])
    ensures m <= |tokens| && tokens[..m] == ItemTokens(items) + [CLOSE_ARRAY] && WellFormed(Array(items))
    ensures Feed(Writer, stack[..|stack| - 1], tokens[m..]).Some? && (!first ==> items != [])
    decreases |tokens|, 1
  {
    hide IsToken, Feed, Nest, NoCommaBeforeClose, TokensOf, Level, Step, WellFormed, Closing;
    FirstStep(stack, tokens, k, -1);
    ClosingShape(stack, tokens, k, -1);
    NothingWellFormed();
    if IsClose(tokens[0]) {
      CloseStep(stack, tokens[0]);
      items, m := [], 1;
      assert tokens[..1] == [tokens[0]] && ItemTokens([]) + [CLOSE_ARRAY] == [CLOSE_ARRAY];
    } else {
      Lower(stack, tokens, k);
      var v, n := ParseValue(stack, tokens, k);
      ValueShape(v);
      BalancedIsLevel(TokensOf(v));
      var rest := tokens[n..];
      BehindPart(stack, tokens, k, n, true);
      if IsClose(rest[0]) {
        items, m := [v], n + 1;
        CutBehind(tokens, n, 0);
        OneItem(v);
      } else {
        var more, l := ParseItems(stack, rest[1..], k - n - 1, false);
        items, m := [v] + more, n + 1 + l;
        CutBehind(tokens, n, l);
        MoreItems(v, more);
      }
    }
  }

  /** Cut behind `n` tokens, the one after them and `l` more. */
  lemma CutBehind(tokens: seq<Token>, n: nat, l: nat)
    requires n + 1 + l <= |tokens|
    ensures tokens[..n + 1 + l] == tokens[..n] + ([tokens[n..][0]] + tokens[n..][1..][..l])
    ensures tokens[n + 1 + l..] == tokens[n..][1..][l..]
    ensures l == 0 ==> tokens[..n + 1 + l] == tokens[..n] + [tokens[n..][0]] && tokens[n + 1 + l..] == tokens[n..][1..]
  {
  }

  lemma {:induction false} OneItem(v: Value)
    requires WellFormed(v)
    ensures ItemTokens([v]) == TokensOf(v) && WellFormed(Array([v]))
  {
  }

  lemma {:induction false} MoreItems(v: Value, more: seq<Value>)
    requires WellFormed(v) && WellFormed(Array(more)) && more != []
    ensures ItemTokens([v] + more) == TokensOf(v) + ([COMMA] + ItemTokens(more)) && WellFormed(Array([v] + more))
  {
    assert ([v] + more)[1..] == more;
  }

  lemma CloseStep(stack: seq<State>, t: Token)
    requires stack != [] && IsToken(t) && IsClose(t) && Step(stack, t).Some?
    ensures Step(stack, t).value.0 == stack[..|stack| - 1]
    ensures t == if Top(stack) in {InArrayBeforeValue, InArrayAfterValue} then CLOSE_ARRAY else CLOSE_OBJECT
  {
  }

  /** Behind a value of a container there is a comma or the closing bracket. */
  lemma MarkOrClose(stack: seq<State>, t: Token)
    requires stack != [] && IsToken(t) && Top(stack) in {InArrayAfterValue, InObjectAfterValue} && Step(stack, t).Some?
    ensures var isArray := Top(stack) == InArrayAfterValue;
      if IsClose(t) then t == (if isArray then CLOSE_ARRAY else CLOSE_OBJECT)
        && Step(stack, t).value.0 == stack[..|stack| - 1]
      else t == COMMA && Step(stack, t).value.0 == Replace(stack, if isArray then InArrayBeforeValue
        else InObjectBeforeKey)
  {
  }

  /** Behind a comma there is something else than a closing bracket. */
  lemma AfterComma(stack: seq<State>, tokens: seq<Token>, k: nat, next: seq<State>)
    requires Closing(stack, tokens, k, -1) && tokens != [] && tokens[0] == COMMA && next != []
    requires Feed(Writer, next, tokens[1..]).Some?
    ensures k > 1 && Closing(next, tokens[1..], k - 1, -1) && tokens[1..] != [] && !IsClose(tokens[1..][0])
  {
    hide IsToken, Feed, Nest;
    OneBehind(stack, tokens, k, next);
    assert tokens[0].kind == ElementDelimiter;
  }

  ghost predicate ClosingBehindComma(stack: seq<State>, tokens: seq<Token>, k: int) {
    Closing(stack, tokens, k, -1) && tokens != [] && !IsClose(tokens[0])
  }

  /** Behind an item or a member: the closing bracket, or a comma and what is accepted behind it. */
  lemma BehindPart(stack: seq<State>, tokens: seq<Token>, k: nat, n: nat, isArray: bool)
    requires Closing(stack, tokens, k, -1) && Top(stack) == Before(isArray) && n <= |tokens| && Level(tokens[..n])
    requires Feed(Writer, Replace(stack, After(isArray)), tokens[n..]).Some?
    ensures var rest := tokens[n..];
      && n < k && rest != []
      && if IsClose(rest[0]) then rest[0] == CloseToken(isArray) && Feed(Writer, stack[..|stack| - 1], rest[1..]).Some?
         else rest[0] == COMMA && k - n > 1 && ClosingBehindComma(stack, rest[1..], k - n - 1)
  {
    hide IsToken, Feed, Nest, NoCommaBeforeClose, Level, Step, Closing;
    ClosingShape(stack, tokens, k, -1);
    var rest, after := tokens[n..], Replace(stack, After(isArray));
    Behind(stack, tokens, k, -1, n, after);
    FirstStep(after, rest, k - n, -1);
    MarkOrClose(after, rest[0]);
    assert after[..|after| - 1] == stack[..|stack| - 1];
    if !IsClose(rest[0]) {
      assert Replace(after, Before(isArray)) == stack;
      AfterComma(after, rest, k - n, stack);
    }
  }

  /** A name, a colon and a value. */
  lemma {:induction false} ParseMember(stack: seq<State>, tokens: seq<Token>, k: nat) returns (m: Member, n: nat)
    requires Closing(stack, tokens, k, -1) && Top(stack) == InObjectBeforeKey && tokens != [] && !IsClose(tokens[0])
    ensures n <= |tokens| && tokens[..n] == NamedTokens(m) && IsReadable(m.name) && WellFormed(m.value)
    ensures Feed(Writer, Replace(stack, InObjectAfterValue), tokens[n..]).Some?
    decreases |tokens|, 1
  {
    hide IsToken, Feed, Nest, NoCommaBeforeClose, TokensOf, Level, Closing, WellFormed, Quoted;
    FirstStep(stack, tokens, k, -1);
    var name := NameStep(stack, tokens[0]);
    var s1, rest1 := Replace(stack, InObjectAfterKey), tokens[1..];
    OneBehind(stack, tokens, k, s1);
    FirstStep(s1, rest1, k - 1, -1);
    ColonStep(s1, rest1[0]);
    var s2, rest2 := Replace(stack, InObjectBeforeValue), rest1[1..];
    assert Replace(s1, InObjectBeforeValue) == s2;
    OneBehind(s1, rest1, k - 1, s2);
    FirstStep(s2, rest2, k - 2, -1);
    ColonStep(s2, rest2[0]);
    Lower(s2, rest2, k - 2);
    var v, l := ParseValue(s2, rest2, k - 2);
    m, n := Member(name, v), l + 2;
    assert tokens[..n] == [tokens[0], rest1[0]] + rest2[..l] && tokens[n..] == rest2[l..];
    assert Replace(s2, InObjectAfterValue) == Replace(stack, InObjectAfterValue);
  }

  lemma NameStep(stack: seq<State>, t: Token) returns (name: string)
    requires stack != [] && IsToken(t) && Top(stack) == InObjectBeforeKey && !IsClose(t) && Step(stack, t).Some?
    ensures t == Token(String, Quoted(name)) && IsReadable(name)
    ensures Step(stack, t).value.0 == Replace(stack, InObjectAfterKey)
  {
    name :| IsReadable(name) && t.text == Quoted(name);
  }

  lemma ColonStep(stack: seq<State>, t: Token)
    requires stack != [] && IsToken(t) && Step(stack, t).Some?
    ensures Top(stack) == InObjectAfterKey
        ==> t == COLON && Step(stack, t).value.0 == Replace(stack, InObjectBeforeValue)
    ensures Top(stack) == InObjectBeforeValue ==> !IsClose(t)
  {
  }

  lemma OneBehind(stack: seq<State>, tokens: seq<Token>, k: nat, stack': seq<State>)
    requires Closing(stack, tokens, k, -1) && tokens != [] && Weight(tokens[0]) == 0
    requires stack' != [] && Feed(Writer, stack', tokens[1..]).Some?
    ensures 1 < k && Closing(stack', tokens[1..], k - 1, -1)
  {
    hide IsToken, Feed;
    OneIsLevel(tokens[0]);
    assert tokens[..1] == [tokens[0]];
    Behind(stack, tokens, k, -1, 1, stack');
    assert tokens[1..][..0] == [];
  }

  lemma Lower(stack: seq<State>, tokens: seq<Token>, k: nat)
    requires Closing(stack, tokens, k, -1)
    ensures Closing(stack, tokens, k, 0)
  {
  }

  /** The members of an object up to its closing bracket; behind a comma there is one. */
  lemma {:induction false} ParseMembers(stack: seq<State>, tokens: seq<Token>, k: nat, first: bool)
    returns (members: seq<Member>, m: nat)
    requires Closing(stack, tokens, k, -1) && Top(stack) == InObjectBeforeKey
    requires !first ==> tokens != [] && !IsClose(tokens[0])
    ensures m <= |tokens| && tokens[..m] == MemberTokens(members) + [CLOSE_OBJECT] && WellFormed(Object(members))
    ensures Feed(Writer, stack[..|stack| - 1], tokens[m..]).Some? && (!first ==> members != [])
    decreases |tokens|, 2
  {
    hide IsToken, Feed, Nest, NoCommaBeforeClose, NamedTokens, Level, Step, WellFormed, Closing, IsReadable, Tidy,
        Weight;
    FirstStep(stack, tokens, k, -1);
    ClosingShape(stack, tokens, k, -1);
    NothingWellFormed();
    if IsClose(tokens[0]) {
      CloseStep(stack, tokens[0]);
      members, m := [], 1;
      assert tokens[..1] == [tokens[0]] && MemberTokens([]) + [CLOSE_OBJECT] == [CLOSE_OBJECT];
    } else {
      var member, n := ParseMember(stack, tokens, k);
      MemberShape(member);
      var rest := tokens[n..];
      BehindPart(stack, tokens, k, n, false);
      if IsClose(rest[0]) {
        members, m := [member], n + 1;
        CutBehind(tokens, n, 0);
        OneMemberTokens(member);
      } else {
        var more, l := ParseMembers(stack, rest[1..], k - n - 1, false);
        members, m := [member] + more, n + 1 + l;
        CutBehind(tokens, n, l);
        MoreMembers(member, more);
      }
    }
  }

  lemma {:induction false} OneMemberTokens(m: Member)
    requires IsReadable(m.name) && WellFormed(m.value)
    ensures MemberTokens([m]) == NamedTokens(m) && WellFormed(Object([m]))
  {
    hide IsReadable, TokensOf;
  }

  lemma {:induction false} MoreMembers(m: Member, more: seq<Member>)
    requires IsReadable(m.name) && WellFormed(m.value) && WellFormed(Object(more)) && more != []
    ensures MemberTokens([m] + more) == NamedTokens(m) + ([COMMA] + MemberTokens(more))
    ensures WellFormed(Object([m] + more))
  {
    assert ([m] + more)[1..] == more;
  }

  // --- The result. ---

  ghost predicate IsValue(tokens: seq<Token>) {
    exists v :: WellFormed(v) && tokens == TokensOf(v)
  }

  lemma ValueFromTokens(tokens: seq<Token>)
    requires Feed(Writer, [Outside], tokens).Some? && AreTokens(tokens) && BalancesAtEnd(tokens)
    requires NoCommaBeforeClose(tokens)
    ensures IsValue(tokens)
  {
    hide AreTokens, Feed, TokensOf, WellFormed, NoCommaBeforeClose;
    OutsideNotClose(tokens);
    assert tokens[..|tokens|] == tokens;
    var v, n := ParseValue([Outside], tokens, |tokens|);
    ValueShape(v);
    assert n == |tokens|;
    assert WellFormed(v) && tokens == TokensOf(v);
  }

  lemma {:induction false} OutsideNotClose(tokens: seq<Token>)
    requires Feed(Writer, [Outside], tokens).Some? && tokens != []
    ensures !IsClose(tokens[0])
  {
    assert Step([Outside], tokens[0]).Some?;
  }

  /** Exactly when an accepted text is a JSON value: its brackets balance first at its end, no comma stands before a
      closing bracket, and every string ends where the grammar says it does. */
  lemma AcceptedIsValueExactly(json: string)
    requires Normalised(json).Some?
    ensures Tokenize(json).Some?
    ensures var tokens := Tokenize(json).value;
      IsValue(tokens) <==> BalancesAtEnd(tokens) && NoCommaBeforeClose(tokens) && StringsReadable(tokens)
  {
    hide Feed, Pipe, Tokenize, TokensOf, WellFormed, IsToken, IsLexeme, BalancesAtEnd;
    PipeNeedsTokens(Writer, [Outside], json);
    PipeIsFeed(Writer, [Outside], json);
    TokenizeGivesLexemes(json);
    var tokens := Tokenize(json).value;
    if BalancesAtEnd(tokens) && NoCommaBeforeClose(tokens) && StringsReadable(tokens) {
      ReadableLexemes(tokens);
      ValueFromTokens(tokens);
    }
    if IsValue(tokens) {
      var v :| WellFormed(v) && tokens == TokensOf(v);
      ValueShape(v);
      TokensAreGood(v);
    }
  }

  lemma ReadableLexemes(tokens: seq<Token>)
    requires AreLexemes(tokens) && StringsReadable(tokens)
    ensures AreTokens(tokens)
  {
    hide IsToken;
  }

  // --- What is accepted though it is no value: an array that is never closed, a comma before the bracket, and a string
  // that goes on behind an escaped backslash. ---

  lemma FeedOn(stack: seq<State>, t: Token, next: seq<State>, kind: EventKind, rest: seq<Token>)
    requires Step(stack, t) == Some((next, kind)) && Feed(Writer, next, rest).Some?
    ensures Feed(Writer, stack, [t] + rest).Some?
  {
    assert ([t] + rest)[1..] == rest;
  }

  lemma FeedNothing(stack: seq<State>)
    ensures Feed(Writer, stack, []).Some?
  {
  }

  lemma AcceptedFromTokens(tokens: seq<Token>)
    requires AreLexemes(tokens) && Separated(tokens) && Feed(Writer, [Outside], tokens).Some?
    ensures Normalised(Joined(tokens)) == Some(Joined(tokens)) && Tokenize(Joined(tokens)) == Some(tokens)
  {
    hide IsLexeme, Feed, Pipe;
    LexemesAreRead(tokens);
    PipeIsFeed(Writer, [Outside], Joined(tokens));
    WriterWritesAll([Outside], tokens);
  }

  lemma UnclosedIsAccepted()
    ensures Normalised("[") == Some("[") && !IsValue([OPEN_ARRAY])
  {
    hide Feed, Pipe, IsValue;
    FeedNothing([Outside, InArrayBeforeValue]);
    assert Replace([Outside], Outside) + [InArrayBeforeValue] == [Outside, InArrayBeforeValue];
    FeedOn([Outside], OPEN_ARRAY, [Outside, InArrayBeforeValue], OnOpenArray, []);
    assert [OPEN_ARRAY] + [] == [OPEN_ARRAY];
    JoinedOne(OPEN_ARRAY);
    AcceptedFromTokens([OPEN_ARRAY]);
    AcceptedIsValueExactly("[");
    NestOfOne(OPEN_ARRAY);
  }

  lemma CommaBeforeBracketIsAccepted()
    ensures var tokens := [OPEN_ARRAY, Token(Number, "1"), COMMA, CLOSE_ARRAY];
      Normalised("[1,]") == Some("[1,]") && Tokenize("[1,]") == Some(tokens) && !IsValue(tokens)
  {
    hide Feed, Pipe, IsValue, Tokenize, Step;
    var one := Token(Number, "1");
    var tokens := [OPEN_ARRAY, one, COMMA, CLOSE_ARRAY];
    var before, after := [Outside, InArrayBeforeValue], [Outside, InArrayAfterValue];
    FeedNothing([Outside]);
    StepsInArray(one);
    FeedOn(before, CLOSE_ARRAY, [Outside], OnCloseArray, []);
    FeedOn(after, COMMA, before, OnDelimiter, [CLOSE_ARRAY] + []);
    FeedOn(before, one, after, OnNumber, [COMMA] + ([CLOSE_ARRAY] + []));
    FeedOn([Outside], OPEN_ARRAY, before, OnOpenArray, [one] + ([COMMA] + ([CLOSE_ARRAY] + [])));
    assert [OPEN_ARRAY] + ([one] + ([COMMA] + ([CLOSE_ARRAY] + []))) == tokens;
    OneIsLexeme(one);
    assert Joined(tokens) == "[1,]" by { JoinedFour(OPEN_ARRAY, one, COMMA, CLOSE_ARRAY); }
    AcceptedFromTokens(tokens);
    AcceptedIsValueExactly("[1,]");
    assert tokens[2].kind == ElementDelimiter && IsClose(tokens[3]);
  }

  lemma StepsInArray(one: Token)
    requires one.kind == Number
    ensures Step([Outside, InArrayBeforeValue], CLOSE_ARRAY) == Some(([Outside], OnCloseArray))
    ensures Step([Outside, InArrayAfterValue], COMMA) == Some(([Outside, InArrayBeforeValue], EventKind.OnDelimiter))
    ensures Step([Outside, InArrayBeforeValue], one) == Some(([Outside, InArrayAfterValue], EventKind.OnNumber))
    ensures Step([Outside], OPEN_ARRAY) == Some(([Outside, InArrayBeforeValue], OnOpenArray))
  {
    hide StepFrom;
    var before, after := [Outside, InArrayBeforeValue], [Outside, InArrayAfterValue];
    assert Replace([Outside], Outside) + [InArrayBeforeValue] == before && before[..1] == [Outside];
    assert Replace(after, InArrayBeforeValue) == before && Replace(before, InArrayAfterValue) == after;
    ArraySteps(before);
    ArraySteps(after);
    OpenStep([Outside]);
  }

  lemma ArraySteps(stack: seq<State>)
    requires stack != [] && Top(stack) in {InArrayBeforeValue, InArrayAfterValue}
    ensures StepFrom(stack, Top(stack), CloseArray) == Some((stack[..|stack| - 1], OnCloseArray))
    ensures Top(stack) == InArrayBeforeValue ==>
      StepFrom(stack, Top(stack), Number) == Some((Replace(stack, InArrayAfterValue), EventKind.OnNumber))
    ensures Top(stack) == InArrayAfterValue ==>
      StepFrom(stack, Top(stack), ElementDelimiter) == Some((Replace(stack, InArrayBeforeValue), EventKind.OnDelimiter))
  {
    hide Replace;
  }

  lemma OpenStep(stack: seq<State>)
    requires stack != [] && |stack| < MAX_DEPTH && Top(stack) == Outside
    ensures StepFrom(stack, Top(stack), OpenArray) == Some((Replace(stack, Outside) + [InArrayBeforeValue],
        OnOpenArray))
  {
    hide Replace;
  }

  lemma OneIsLexeme(one: Token)
    requires one == Token(Number, "1")
    ensures IsLexeme(one)
  {
    NumeralsAre();
  }

  lemma JoinedFour(a: Token, b: Token, c: Token, d: Token)
    ensures Joined([a, b, c, d]) == a.text + b.text + c.text + d.text
  {
    JoinedOne(d);
    assert [a, b, c, d][1..] == [b, c, d] && [b, c, d][1..] == [c, d] && [c, d][1..] == [d];
    assert Joined([c, d]) == c.text + d.text && Joined([b, c, d]) == b.text + (c.text + d.text);
  }

  /** A quote, two backslashes, a quote, a space, an `a` and a quote. */
  const GOES_ON: string := "\"\\\\\" a\""

  lemma StringGoesOnIsAccepted()
    ensures var t := Token(String, GOES_ON);
      Normalised(GOES_ON) == Some(GOES_ON) && Tokenize(GOES_ON) == Some([t]) && !IsValue([t])
  {
    hide Feed, Pipe, IsValue, Tokenize;
    var t := Token(String, GOES_ON);
    FeedNothing([Outside]);
    assert Replace([Outside], Outside) == [Outside];
    FeedOn([Outside], t, [Outside], OnString, []);
    assert [t] + [] == [t];
    GoesOnIsLexeme();
    JoinedOne(t);
    AcceptedFromTokens([t]);
    AcceptedIsValueExactly(GOES_ON);
    assert [t][0] == t;
  }

  lemma GoesOnIsLexeme()
    ensures IsLexeme(Token(String, GOES_ON)) && !IsToken(Token(String, GOES_ON))
  {
    var s := GOES_ON;
    assert |s| == 7 && s[0] == '"' && s[1] == '\\' && s[2] == '\\' && s[3] == '"' && s[4] == ' ' && s[5] == 'a'
        && s[6] == '"';
    PassOver(s, 1, 6);
    forall body | s == Quoted(body) ensures !IsReadable(body) {
      assert body == s[1..6];
      NotABody(body);
    }
  }

  lemma NotABody(body: string)
    requires |body| > 2 && body[0] == '\\' && body[2] == '"'
    ensures !IsReadable(body)
  {
    assert body[2..][0] == '"';
    assert !IsBody(body[2..]);
  }
}
