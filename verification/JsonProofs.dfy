/** What np1/json/parser.hpp makes of texts that are JSON values in any layout. */
module JsonProofs {
  import opened Wrappers
  import opened JsonTokenizer
  import opened Json
  import opened JsonParser

  lemma {:induction false} PipeIsFeed(next: Next, stack: seq<State>, s: string)
    requires Tokenize(s).Some?
    ensures Pipe(next, stack, s) ==
      match Feed(next, stack, Tokenize(s).value) { case None => None case Some(fed) => Some(fed.out) }
    decreases |s|
  {
    hide NextToken, FeedOne;
    match NextToken(s)
    case End =>
    case Got(t, rest) =>
      var tokens := Tokenize(s).value;
      assert tokens[0] == t && tokens[1..] == Tokenize(rest).value;
      var one := FeedOne(next, stack, t);
      if one.Some? {
        PipeIsFeed(one.value.next, one.value.stack, rest);
      }
  }

  lemma {:induction false} PipeNeedsTokens(next: Next, stack: seq<State>, s: string)
    ensures Pipe(next, stack, s).Some? ==> Tokenize(s).Some?
    decreases |s|
  {
    hide NextToken, FeedOne;
    match NextToken(s)
    case Got(t, rest) =>
      var one := FeedOne(next, stack, t);
      if one.Some? {
        PipeNeedsTokens(one.value.next, one.value.stack, rest);
      }
    case _ =>
  }

  lemma {:induction false} FeedConcat(next: Next, stack: seq<State>, a: seq<Token>, b: seq<Token>)
    ensures Feed(next, stack, a + b) == Then(Feed(next, stack, a), b)
    decreases |a|
  {
    hide FeedOne;
    if a == [] {
      assert a + b == b;
      var all := Feed(next, stack, b);
      assert all.Some? ==> "" + all.value.out == all.value.out;
    } else {
      assert (a + b)[1..] == a[1..] + b;
      var one := FeedOne(next, stack, a[0]);
      if one.Some? {
        FeedConcat(one.value.next, one.value.stack, a[1..], b);
        var first := Feed(one.value.next, one.value.stack, a[1..]);
        if first.Some? {
          var second := Feed(first.value.next, first.value.stack, b);
          if second.Some? {
            assert one.value.out + (first.value.out + second.value.out)
                == one.value.out + first.value.out + second.value.out;
          }
        }
      }
    }
  }

  /** Go on from where a run ended. */
  function Then(fed: Option<Fed>, tokens: seq<Token>): (r: Option<Fed>) {
    var first :- fed;
    var rest :- Feed(first.next, first.stack, tokens);
    Some(rest.(out := first.out + rest.out))
  }

  lemma FeedSingle(next: Next, stack: seq<State>, t: Token)
    ensures Feed(next, stack, [t]) == FeedOne(next, stack, t)
  {
    hide FeedOne;
    var one := FeedOne(next, stack, t);
    if one.Some? {
      assert Feed(one.value.next, one.value.stack, [t][1..]) == Some(Fed(one.value.next, one.value.stack, ""));
      assert one.value.out + "" == one.value.out;
    }
  }

  /** How deep containers are nested. */
  function Depth(v: Value): nat {
    match v
    case Array(items) => 1 + ItemsDepth(items)
    case Object(members) => 1 + MembersDepth(members)
    case _ => 0
  }

  function Max(a: nat, b: nat): nat {
    if a < b then b else a
  }

  function ItemsDepth(items: seq<Value>): nat {
    if items == [] then 0 else Max(Depth(items[0]), ItemsDepth(items[1..]))
  }

  function MembersDepth(members: seq<Member>): nat {
    if members == [] then 0 else Max(Depth(members[0].value), MembersDepth(members[1..]))
  }

  // What a value does to a run.

  /** A run goes through unless the stack would have to be higher than it can be. */
  predicate Runs(next: Next, stack: seq<State>, tokens: seq<Token>, height: nat, fed: Fed) {
    RunsIf(next, stack, tokens, height <= MAX_DEPTH, fed)
  }

  predicate RunsIf(next: Next, stack: seq<State>, tokens: seq<Token>, ok: bool, fed: Fed) {
    Feed(next, stack, tokens) == if ok then Some(fed) else None
  }

  lemma ComposeIf(
    next: Next, stack: seq<State>, a: seq<Token>, b: seq<Token>, ok1: bool, fed1: Fed, ok2: bool, fed2: Fed)
    requires RunsIf(next, stack, a, ok1, fed1)
    requires ok1 ==> RunsIf(fed1.next, fed1.stack, b, ok2, fed2)
    ensures RunsIf(next, stack, a + b, ok1 && ok2, fed2.(out := fed1.out + fed2.out))
  {
    FeedConcat(next, stack, a, b);
    hide Feed;
  }

  lemma Compose(
    next: Next, stack: seq<State>, a: seq<Token>, b: seq<Token>, height1: nat, fed1: Fed, height2: nat, fed2: Fed)
    requires Runs(next, stack, a, height1, fed1)
    requires height1 <= MAX_DEPTH ==> Runs(fed1.next, fed1.stack, b, height2, fed2)
    ensures Runs(next, stack, a + b, Max(height1, height2), fed2.(out := fed1.out + fed2.out))
  {
    ComposeIf(next, stack, a, b, height1 <= MAX_DEPTH, fed1, height2 <= MAX_DEPTH, fed2);
    hide RunsIf;
  }

  function If(pass: bool, s: string): string {
    if pass then s else ""
  }

  /** The filter passes everything on, or nothing. */
  predicate Steady(next: Next, pass: bool) {
    match next
    case Writer => pass
    case Filter(_, depth, state) => (pass ==> depth >= 1) && state == if pass then InMember else OutsideMember
  }

  /** The filter after a value: outside the member if the value was the member's. */
  function Settled(next: Next): Next {
    if next.Filter? && next.depth == 1 then next.(state := OutsideMember) else next
  }

  function Deeper(next: Next): Next {
    if next.Filter? then next.(depth := next.depth + 1) else next
  }

  function OpenToken(isArray: bool): Token {
    if isArray then OPEN_ARRAY else OPEN_OBJECT
  }

  function CloseToken(isArray: bool): Token {
    if isArray then CLOSE_ARRAY else CLOSE_OBJECT
  }

  function Before(isArray: bool): State {
    if isArray then InArrayBeforeValue else InObjectBeforeKey
  }

  function After(isArray: bool): State {
    if isArray then InArrayAfterValue else InObjectAfterValue
  }

  predicate Ready(stack: seq<State>) {
    stack != [] && |stack| <= MAX_DEPTH && AfterValue(Top(stack)).Some?
  }

  function Base(stack: seq<State>): seq<State>
    requires Ready(stack)
  {
    Replace(stack, AfterValue(Top(stack)).value)
  }

  lemma Open(next: Next, pass: bool, stack: seq<State>, isArray: bool)
    requires Steady(next, pass) && Ready(stack)
    ensures Runs(next, stack, [OpenToken(isArray)], |stack| + 1,
                 Fed(Deeper(next), Base(stack) + [Before(isArray)], If(pass, OpenToken(isArray).text)))
    ensures Steady(Deeper(next), pass) && Settled(Deeper(next)) == Deeper(next)
    ensures if next.Filter? then Deeper(next).Filter? && Deeper(next).depth == next.depth + 1 else Deeper(next).Writer?
  {
    FeedSingle(next, stack, OpenToken(isArray));
  }

  lemma Close(next: Next, pass: bool, stack: seq<State>, inner: State, isArray: bool)
    requires Steady(next, pass) && stack != [] && inner in {Before(isArray), After(isArray)}
    ensures Runs(Deeper(next), stack + [inner], [CloseToken(isArray)], 0,
                 Fed(Settled(next), stack, If(pass, CloseToken(isArray).text)))
  {
    FeedSingle(Deeper(next), stack + [inner], CloseToken(isArray));
    assert (stack + [inner])[..|stack|] == stack;
  }

  lemma Container(next: Next, pass: bool, stack: seq<State>, isArray: bool, inner: seq<Token>, depth: nat, last: State)
    requires Steady(next, pass) && Ready(stack) && last in {Before(isArray), After(isArray)}
    requires |stack| < MAX_DEPTH ==>
      Runs(Deeper(next), Base(stack) + [Before(isArray)], inner, |stack| + 1 + depth,
           Fed(Deeper(next), Base(stack) + [last], If(pass, Joined(inner))))
    ensures
      var tokens := [OpenToken(isArray)] + inner + [CloseToken(isArray)];
      Runs(next, stack, tokens, |stack| + (1 + depth), Fed(Settled(next), Base(stack), If(pass, Joined(tokens))))
  {
    hide Runs, Steady, Joined, Deeper, Settled, Before, After, If;
    var open, close := [OpenToken(isArray)], [CloseToken(isArray)];
    Open(next, pass, stack, isArray);
    Close(next, pass, Base(stack), last, isArray);
    Compose(next, stack, open, inner, |stack| + 1, Fed(Deeper(next), Base(stack) + [Before(isArray)],
      If(pass, open[0].text)),
            |stack| + 1 + depth, Fed(Deeper(next), Base(stack) + [last], If(pass, Joined(inner))));
    Compose(next, stack, open + inner, close, |stack| + 1 + depth,
            Fed(Deeper(next), Base(stack) + [last], If(pass, open[0].text) + If(pass, Joined(inner))),
            0, Fed(Settled(next), Base(stack), If(pass, close[0].text)));
    JoinedThree(open[0], inner, close[0]);
    IfConcat(pass, open[0].text, Joined(inner), close[0].text);
  }

  lemma IfConcat(pass: bool, a: string, b: string, c: string)
    ensures If(pass, a) + If(pass, b) + If(pass, c) == If(pass, a + b + c)
  {
  }

  lemma JoinedOne(t: Token)
    ensures Joined([t]) == t.text
  {
    assert Joined([t]) == t.text + Joined([t][1..]) && [t][1..] == [];
  }

  lemma JoinedThree(a: Token, inner: seq<Token>, b: Token)
    ensures Joined([a] + inner + [b]) == a.text + Joined(inner) + b.text
  {
    JoinedConcat([a] + inner, [b]);
    JoinedConcat([a], inner);
    JoinedOne(a);
    JoinedOne(b);
  }

  /** Over a value's tokens a steady filter passes on all or none. */
  lemma {:induction false} FeedValue(next: Next, pass: bool, stack: seq<State>, v: Value)
    requires Steady(next, pass) && Ready(stack) && (v.Object? && next.Filter? ==> next.depth >= 1)
    ensures Runs(next, stack, TokensOf(v), |stack| + Depth(v),
        Fed(Settled(next), Base(stack), If(pass, Joined(TokensOf(v)))))
    decreases v, 1
  {
    hide Runs, Steady, Joined, Settled, Deeper, If;
    if v.Array? {
      FeedArray(next, pass, stack, v);
    } else if v.Object? {
      FeedObject(next, pass, stack, v);
    } else {
      FeedScalar(next, pass, stack, TokensOf(v)[0]);
      assert TokensOf(v) == [TokensOf(v)[0]];
    }
  }

  lemma {:induction false} FeedArray(next: Next, pass: bool, stack: seq<State>, v: Value)
    requires Steady(next, pass) && Ready(stack) && v.Array?
    ensures Runs(next, stack, TokensOf(v), |stack| + Depth(v),
        Fed(Settled(next), Base(stack), If(pass, Joined(TokensOf(v)))))
    decreases v, 0
  {
    hide Runs, Steady, Joined, Settled, Deeper, If;
    Open(next, pass, stack, true);
    if |stack| < MAX_DEPTH {
      FeedItems(Deeper(next), pass, Base(stack) + [Before(true)], v.items);
    }
    Container(next, pass, stack, true, ItemTokens(v.items), ItemsDepth(v.items), if v.items == [] then Before(true)
      else After(true));
  }

  lemma {:induction false} FeedObject(next: Next, pass: bool, stack: seq<State>, v: Value)
    requires Steady(next, pass) && Ready(stack) && v.Object? && (next.Filter? ==> next.depth >= 1)
    ensures Runs(next, stack, TokensOf(v), |stack| + Depth(v),
        Fed(Settled(next), Base(stack), If(pass, Joined(TokensOf(v)))))
    decreases v, 0
  {
    hide Runs, Steady, Joined, Settled, Deeper, If;
    Open(next, pass, stack, false);
    if |stack| < MAX_DEPTH {
      FeedMembers(Deeper(next), pass, Base(stack) + [Before(false)], v.members);
    }
    Container(next, pass, stack, false, MemberTokens(v.members), MembersDepth(v.members),
              if v.members == [] then Before(false) else After(false));
  }

  lemma FeedScalar(next: Next, pass: bool, stack: seq<State>, t: Token)
    requires Steady(next, pass) && Ready(stack) && t.kind in {Number, String, Special}
    ensures Runs(next, stack, [t], |stack|, Fed(Settled(next), Base(stack), If(pass, Joined([t]))))
  {
    FeedSingle(next, stack, t);
    JoinedOne(t);
  }

  /** A token between the values or names of a container. */
  lemma FeedMark(next: Next, pass: bool, stack: seq<State>, top: State, t: Token, after: State)
    requires Steady(next, pass) && stack != [] && Top(stack) == top
    requires if t == COMMA then
        (top == InArrayAfterValue && after == InArrayBeforeValue)
        || (top == InObjectAfterValue && after == InObjectBeforeKey)
      else
        t == COLON && top == InObjectAfterKey && after == InObjectBeforeValue
    ensures Runs(next, stack, [t], 0, Fed(next, Replace(stack, after), If(pass, Joined([t]))))
  {
    hide FeedOne, Steady, Joined;
    FeedSingle(next, stack, t);
    MarkStep(next, pass, stack, top, t, after);
    JoinedOne(t);
  }

  lemma MarkStep(next: Next, pass: bool, stack: seq<State>, top: State, t: Token, after: State)
    requires Steady(next, pass) && stack != [] && Top(stack) == top
    requires if t == COMMA then
        (top == InArrayAfterValue && after == InArrayBeforeValue)
        || (top == InObjectAfterValue && after == InObjectBeforeKey)
      else
        t == COLON && top == InObjectAfterKey && after == InObjectBeforeValue
    ensures FeedOne(next, stack, t) == Some(Fed(next, Replace(stack, after), If(pass, t.text)))
  {
  }

  lemma {:induction false} FeedItems(next: Next, pass: bool, stack: seq<State>, items: seq<Value>)
    requires Steady(next, pass) && Settled(next) == next && (next.Filter? ==> next.depth >= 1)
    requires Ready(stack) && Top(stack) == InArrayBeforeValue
    ensures Runs(next, stack, ItemTokens(items), |stack| + ItemsDepth(items),
                 Fed(next, if items == [] then stack else Replace(stack, InArrayAfterValue),
                   If(pass, Joined(ItemTokens(items)))))
    decreases items
  {
    hide Runs, Steady, Joined, Settled, Deeper, If, TokensOf, Depth;
    if items == [] {
      FeedNone(next, pass, stack, |stack|);
    } else {
      var first, after := TokensOf(items[0]), Replace(stack, InArrayAfterValue);
      FeedValue(next, pass, stack, items[0]);
      assert Base(stack) == after;
      if |items| == 1 {
        assert ItemTokens(items) == first;
      } else {
        var rest := ItemTokens(items[1..]);
        FeedMark(next, pass, after, InArrayAfterValue, COMMA, InArrayBeforeValue);
        assert Replace(after, InArrayBeforeValue) == stack;
        FeedItems(next, pass, stack, items[1..]);
        ComposeThree(next, pass, stack, first, COMMA, rest, |stack| + Depth(items[0]), after,
          |stack| + ItemsDepth(items[1..]),
                     stack, after);
      }
    }
  }

  /** A part, a mark and the rest. */
  lemma ComposeThree(
    next: Next, pass: bool, stack: seq<State>, a: seq<Token>, mark: Token, b: seq<Token>, height1: nat,
    stack1: seq<State>,
    height2: nat, stack2: seq<State>, stack3: seq<State>)
    requires Runs(next, stack, a, height1, Fed(next, stack1, If(pass, Joined(a))))
    requires Runs(next, stack1, [mark], 0, Fed(next, stack2, If(pass, Joined([mark]))))
    requires Runs(next, stack2, b, height2, Fed(next, stack3, If(pass, Joined(b))))
    ensures Runs(next, stack, a + ([mark] + b), Max(height1, height2),
        Fed(next, stack3, If(pass, Joined(a + ([mark] + b)))))
  {
    hide Runs;
    Compose(next, stack1, [mark], b, 0, Fed(next, stack2, If(pass, Joined([mark]))), height2,
      Fed(next, stack3, If(pass, Joined(b))));
    JoinedConcat([mark], b);
    assert If(pass, Joined([mark])) + If(pass, Joined(b)) == If(pass, Joined([mark] + b));
    Compose(next, stack, a, [mark] + b, height1, Fed(next, stack1, If(pass, Joined(a))), height2,
            Fed(next, stack3, If(pass, Joined([mark] + b))));
    JoinedConcat(a, [mark] + b);
    assert If(pass, Joined(a)) + If(pass, Joined([mark] + b)) == If(pass, Joined(a + ([mark] + b)));
  }

  lemma FeedNone(next: Next, pass: bool, stack: seq<State>, height: nat)
    requires height <= MAX_DEPTH
    ensures Runs(next, stack, [], height, Fed(next, stack, If(pass, Joined([]))))
  {
  }

  /** A name that is not the outer object's. */
  lemma FeedName(next: Next, pass: bool, stack: seq<State>, name: string)
    requires Steady(next, pass) && (next.Filter? ==> next.depth >= 2) && stack != [] && Top(stack) == InObjectBeforeKey
    ensures
      var t := Token(String, Quoted(name));
      Runs(next, stack, [t], 0, Fed(next, Replace(stack, InObjectAfterKey), If(pass, Joined([t]))))
  {
    var t := Token(String, Quoted(name));
    FeedSingle(next, stack, t);
    JoinedOne(t);
  }

  lemma {:induction false} FeedMember(next: Next, pass: bool, stack: seq<State>, m: Member)
    requires Steady(next, pass) && (next.Filter? ==> next.depth >= 2)
    requires stack != [] && |stack| <= MAX_DEPTH && Top(stack) == InObjectBeforeKey
    ensures Runs(next, stack, NamedTokens(m), |stack| + Depth(m.value),
                 Fed(next, Replace(stack, InObjectAfterValue), If(pass, Joined(NamedTokens(m)))))
    decreases m
  {
    hide Runs, Steady, Joined, Deeper, If, TokensOf, Depth;
    var name, value := [Token(String, Quoted(m.name))], TokensOf(m.value);
    var afterKey, beforeValue := Replace(stack, InObjectAfterKey), Replace(stack, InObjectBeforeValue);
    FeedName(next, pass, stack, m.name);
    FeedMark(next, pass, afterKey, InObjectAfterKey, COLON, InObjectBeforeValue);
    assert Replace(afterKey, InObjectBeforeValue) == beforeValue;
    FeedValue(next, pass, beforeValue, m.value);
    assert Base(beforeValue) == Replace(stack, InObjectAfterValue);
    ComposeThree(next, pass, stack, name, COLON, value, 0, afterKey, |stack| + Depth(m.value), beforeValue,
      Base(beforeValue));
    assert name + ([COLON] + value) == NamedTokens(m);
  }

  lemma {:induction false} FeedMembers(next: Next, pass: bool, stack: seq<State>, members: seq<Member>)
    requires Steady(next, pass) && (next.Filter? ==> next.depth >= 2)
    requires stack != [] && |stack| <= MAX_DEPTH && Top(stack) == InObjectBeforeKey
    ensures Runs(next, stack, MemberTokens(members), |stack| + MembersDepth(members),
                 Fed(next, if members == [] then stack else Replace(stack, InObjectAfterValue),
                     If(pass, Joined(MemberTokens(members)))))
    decreases members
  {
    hide Runs, Steady, Joined, Deeper, If, NamedTokens, Depth;
    if members == [] {
      FeedNone(next, pass, stack, |stack|);
    } else {
      var m, after := members[0], Replace(stack, InObjectAfterValue);
      FeedMember(next, pass, stack, m);
      if |members| == 1 {
        assert MemberTokens(members) == NamedTokens(m);
      } else {
        FeedMark(next, pass, after, InObjectAfterValue, COMMA, InObjectBeforeKey);
        assert Replace(after, InObjectBeforeKey) == stack;
        FeedMembers(next, pass, stack, members[1..]);
        ComposeThree(next, pass, stack, NamedTokens(m), COMMA, MemberTokens(members[1..]), |stack| + Depth(m.value),
          after,
                     |stack| + MembersDepth(members[1..]), stack, after);
      }
    }
  }

  // The outer value when one member of it is asked for.

  /** The values of all members of that name, one after the other. */
  function MembersNamed(members: seq<Member>, name: string): string {
    if members == [] then "" else If(members[0].name == name, Text(members[0].value)) + MembersNamed(members[1..], name)
  }

  /** The filter cannot compare names with escapes in them. */
  predicate PlainMembers(members: seq<Member>) {
    forall i :: 0 <= i < |members| ==> '\\' !in members[i].name
  }

  lemma QuotedKeepsNames(a: string, b: string)
    ensures (Quoted(a) == Quoted(b) <==> a == b) && ('\\' in Quoted(a) <==> '\\' in a)
  {
    assert Quoted(a)[1..|a| + 1] == a && Quoted(b)[1..|b| + 1] == b;
    assert forall i :: 0 <= i < |a| ==> Quoted(a)[i + 1] == a[i];
  }

  /** A name of the outer object and the colon after it. */
  lemma FeedOuterName(name: string, stack: seq<State>, key: string)
    requires stack != [] && Top(stack) == InObjectBeforeKey
    ensures RunsIf(Filter(name, 1, OutsideMember), stack, [Token(String, Quoted(key)), COLON], '\\' !in key,
                   Fed(Filter(name, 1, if key == name then InMember else OutsideMember),
                     Replace(stack, InObjectBeforeValue), ""))
  {
    var t := Token(String, Quoted(key));
    var next := Filter(name, 1, OutsideMember);
    var seen := Filter(name, 1, if key == name then SeenMemberName else OutsideMember);
    var inside := Filter(name, 1, if key == name then InMember else OutsideMember);
    QuotedKeepsNames(key, name);
    FeedSingle(next, stack, t);
    FeedSingle(seen, Replace(stack, InObjectAfterKey), COLON);
    assert Replace(Replace(stack, InObjectAfterKey), InObjectBeforeValue) == Replace(stack, InObjectBeforeValue);
    ComposeIf(next, stack, [t], [COLON], '\\' !in key, Fed(seen, Replace(stack, InObjectAfterKey), ""),
              true, Fed(inside, Replace(stack, InObjectBeforeValue), ""));
    assert [t] + [COLON] == [t, COLON];
  }

  lemma FeedOuterMember(name: string, stack: seq<State>, m: Member)
    requires stack != [] && |stack| <= MAX_DEPTH && Top(stack) == InObjectBeforeKey
    ensures RunsIf(Filter(name, 1, OutsideMember), stack, NamedTokens(m),
                   '\\' !in m.name && |stack| + Depth(m.value) <= MAX_DEPTH,
                   Fed(Filter(name, 1, OutsideMember), Replace(stack, InObjectAfterValue),
                     If(m.name == name, Text(m.value))))
  {
    var next := Filter(name, 1, OutsideMember);
    var pass := m.name == name;
    var inside := Filter(name, 1, if pass then InMember else OutsideMember);
    var beforeValue := Replace(stack, InObjectBeforeValue);
    FeedOuterName(name, stack, m.name);
    FeedValue(inside, pass, beforeValue, m.value);
    JoinedIsText(m.value);
    hide RunsIf, TokensOf, Text, Depth;
    assert Base(beforeValue) == Replace(stack, InObjectAfterValue);
    var result := Fed(next, Replace(stack, InObjectAfterValue), If(pass, Text(m.value)));
    ComposeIf(next, stack, [Token(String, Quoted(m.name)), COLON], TokensOf(m.value), '\\' !in m.name,
              Fed(inside, beforeValue, ""), |stack| + Depth(m.value) <= MAX_DEPTH, result);
    assert "" + result.out == result.out;
  }

  lemma {:induction false} FeedOuterMembers(name: string, stack: seq<State>, members: seq<Member>)
    requires stack != [] && |stack| <= MAX_DEPTH && Top(stack) == InObjectBeforeKey
    ensures RunsIf(Filter(name, 1, OutsideMember), stack, MemberTokens(members),
                   PlainMembers(members) && |stack| + MembersDepth(members) <= MAX_DEPTH,
                   Fed(Filter(name, 1, OutsideMember), if members == [] then stack
                     else Replace(stack, InObjectAfterValue),
                       MembersNamed(members, name)))
    decreases members
  {
    hide RunsIf, NamedTokens, Text, Depth, If;
    var next := Filter(name, 1, OutsideMember);
    if members == [] {
      NothingFed(next, stack);
    } else {
      var m, after := members[0], Replace(stack, InObjectAfterValue);
      FeedOuterMember(name, stack, m);
      var ok, fed := '\\' !in m.name && |stack| + Depth(m.value) <= MAX_DEPTH,
        Fed(next, after, If(m.name == name, Text(m.value)));
      if |members| == 1 {
        assert MemberTokens(members) == NamedTokens(m);
        assert MembersNamed(members, name) == fed.out + MembersNamed(members[1..], name) == fed.out;
      } else {
        FeedComma(next, after);
        assert Replace(after, InObjectBeforeKey) == stack;
        FeedOuterMembers(name, stack, members[1..]);
        var rest := Fed(next, after, MembersNamed(members[1..], name));
        var restOk := PlainMembers(members[1..]) && |stack| + MembersDepth(members[1..]) <= MAX_DEPTH;
        ComposeIf(next, after, [COMMA], MemberTokens(members[1..]), true, Fed(next, stack, ""), restOk, rest);
        assert "" + rest.out == rest.out;
        ComposeIf(next, stack, NamedTokens(m), [COMMA] + MemberTokens(members[1..]), ok, fed, restOk, rest);
        assert PlainMembers(members) <==> '\\' !in m.name && PlainMembers(members[1..]) by { PlainTail(members); }
      }
    }
  }

  lemma PlainTail(members: seq<Member>)
    requires members != []
    ensures PlainMembers(members) <==> '\\' !in members[0].name && PlainMembers(members[1..])
  {
    if PlainMembers(members[1..]) && '\\' !in members[0].name {
      forall i | 0 <= i < |members| ensures '\\' !in members[i].name {
        if i > 0 { assert members[i] == members[1..][i - 1]; }
      }
    }
  }

  lemma NothingFed(next: Next, stack: seq<State>)
    ensures RunsIf(next, stack, [], true, Fed(next, stack, ""))
  {
  }

  lemma FeedComma(next: Next, stack: seq<State>)
    requires next.Filter? && next.state == OutsideMember && stack != [] && Top(stack) == InObjectAfterValue
    ensures RunsIf(next, stack, [COMMA], true, Fed(next, Replace(stack, InObjectBeforeKey), ""))
  {
    FeedSingle(next, stack, COMMA);
  }

  /** What comes out for an outer object: the member's value. */
  lemma FeedOuterObject(name: string, members: seq<Member>)
    ensures RunsIf(Filter(name, 0, OutsideMember), [Outside], TokensOf(Object(members)),
                   PlainMembers(members) && 2 + MembersDepth(members) <= MAX_DEPTH,
                   Fed(Filter(name, 0, OutsideMember), [Outside], MembersNamed(members, name)))
  {
    hide RunsIf, Runs, MembersNamed, MembersDepth, PlainMembers, MemberTokens;
    var next0, next1 := Filter(name, 0, OutsideMember), Filter(name, 1, OutsideMember);
    var last := if members == [] then InObjectBeforeKey else InObjectAfterValue;
    var ok := PlainMembers(members) && 2 + MembersDepth(members) <= MAX_DEPTH;
    OuterBrackets(name, last);
    FeedOuterMembers(name, [Outside, InObjectBeforeKey], members);
    assert Replace([Outside, InObjectBeforeKey], InObjectAfterValue) == [Outside, InObjectAfterValue];
    var out := MembersNamed(members, name);
    ComposeIf(next0, [Outside], [OPEN_OBJECT], MemberTokens(members), true,
      Fed(next1, [Outside, InObjectBeforeKey], ""),
              ok, Fed(next1, [Outside, last], out));
    assert "" + out == out;
    ComposeIf(next0, [Outside], [OPEN_OBJECT] + MemberTokens(members), [CLOSE_OBJECT], ok,
      Fed(next1, [Outside, last], out),
              true, Fed(next0, [Outside], ""));
    assert out + "" == out;
  }

  lemma OuterBrackets(name: string, last: State)
    requires last in {InObjectBeforeKey, InObjectAfterValue}
    ensures RunsIf(Filter(name, 0, OutsideMember), [Outside], [OPEN_OBJECT], true,
                   Fed(Filter(name, 1, OutsideMember), [Outside, InObjectBeforeKey], ""))
    ensures RunsIf(Filter(name, 1, OutsideMember), [Outside, last], [CLOSE_OBJECT], true,
                   Fed(Filter(name, 0, OutsideMember), [Outside], ""))
  {
    hide RunsIf;
    Open(Filter(name, 0, OutsideMember), false, [Outside], false);
    Close(Filter(name, 0, OutsideMember), false, [Outside], last, false);
    assert Base([Outside]) + [InObjectBeforeKey] == [Outside, InObjectBeforeKey]
        && [Outside] + [last] == [Outside, last];
  }

  // The results.

  lemma PipeOfLayout(next: Next, v: Value, gaps: seq<string>)
    requires WellFormed(v) && Gaps(gaps, TokensOf(v))
    ensures Pipe(next, [Outside], Layout(TokensOf(v), gaps)) ==
      match Feed(next, [Outside], TokensOf(v)) { case None => None case Some(fed) => Some(fed.out) }
  {
    TokensAreGood(v);
    TokensAreRead(TokensOf(v), gaps);
    PipeIsFeed(next, [Outside], Layout(TokensOf(v), gaps));
  }

  /** However a value is laid out, it is normalised to its text without white space, unless it is nested too deep. */
  lemma NormaliseValue(v: Value, gaps: seq<string>)
    requires WellFormed(v) && Gaps(gaps, TokensOf(v))
    ensures Normalised(Layout(TokensOf(v), gaps)) == if Depth(v) < 100 then Some(Text(v)) else None
  {
    hide Feed, Pipe, TokensOf, Text, Depth;
    PipeOfLayout(Writer, v, gaps);
    FeedValue(Writer, true, [Outside], v);
    JoinedIsText(v);
  }

  /** Normalising what has been normalised changes nothing. */
  lemma NormaliseTwice(v: Value, gaps: seq<string>)
    requires WellFormed(v) && Gaps(gaps, TokensOf(v)) && Normalised(Layout(TokensOf(v), gaps)).Some?
    ensures Normalised(Normalised(Layout(TokensOf(v), gaps)).value) == Normalised(Layout(TokensOf(v), gaps))
  {
    NormaliseValue(v, gaps);
    NormaliseValue(v, NoGaps(TokensOf(v)));
    JoinedIsLayout(TokensOf(v));
    JoinedIsText(v);
  }

  lemma {:induction false} WriterWritesAll(stack: seq<State>, tokens: seq<Token>)
    requires Feed(Writer, stack, tokens).Some?
    ensures Feed(Writer, stack, tokens).value.out == Joined(tokens)
    decreases |tokens|
  {
    hide Step;
    if tokens != [] {
      WriterWritesAll(FeedOne(Writer, stack, tokens[0]).value.stack, tokens[1..]);
    }
  }

  /** For every accepted text, valid JSON or not, only white space between the tokens is removed. */
  lemma NormaliseRemovesGaps(json: string) returns (tokens: seq<Token>, gaps: seq<string>)
    requires Normalised(json).Some?
    ensures Tokenize(json) == Some(tokens) && Gaps(gaps, tokens) && json == Layout(tokens, gaps)
    ensures Normalised(json).value == Layout(tokens, NoGaps(tokens))
  {
    PipeNeedsTokens(Writer, [Outside], json);
    PipeIsFeed(Writer, [Outside], json);
    tokens := Tokenize(json).value;
    gaps := AcceptedIsLayout(json);
    WriterWritesAll([Outside], tokens);
    JoinedIsLayout(tokens);
  }

  /** The member's text: that of every member of that name in turn; an abort when a name of the outer object
      has a backslash in it or the nesting is too deep. */
  lemma MemberOfObject(members: seq<Member>, name: string, gaps: seq<string>)
    requires WellFormed(Object(members)) && Gaps(gaps, TokensOf(Object(members)))
    ensures MemberOf(Layout(TokensOf(Object(members)), gaps), name)
         == if PlainMembers(members) && Depth(Object(members)) < 100 then Some(MembersNamed(members, name))
           else None
  {
    hide Feed, Pipe, TokensOf;
    PipeOfLayout(Filter(name, 0, OutsideMember), Object(members), gaps);
    FeedOuterObject(name, members);
  }

  lemma MemberOfOther(v: Value, name: string, gaps: seq<string>)
    requires WellFormed(v) && !v.Object? && Gaps(gaps, TokensOf(v))
    ensures MemberOf(Layout(TokensOf(v), gaps), name) == if Depth(v) < 100 then Some("") else None
  {
    hide Feed, Pipe, TokensOf, Depth;
    PipeOfLayout(Filter(name, 0, OutsideMember), v, gaps);
    FeedValue(Filter(name, 0, OutsideMember), false, [Outside], v);
  }

  predicate DistinctNames(members: seq<Member>) {
    forall i, j :: 0 <= i < j < |members| ==> members[i].name != members[j].name
  }

  /** With distinct names that is the member's text, or nothing when there is none. */
  lemma {:induction false} OneMember(members: seq<Member>, name: string)
    requires DistinctNames(members)
    ensures forall k :: 0 <= k < |members| && members[k].name == name ==>
        MembersNamed(members, name) == Text(members[k].value)
    ensures (forall k :: 0 <= k < |members| ==> members[k].name != name) ==> MembersNamed(members, name) == ""
  {
    if members != [] {
      hide Text;
      OneMember(members[1..], name);
      assert forall k :: 0 <= k < |members| - 1 ==> members[1..][k] == members[k + 1];
      if members[0].name == name {
        assert MembersNamed(members[1..], name) == "";
      }
      assert forall k :: 1 <= k < |members| ==> members[k] == members[1..][k - 1];
    }
  }

  const ONE := Numeral(false, "1", "", None)
  const MINUS_TWO := Numeral(true, "2", "", None)

  /** Two numbers side by side are not JSON but are accepted, and what they are normalised to is not. */
  lemma NumbersSideBySide()
    ensures Normalised("1 -2") == Some("1-2") && Normalised("1-2") == None
  {
    hide FeedOne, NextToken;
    var one, two := Token(Number, "1"), Token(Number, "-2");
    NumeralsAre();
    NextIsRead("", one, " -2");
    assert "" + ("1" + " -2") == "1 -2";
    NextIsRead(" ", two, "");
    assert " " + ("-2" + "") == " -2";
    OnlySpaces("");
    OutsideStays(one);
    OutsideStays(two);
    assert Pipe(Writer, [Outside], "") == Some("");
    assert NextToken(" -2") == Got(two, "") && "-2" + "" == "-2";
    assert Pipe(Writer, [Outside], " -2") == Some("-2");
    assert "1" + "-2" == "1-2";
    MinusAfterDigit();
  }

  lemma NumeralsAre()
    ensures IsNumeral(ONE) && NumeralText(ONE) == "1" && IsNumeral(MINUS_TWO) && NumeralText(MINUS_TWO) == "-2"
  {
    assert Minus(ONE) == "" && FractionText(ONE) == "" && ExponentText(ONE) == "";
    assert Minus(MINUS_TWO) == "-" && FractionText(MINUS_TWO) == "" && ExponentText(MINUS_TWO) == "";
    assert NumeralText(ONE) == "" + "1" + "" + "" && NumeralText(MINUS_TWO) == "-" + "2" + "" + "";
  }

  lemma OutsideStays(t: Token)
    requires t.kind == Number
    ensures FeedOne(Writer, [Outside], t) == Some(Fed(Writer, [Outside], t.text))
  {
    assert Replace([Outside], Outside) == [Outside];
  }

  lemma MinusAfterDigit()
    ensures NextToken("1-2") == Turn.Abort
  {
    var s := "1-2";
    SpacesAre("", s);
    assert "" + s == s && s[0..] == s;
    SomeDigitsAre("", "1", "-2");
    assert "" + ("1" + "-2") == s;
    assert s[0] == '1' && s[1] == '-' && |s| == 3;
    NotANumber(s);
    TurnedIs(s, Number, 1);
  }

  lemma NotANumber(s: string)
    requires |s| > 1 && IsDigit(s[0]) && s[1] == '-' && SomeDigits(s, 0) == Some(1)
    ensures NumberLength(s) == None && Scan(s).1 == None
  {
    hide SomeDigits;
    assert Fraction(s, 1) == Some(1) && Exponent(s, 1) == Some(1);
  }
}
