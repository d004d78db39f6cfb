/** np1/json/parser.hpp: a stack of states checks the order of the tokens, a filter lets one member of the outer
    object through, a writer puts the tokens into a buffer. An abort is None. */
module JsonParser {
  import opened Wrappers
  import opened JsonTokenizer
  import opened Json
  import opened VmHeap

  const MAX_DEPTH: nat := 100

  datatype State =
    Outside | InArrayBeforeValue | InArrayAfterValue | InObjectBeforeKey | InObjectAfterKey | InObjectBeforeValue
    | InObjectAfterValue

  datatype EventKind =
    OnNumber | OnString | OnSpecial | OnOpenObject | OnCloseObject | OnElementName | OnOpenArray | OnCloseArray
    | OnDelimiter

  datatype Event = Event(kind: EventKind, text: string)

  function Replace(stack: seq<State>, s: State): seq<State>
    requires stack != []
  {
    stack[..|stack| - 1] + [s]
  }

  function Top(stack: seq<State>): State
    requires stack != []
  {
    stack[|stack| - 1]
  }

  /** The state after a value, in the states in which there may be one. */
  function AfterValue(s: State): Option<State> {
    match s
    case Outside => Some(Outside)
    case InArrayBeforeValue => Some(InArrayAfterValue)
    case InObjectBeforeValue => Some(InObjectAfterValue)
    case _ => None
  }

  function OpenValue(stack: seq<State>, inner: State): Option<seq<State>>
    requires stack != []
  {
    var after :- AfterValue(Top(stack));
    if |stack| < MAX_DEPTH then Some(Replace(stack, after) + [inner]) else None
  }

  /** The new stack and the event passed on. */
  function Step(stack: seq<State>, t: Token): (r: Option<(seq<State>, EventKind)>) {
    if stack == [] then None else StepFrom(stack, Top(stack), t.kind)
  }

  function StepFrom(stack: seq<State>, top: State, kind: Kind): (r: Option<(seq<State>, EventKind)>)
    requires stack != [] && top == Top(stack)
  {
    match kind
    case Number => var after :- AfterValue(top); Some((Replace(stack, after), OnNumber))
    case Special => var after :- AfterValue(top); Some((Replace(stack, after), OnSpecial))
    case String =>
      if top == InObjectBeforeKey then Some((Replace(stack, InObjectAfterKey), OnElementName))
      else var after :- AfterValue(top); Some((Replace(stack, after), OnString))
    case OpenObject => var s :- OpenValue(stack, InObjectBeforeKey); Some((s, OnOpenObject))
    case OpenArray => var s :- OpenValue(stack, InArrayBeforeValue); Some((s, OnOpenArray))
    case NameValueDelimiter =>
      if top == InObjectAfterKey then Some((Replace(stack, InObjectBeforeValue), OnDelimiter)) else None
    case ElementDelimiter =>
      if top == InArrayAfterValue then Some((Replace(stack, InArrayBeforeValue), OnDelimiter))
      else if top == InObjectAfterValue then Some((Replace(stack, InObjectBeforeKey), OnDelimiter))
      else None
    case CloseObject =>
      if top == InObjectAfterValue || top == InObjectBeforeKey then Some((stack[..|stack| - 1], OnCloseObject))
        else None
    case CloseArray =>
      if top == InArrayAfterValue || top == InArrayBeforeValue then Some((stack[..|stack| - 1], OnCloseArray)) else None
  }

  /** Only the lowest state is outside every value. */
  predicate IsStack(stack: seq<State>) {
    stack != [] && stack[0] == Outside && forall i :: 1 <= i < |stack| ==> stack[i] != Outside
  }

  lemma StepKeepsStack(stack: seq<State>, t: Token)
    requires IsStack(stack) && |stack| <= MAX_DEPTH && Step(stack, t).Some?
    ensures IsStack(Step(stack, t).value.0) && |Step(stack, t).value.0| <= MAX_DEPTH
  {
  }

  datatype FilterState = OutsideMember | SeenMemberName | InMember

  /** Where the events go: to the writer, or to the writer through a filter. */
  datatype Next = Writer | Filter(name: string, depth: nat, state: FilterState)

  /** The filter after an event, and whether the event is passed on. The depth is unsigned. */
  function Deliver(next: Next, e: Event): (r: Option<(Next, bool)>) {
    if next.Writer? then Some((next, true))
    else
      var inside := next.state == InMember;
      match e.kind
      case OnOpenObject | OnOpenArray => Some((next.(depth := next.depth + 1), inside))
      case OnCloseObject | OnCloseArray =>
        var depth := if next.depth == 0 then 0xFFFF_FFFF_FFFF_FFFF else next.depth - 1;
        Some((next.(depth := depth, state := if depth == 1 then OutsideMember else next.state), inside))
      case OnElementName =>
        if !inside && next.depth == 1 then
          if '\\' in e.text then None
          else Some((if e.text == Quoted(next.name) then next.(state := SeenMemberName) else next, false))
        else Some((next, inside))
      case OnDelimiter => Some((if next.state == SeenMemberName then next.(state := InMember) else next, inside))
      case _ => Some((if inside && next.depth == 1 then next.(state := OutsideMember) else next, inside))
  }

  /** Where a run ends and what it has written. */
  datatype Fed = Fed(next: Next, stack: seq<State>, out: string)

  function FeedOne(next: Next, stack: seq<State>, t: Token): (r: Option<Fed>)
    ensures r.Some? ==> |r.value.out| <= |t.text|
  {
    var step :- Step(stack, t);
    var delivered :- Deliver(next, Event(step.1, t.text));
    Some(Fed(delivered.0, step.0, if delivered.1 then t.text else ""))
  }

  function Feed(next: Next, stack: seq<State>, tokens: seq<Token>): (r: Option<Fed>)
    decreases |tokens|
  {
    if tokens == [] then Some(Fed(next, stack, ""))
    else
      var one :- FeedOne(next, stack, tokens[0]);
      var rest :- Feed(one.next, one.stack, tokens[1..]);
      Some(rest.(out := one.out + rest.out))
  }

  /** The same, a token being cut off the text when it is its turn. */
  function Pipe(next: Next, stack: seq<State>, s: string): (r: Option<string>)
    decreases |s|
  {
    match NextToken(s)
    case End => Some("")
    case Abort => None
    case Got(t, rest) =>
      var one :- FeedOne(next, stack, t);
      var more :- Pipe(one.next, one.stack, rest);
      Some(one.out + more)
  }

  function Normalised(json: string): Option<string> {
    Pipe(Writer, [Outside], json)
  }

  function MemberOf(json: string, name: string): Option<string> {
    Pipe(Filter(name, 0, OutsideMember), [Outside], json)
  }

  class Stack {
    const states: array<State>
    var size: nat

    ghost predicate Valid()
      reads this
    {
      states.Length == MAX_DEPTH && size <= MAX_DEPTH
    }

    ghost function Contents(): (r: seq<State>)
      requires Valid()
      reads this, states
      ensures |r| == size
    {
      states[..size]
    }

    constructor ()
      ensures Valid() && Contents() == [] && fresh(states)
    {
      states, size := new State[MAX_DEPTH](_ => Outside), 0;
    }

    /** `top`; `None` is an abort. */
    method Top() returns (r: Option<State>)
      requires Valid()
      ensures r == if Contents() == [] then None else Some(Contents()[|Contents()| - 1])
    {
      r := if size > 0 then Some(states[size - 1]) else None;
    }

    method Push(s: State) returns (ok: bool)
      requires Valid()
      modifies this, states
      ensures Valid() && ok == (|old(Contents())| < MAX_DEPTH)
      ensures Contents() == if ok then old(Contents()) + [s] else old(Contents())
    {
      ok := size < MAX_DEPTH;
      if ok {
        states[size] := s;
        size := size + 1;
      }
    }

    method Pop() returns (ok: bool)
      requires Valid()
      modifies this
      ensures Valid() && ok == (old(Contents()) != [])
      ensures ok ==> Contents() == old(Contents())[..|old(Contents())| - 1]
    {
      ok := size > 0;
      if ok {
        size := size - 1;
      }
    }

    method PopPush(s: State) returns (ok: bool)
      requires Valid() && Contents() != []
      modifies this, states
      ensures Valid() && ok && Contents() == Replace(old(Contents()), s)
    {
      ok := Pop();
      ok := Push(s);
    }
  }

  /** The checks on the order of the tokens. A method returns false where the source aborts. */
  class RawTokenHandler {
    const stack: Stack

    ghost predicate Valid()
      reads this, stack
    {
      stack.Valid()
    }

    constructor ()
      ensures Valid() && stack.Contents() == [Outside] && fresh(stack) && fresh(stack.states)
    {
      stack := new Stack();
      new;
      var ok := stack.Push(Outside);
    }

    /** What a number, a special value and a string do where a value may stand. */
    method OnScalar() returns (ok: bool)
      requires Valid() && stack.Contents() != []
      modifies stack, stack.states
      ensures Valid()
      ensures match AfterValue(Top(old(stack.Contents())))
        case None => !ok
        case Some(after) => ok && stack.Contents() == Replace(old(stack.Contents()), after)
    {
      var top := stack.Top();
      match top.value
      case Outside =>
        assert Replace(stack.Contents(), Outside) == stack.Contents();
        ok := true;
      case InArrayBeforeValue =>
        ok := stack.PopPush(InArrayAfterValue);
      case InObjectBeforeValue =>
        ok := stack.PopPush(InObjectAfterValue);
      case _ =>
        ok := false;
    }

    /** `on_string`: a value or a name. */
    method OnString() returns (ok: bool, isName: bool)
      requires Valid() && stack.Contents() != []
      modifies stack, stack.states
      ensures Valid() && isName == (Top(old(stack.Contents())) == InObjectBeforeKey)
      ensures isName ==> ok && stack.Contents() == Replace(old(stack.Contents()), InObjectAfterKey)
      ensures !isName ==>
        match AfterValue(Top(old(stack.Contents())))
        case None => !ok
        case Some(after) => ok && stack.Contents() == Replace(old(stack.Contents()), after)
    {
      var top := stack.Top();
      isName := top.value == InObjectBeforeKey;
      if isName {
        ok := stack.PopPush(InObjectAfterKey);
      } else {
        ok := OnScalar();
      }
    }

    /** `on_open_object` and `on_open_array`. */
    method OnOpen(inner: State) returns (ok: bool)
      requires Valid() && stack.Contents() != []
      modifies stack, stack.states
      ensures Valid()
      ensures match OpenValue(old(stack.Contents()), inner)
        case None => !ok
        case Some(s) => ok && stack.Contents() == s
    {
      ok := OnScalar();
      if ok {
        ok := stack.Push(inner);
      }
    }

    /** `on_close_object` and `on_close_array`. */
    method OnClose(before: State, after: State) returns (ok: bool)
      requires Valid() && stack.Contents() != []
      modifies stack
      ensures Valid() && ok == (Top(old(stack.Contents())) in {before, after})
      ensures ok ==> stack.Contents() == old(stack.Contents())[..|old(stack.Contents())| - 1]
    {
      var top := stack.Top();
      ok := top.value == before || top.value == after;
      if ok {
        ok := stack.Pop();
      }
    }

    /** `on_object_name_value_delimiter` and `on_element_delimiter`. */
    method OnDelimiter(element: bool) returns (ok: bool)
      requires Valid() && stack.Contents() != []
      modifies stack, stack.states
      ensures Valid()
      ensures match StepFrom(old(stack.Contents()), Top(old(stack.Contents())), if element then ElementDelimiter
          else NameValueDelimiter)
        case None => !ok
        case Some(s) => ok && stack.Contents() == s.0
    {
      var top := stack.Top();
      if element {
        match top.value
        case InArrayAfterValue => ok := stack.PopPush(InArrayBeforeValue);
        case InObjectAfterValue => ok := stack.PopPush(InObjectBeforeKey);
        case _ => ok := false;
      } else if top.value == InObjectAfterKey {
        ok := stack.PopPush(InObjectBeforeValue);
      } else {
        ok := false;
      }
    }

    /** The event for a token. */
    method On(t: Token) returns (r: Option<EventKind>)
      requires Valid()
      modifies stack, stack.states
      ensures Valid()
      ensures match Step(old(stack.Contents()), t)
        case None => r.None?
        case Some(s) => r == Some(s.1) && stack.Contents() == s.0
    {
      hide Replace;
      var top := stack.Top();
      if top.None? { return None; }
      var ok, kind := false, EventKind.OnNumber;
      match t.kind {
        case Number => ok := OnScalar();
        case Special =>
          kind := OnSpecial;
          ok := OnScalar();
        case String =>
          var isName;
          ok, isName := OnString();
          kind := if isName then OnElementName else EventKind.OnString;
        case OpenObject =>
          kind := OnOpenObject;
          ok := OnOpen(InObjectBeforeKey);
        case OpenArray =>
          kind := OnOpenArray;
          ok := OnOpen(InArrayBeforeValue);
        case NameValueDelimiter =>
          kind := EventKind.OnDelimiter;
          ok := OnDelimiter(false);
        case ElementDelimiter =>
          kind := EventKind.OnDelimiter;
          ok := OnDelimiter(true);
        case CloseObject =>
          kind := OnCloseObject;
          ok := OnClose(InObjectBeforeKey, InObjectAfterValue);
        case CloseArray =>
          kind := OnCloseArray;
          ok := OnClose(InArrayBeforeValue, InArrayAfterValue);
      }
      r := if ok then Some(kind) else None;
    }
  }

  /** `get_member_filter`. */
  class MemberFilter {
    const memberName: string
    var depth: nat
    var state: FilterState

    function Now(): Next
      reads this
    {
      Filter(memberName, depth, state)
    }

    constructor (memberName: string)
      ensures Now() == Filter(memberName, 0, OutsideMember)
    {
      this.memberName, depth, state := memberName, 0, OutsideMember;
    }

    /** `is_member_name`; None is an abort. */
    method IsMemberName(name: string) returns (r: Option<bool>)
      requires |name| >= 2 && name[0] == '"' && name[|name| - 1] == '"'
      ensures r == if '\\' in name then None else Some(name == Quoted(memberName))
    {
      if '\\' in name { return None; }
      if |name| - 2 != |memberName| { return Some(false); }
      assert Quoted(memberName)[1..|name| - 1] == memberName;
      assert name == [name[0]] + name[1..|name| - 1] + [name[|name| - 1]];
      r := Some(memberName == name[1..|name| - 1]);
    }

    /** Whether an event is passed on; None is an abort. */
    method On(e: Event) returns (pass: Option<bool>)
      requires e.kind == OnElementName ==> |e.text| >= 2 && e.text[0] == '"' && e.text[|e.text| - 1] == '"'
      modifies this
      ensures match Deliver(old(Now()), e)
        case None => pass.None?
        case Some(r) => pass == Some(r.1) && Now() == r.0
    {
      pass := Some(state == InMember);
      match e.kind {
        case OnOpenObject | OnOpenArray =>
          depth := depth + 1;
        case OnCloseObject | OnCloseArray =>
          depth := if depth == 0 then 0xFFFF_FFFF_FFFF_FFFF else depth - 1;
          if depth == 1 {
            state := OutsideMember;
          }
        case OnElementName =>
          if state != InMember && depth == 1 {
            var named := IsMemberName(e.text);
            if named.None? { return None; }
            if named.value {
              state := SeenMemberName;
            }
          }
        case OnDelimiter =>
          if state == SeenMemberName {
            state := InMember;
          }
        case _ =>
          if state == InMember && depth == 1 {
            state := OutsideMember;
          }
      }
    }
  }

  /** Strings come with their quotes. */
  lemma StringsAreQuoted(s: string)
    requires NextToken(s).Got? && NextToken(s).token.kind == String
    ensures
      var text := NextToken(s).token.text;
      |text| >= 2 && text[0] == '"' && text[|text| - 1] == '"'
  {
    EndsInQuote(s[Spaces(s)..], 1);
  }

  lemma {:induction false} EndsInQuote(s: string, at: nat)
    requires 1 <= at <= |s| && StringEnd(s, at).Some?
    ensures StringEnd(s, at).value >= 2 && s[StringEnd(s, at).value - 1] == '"'
    decreases |s| - at
  {
    if !(s[at] == '"' && s[at - 1] != '\\') {
      EndsInQuote(s, at + 1);
    }
  }

  function Prepend(out: string, rest: Option<string>): Option<string> {
    match rest
    case None => None
    case Some(s) => Some(out + s)
  }

  lemma PrependNothing(rest: Option<string>)
    ensures Prepend("", rest) == rest
  {
    assert rest.Some? ==> "" + rest.value == rest.value;
  }

  function NextOf(filter: MemberFilter?): Next
    reads filter
  {
    if filter == null then Writer else filter.Now()
  }

  /** One turn of the run. */
  lemma PipeTurn(next: Next, stack: seq<State>, s: string, out: string)
    ensures NextToken(s).End? ==> Prepend(out, Pipe(next, stack, s)) == Some(out)
    ensures NextToken(s).Abort? ==> Prepend(out, Pipe(next, stack, s)) == None
    ensures NextToken(s).Got? ==>
      match FeedOne(next, stack, NextToken(s).token)
      case None => Prepend(out, Pipe(next, stack, s)) == None
      case Some(one) =>
        Prepend(out, Pipe(next, stack, s)) == Prepend(out + one.out, Pipe(one.next, one.stack, NextToken(s).rest))
  {
    hide NextToken, FeedOne;
    match NextToken(s)
    case Got(t, rest) =>
      match FeedOne(next, stack, t) {
        case Some(one) =>
          var more := Pipe(one.next, one.stack, rest);
          assert more.Some? ==> out + (one.out + more.value) == out + one.out + more.value;
        case _ =>
      }
    case _ =>
      assert out + "" == out;
  }

  /** One token through the handler, the filter if there is one, and the writer; `ok` is false on an abort. */
  method OnToken(t: Token, handler: RawTokenHandler, filter: MemberFilter?, out: BufferOutputStream) returns (ok: bool)
    requires handler.Valid() && out.Valid() && out.used + |t.text| <= out.buffer.size
    requires t.kind == String ==> |t.text| >= 2 && t.text[0] == '"' && t.text[|t.text| - 1] == '"'
    modifies handler.stack, handler.stack.states, filter, out, out.heap, out.heap.chunks
    ensures handler.Valid() && out.Valid() && out.buffer == old(out.buffer)
    ensures out.heap.blocks == old(out.heap.blocks) && out.heap.chunks == old(out.heap.chunks)
    ensures match FeedOne(old(NextOf(filter)), old(handler.stack.Contents()), t)
      case None => !ok
      case Some(one) =>
        && ok && NextOf(filter) == one.next && handler.stack.Contents() == one.stack
        && out.Contents() == old(out.Contents()) + one.out
  {
    hide Step, Deliver;
    NamesAreStrings(handler.stack.Contents(), t);
    var kind := handler.On(t);
    if kind.None? { return false; }
    var pass := Some(true);
    if filter == null {
      WriterPasses(Event(kind.value, t.text));
    } else {
      pass := filter.On(Event(kind.value, t.text));
    }
    if pass.None? { return false; }
    if pass.value {
      out.Write(t.text);
    } else {
      assert out.Contents() + "" == out.Contents();
    }
    ok := true;
  }

  lemma WriterPasses(e: Event)
    ensures Deliver(Writer, e) == Some((Writer, true))
  {
  }

  lemma NamesAreStrings(stack: seq<State>, t: Token)
    ensures Step(stack, t).Some? && Step(stack, t).value.1 == OnElementName ==> t.kind == String
  {
  }

  /** `raw_tokenize` into the handler, through the filter if there is one, into the buffer; `ok` is false where
      the source aborts. The buffer is as long as the text, so it never has to move. */
  method RawTokenize(json: string, handler: RawTokenHandler, filter: MemberFilter?,
      out: BufferOutputStream) returns (ok: bool)
    requires handler.Valid() && out.Valid() && out.used == 0 && out.buffer.size == |json|
    modifies handler.stack, handler.stack.states, filter, out, out.heap, out.heap.chunks
    ensures out.Valid() && out.heap.blocks == old(out.heap.blocks)
    ensures ok == Pipe(old(NextOf(filter)), old(handler.stack.Contents()), json).Some?
    ensures ok ==> out.Contents() == Pipe(old(NextOf(filter)), old(handler.stack.Contents()), json).value
  {
    hide Pipe, NextToken, FeedOne, Step, Deliver, Prepend;
    var tokenizer := new Tokenizer(json);
    ghost var all := Pipe(NextOf(filter), handler.stack.Contents(), json);
    PrependNothing(all);
    assert json[0..] == json && out.Contents() == "";
    while true
      invariant handler.Valid() && tokenizer.Valid() && out.Valid()
      invariant out.used <= tokenizer.p && out.buffer.size == |json|
      invariant all == Prepend(out.Contents(), Pipe(NextOf(filter), handler.stack.Contents(), json[tokenizer.p..]))
      invariant out.heap.blocks == old(out.heap.blocks) && out.heap.chunks == old(out.heap.chunks)
      decreases |json| - tokenizer.p
    {
      ghost var rest := json[tokenizer.p..];
      PipeTurn(NextOf(filter), handler.stack.Contents(), rest, out.Contents());
      var turn := tokenizer.Next();
      match turn
      case End => return true;
      case Abort => return false;
      case Got(token, _) =>
        if token.kind == String { StringsAreQuoted(rest); }
        ok := OnToken(token, handler, filter, out);
        if !ok { return; }
    }
  }

  /** `validate_and_normalise`; None is an abort. */
  method ValidateAndNormalise(heap: VmHeap, json: string) returns (r: Option<string>)
    requires heap.Valid()
    modifies heap, heap.chunks
    ensures heap.Valid() && r == Normalised(json)
    ensures |heap.blocks| == |old(heap.blocks)| + 1 && old(heap.blocks) <= heap.blocks
  {
    var out := new BufferOutputStream(heap, |json|);
    var handler := new RawTokenHandler();
    var ok := RawTokenize(json, handler, null, out);
    if !ok { return None; }
    var text := out.Read();
    r := Some(text);
  }

  /** `get_member`; None is an abort. */
  method GetMember(heap: VmHeap, json: string, memberName: string) returns (r: Option<string>)
    requires heap.Valid()
    modifies heap, heap.chunks
    ensures heap.Valid() && r == MemberOf(json, memberName)
    ensures |heap.blocks| == |old(heap.blocks)| + 1 && old(heap.blocks) <= heap.blocks
  {
    var out := new BufferOutputStream(heap, |json|);
    var filter := new MemberFilter(memberName);
    var handler := new RawTokenHandler();
    var ok := RawTokenize(json, handler, filter, out);
    if !ok { return None; }
    var text := out.Read();
    r := Some(text);
  }
}
