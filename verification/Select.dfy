/** do_compile_select of np1/rel/rlang/compiler.hpp: the output columns of a select may refer through `prev.`
    to each other, so their types are worked out in passes. */
module Select {
  import opened Wrappers
  import opened DataTypes
  import opened Tokens
  import opened FnTable
  import opened ShuntingYard
  import opened Headings
  import opened CompilerSpec
  import opened SelectCongruence
  import opened StableOrder
  import HeadingTexts
  import Variables

  /** expression_info: the parsed expression and the heading name given to it. */
  datatype Column = Column(postfix: seq<ParsedToken>, heading: string)

  predicate IsTagged(c: Column) {
    TypeTag(c.heading).Some?
  }

  /** What other columns refer to the column by. */
  function Name(c: Column): string {
    if IsTagged(c) then WithoutTypeTag(c.heading) else c.heading
  }

  /** Distinct names, none of which looks like a tagged heading itself. */
  predicate PlainNames(cols: seq<Column>) {
    && (forall i :: 0 <= i < |cols| ==> Name(cols[i]) != "" && WithoutTypeTag(Name(cols[i])) == Name(cols[i]))
    && (forall i, j :: 0 <= i < j < |cols| ==> Name(cols[i]) != Name(cols[j]))
  }

  /** `in_typed_output_headings`. */
  predicate Known(typed: seq<string>, name: string) {
    exists k :: 0 <= k < |typed| && WithoutTypeTag(typed[k]) == name
  }

  predicate TokenKnown(pt: ParsedToken, typed: seq<string>) {
    pt.tok.kind.Variable? ==>
      match GetRecordIdentifier(pt.tok.text)
      case None => false
      case Some(reference) => reference.isThis || Known(typed, reference.name)
  }

  /** `refers_only_to_known_output_headings`. */
  predicate RefersOnlyToKnown(postfix: seq<ParsedToken>, typed: seq<string>) {
    forall k :: 0 <= k < |postfix| ==> TokenKnown(postfix[k], typed)
  }

  predicate TokenRefers(pt: ParsedToken, name: string) {
    pt.tok.kind.Variable? && GetRecordIdentifier(pt.tok.text) == Some(Reference(false, name))
  }

  /** The column refers through `prev.` to the name. */
  predicate Refers(c: Column, name: string) {
    exists k :: 0 <= k < |c.postfix| && TokenRefers(c.postfix[k], name)
  }

  /** The heading the column ends up with when its expression has type `t`. */
  predicate HeadingFits(c: Column, heading: string, t: DataType) {
    if IsTagged(c) then heading == c.heading && TypeFromName(TypeTag(c.heading).value).Some?
    else heading == MakeTypedHeading(t, c.heading)
  }

  /** The expression compiles against the headings, giving the column a heading that fits. */
  predicate Compiles(table: Table, thisHeadings: seq<string>, c: Column, typed: seq<string>, heading: string) {
    var u := CompilePostfix(Env(table, thisHeadings, typed), c.postfix);
    u.Some? && HeadingFits(c, heading, u.value.sim[0])
  }

  predicate TypedAt(table: Table, thisHeadings: seq<string>, cols: seq<Column>, typed: seq<string>, rank: seq<nat>,
      i: nat)
    requires |typed| == |rank| == |cols| && i < |cols|
  {
    && RefersOnlyToKnown(cols[i].postfix, typed)
    && Compiles(table, thisHeadings, cols[i], typed, typed[i])
    && forall j :: 0 <= j < |cols| && !IsTagged(cols[j]) && Refers(cols[i], Name(cols[j])) ==> rank[j] < rank[i]
  }

  /** A typing of all columns: each compiles against the typed headings, and no column needs the type of an
      untagged column that is not ranked before it. */
  predicate Typing(table: Table, thisHeadings: seq<string>, cols: seq<Column>, typed: seq<string>, rank: seq<nat>) {
    && |typed| == |rank| == |cols|
    && forall i :: 0 <= i < |cols| ==> TypedAt(table, thisHeadings, cols, typed, rank, i)
  }

  // --- Headings. ---

  /** Every heading worked out so far carries its column's name. */
  predicate Named(cols: seq<Column>, typed: seq<string>) {
    && |typed| == |cols|
    && forall k :: 0 <= k < |typed| ==> typed[k] == "" || WithoutTypeTag(typed[k]) == Name(cols[k])
  }

  lemma {:induction false} FirstColon(prefix: string, rest: string)
    requires ':' !in prefix
    ensures IndexOf(prefix + ":" + rest, ':') == Some(|prefix|)
  {
    var s := prefix + ":" + rest;
    if prefix != "" {
      FirstColon(prefix[1..], rest);
      assert s[1..] == prefix[1..] + ":" + rest && prefix[0] in prefix;
    }
  }

  lemma FitKeepsName(c: Column, heading: string, t: DataType)
    requires HeadingFits(c, heading, t) && Name(c) != ""
    ensures heading != "" && WithoutTypeTag(heading) == Name(c)
  {
    if !IsTagged(c) {
      assert ':' !in TypeName(t);
      FirstColon(TypeName(t), c.heading);
      assert heading[|TypeName(t)| + 1..] == c.heading;
    }
  }

  /** A name of a column that has a heading is found at that column. */
  lemma {:induction false} FindNamed(cols: seq<Column>, typed: seq<string>, k: nat, from: nat)
    requires PlainNames(cols) && Named(cols, typed) && from <= k < |cols| && typed[k] != ""
    ensures FindHeadingFrom(typed, from, Name(cols[k])) == Some(k)
    decreases k - from
  {
    hide Name, WithoutTypeTag;
    assert WithoutTypeTag("") == "" by { EmptyHasNoTag(); }
    if from < k {
      FindNamed(cols, typed, k, from + 1);
    }
  }

  lemma EmptyHasNoTag()
    ensures WithoutTypeTag("") == "" && HeadingType("").None?
  {
  }

  /** What is known under a name other than the empty one is one column. */
  lemma KnownColumn(cols: seq<Column>, typed: seq<string>, name: string) returns (k: nat)
    requires PlainNames(cols) && Named(cols, typed) && Known(typed, name) && name != ""
    ensures k < |cols| && Name(cols[k]) == name && typed[k] != "" && FindHeading(typed, name) == Some(k)
  {
    EmptyHasNoTag();
    k :| 0 <= k < |typed| && WithoutTypeTag(typed[k]) == name;
    FindNamed(cols, typed, k, 0);
  }

  /** Nothing can be read through the empty name. */
  lemma {:induction false} EmptyName(cols: seq<Column>, typed: seq<string>, from: nat)
    requires PlainNames(cols) && Named(cols, typed) && from <= |typed|
    ensures FindHeadingFrom(typed, from, "").Some? ==> typed[FindHeadingFrom(typed, from, "").value] == ""
    decreases |typed| - from
  {
    hide Name, WithoutTypeTag;
    EmptyHasNoTag();
    if from < |typed| { EmptyName(cols, typed, from + 1); }
  }

  // --- Compiling a column depends only on the headings it refers to. ---

  /** The headings agree wherever the column refers to. */
  predicate AgreeFor(c: Column, cols: seq<Column>, t1: seq<string>, t2: seq<string>)
    requires |t1| == |t2| == |cols|
  {
    forall k :: 0 <= k < |cols| && Refers(c, Name(cols[k])) && t1[k] != "" ==> t1[k] == t2[k]
  }

  lemma ResolveAgrees(table: Table, thisHeadings: seq<string>, c: Column, cols: seq<Column>, t1: seq<string>,
      t2: seq<string>, k: nat)
    requires PlainNames(cols) && Named(cols, t1) && Named(cols, t2) && AgreeFor(c, cols, t1, t2)
    requires RefersOnlyToKnown(c.postfix, t1) && k < |c.postfix| && c.postfix[k].tok.kind.Variable?
    ensures var text := c.postfix[k].tok.text;
            ResolveVariable(Env(table, thisHeadings, t1), text) == ResolveVariable(Env(table, thisHeadings, t2), text)
  {
    hide Name, WithoutTypeTag, HeadingType, GetRecordIdentifier, FindHeadingFrom;
    assert TokenKnown(c.postfix[k], t1);
    var reference := GetRecordIdentifier(c.postfix[k].tok.text).value;
    if !reference.isThis {
      assert TokenRefers(c.postfix[k], reference.name);
      if reference.name == "" {
        EmptyHasNoTag();
        EmptyName(cols, t1, 0);
        EmptyName(cols, t2, 0);
      } else {
        var j := KnownColumn(cols, t1, reference.name);
        FindNamed(cols, t2, j, 0);
      }
    }
  }

  lemma CompileAgrees(table: Table, thisHeadings: seq<string>, c: Column, cols: seq<Column>, t1: seq<string>,
      t2: seq<string>)
    requires PlainNames(cols) && Named(cols, t1) && Named(cols, t2) && AgreeFor(c, cols, t1, t2)
    requires RefersOnlyToKnown(c.postfix, t1)
    ensures CompilePostfix(Env(table, thisHeadings, t1), c.postfix)
        == CompilePostfix(Env(table, thisHeadings, t2), c.postfix)
  {
    hide ResolveVariable, CompilePostfix, RefersOnlyToKnown, AgreeFor, Named, PlainNames;
    forall k | 0 <= k < |c.postfix| && c.postfix[k].tok.kind.Variable?
      ensures SameVariable(true, ResolveVariable(Env(table, thisHeadings, t1), c.postfix[k].tok.text),
                           ResolveVariable(Env(table, thisHeadings, t2), c.postfix[k].tok.text))
    {
      ResolveAgrees(table, thisHeadings, c, cols, t1, t2, k);
    }
    CompileCongruence(true, Env(table, thisHeadings, t1), Env(table, thisHeadings, t2), c.postfix);
  }

  // --- The state of the inference. ---

  /** What has been worked out so far. `rank` numbers the columns in the order they were completed; the
      source does not keep it. */
  datatype Progress = Progress(typed: seq<string>, units: seq<Option<CompileUnit>>, complete: seq<bool>, rank: seq<nat>)

  function Count(b: seq<bool>): (n: nat)
    ensures n <= |b|
  {
    if b == [] then 0 else (if b[0] then 1 else 0) + Count(b[1..])
  }

  lemma {:induction false} CountSet(b: seq<bool>, i: nat)
    requires i < |b| && !b[i]
    ensures Count(b[i := true]) == Count(b) + 1
  {
    if i == 0 {
      assert b[0 := true][1..] == b[1..];
    } else {
      CountSet(b[1..], i - 1);
      assert b[i := true][1..] == b[1..][i - 1 := true];
    }
  }

  predicate Done(table: Table, thisHeadings: seq<string>, cols: seq<Column>, s: Progress, i: nat)
    requires |s.typed| == |s.units| == |s.complete| == |s.rank| == |cols| && i < |cols|
  {
    && s.units[i].Some? && s.units[i] == CompilePostfix(Env(table, thisHeadings, s.typed), cols[i].postfix)
    && RefersOnlyToKnown(cols[i].postfix, s.typed)
    && HeadingFits(cols[i], s.typed[i], s.units[i].value.sim[0])
    && s.rank[i] < Count(s.complete)
    && forall j :: 0 <= j < |cols| && !IsTagged(cols[j]) && Refers(cols[i], Name(cols[j])) ==>
      s.complete[j] && s.rank[j] < s.rank[i]
  }

  predicate ConsistentAt(table: Table, thisHeadings: seq<string>, cols: seq<Column>, s: Progress, i: nat)
    requires |s.typed| == |s.units| == |s.complete| == |s.rank| == |cols| && i < |cols|
  {
    && (IsTagged(cols[i]) ==> s.typed[i] == cols[i].heading && TypeFromName(TypeTag(cols[i].heading).value).Some?)
    && (!IsTagged(cols[i]) && !s.complete[i] ==> s.typed[i] == "")
    && (s.complete[i] ==> Done(table, thisHeadings, cols, s, i))
  }

  predicate Consistent(table: Table, thisHeadings: seq<string>, cols: seq<Column>, s: Progress) {
    && Named(cols, s.typed) && |s.units| == |s.complete| == |s.rank| == |cols|
    && forall i :: 0 <= i < |cols| ==> ConsistentAt(table, thisHeadings, cols, s, i)
  }

  /** The heading of a column whose expression has been compiled. */
  function Headed(c: Column, typed: string, t: DataType): string {
    if typed == "" then MakeTypedHeading(t, c.heading) else typed
  }

  function Completed(cols: seq<Column>, s: Progress, i: nat, u: CompileUnit): Progress
    requires |s.typed| == |s.units| == |s.complete| == |s.rank| == |cols| && i < |cols| && |u.sim| > 0
  {
    Progress(s.typed[i := Headed(cols[i], s.typed[i], u.sim[0])], s.units[i := Some(u)], s.complete[i := true],
          s.rank[i := Count(s.complete)])
  }

  /** A compiled column does not refer to the empty name. */
  lemma NoEmptyReference(table: Table, thisHeadings: seq<string>, cols: seq<Column>, typed: seq<string>, c: Column,
      k: nat)
    requires PlainNames(cols) && Named(cols, typed) && k < |c.postfix| && c.postfix[k].tok.kind.Variable?
    requires CompilePostfix(Env(table, thisHeadings, typed), c.postfix).Some?
    ensures GetRecordIdentifier(c.postfix[k].tok.text) != Some(Reference(false, ""))
  {
    var env, text := Env(table, thisHeadings, typed), c.postfix[k].tok.text;
    if GetRecordIdentifier(text) == Some(Reference(false, "")) {
      PlainWordsAreThis(text);
      RangeResolved(env, c.postfix, 0, |c.postfix|, EMPTY_UNIT);
      assert ResolvedAt(env, c.postfix[k]);
      EmptyName(cols, typed, 0);
      EmptyHasNoTag();
    }
  }

  lemma PlainWordsAreThis(text: string)
    ensures text == "then" || text == "else" ==> GetRecordIdentifier(text) == Some(Reference(true, text))
  {
    if text == "then" || text == "else" {
      assert '.' !in text;
    }
  }

  /** Once a heading has been filled in, what was known stays known. */
  lemma KnownGrows(table: Table, thisHeadings: seq<string>, cols: seq<Column>, typed: seq<string>, c: Column, i: nat,
      heading: string)
    requires PlainNames(cols) && Named(cols, typed) && i < |cols| && (typed[i] == "" || typed[i] == heading)
    requires RefersOnlyToKnown(c.postfix, typed) && CompilePostfix(Env(table, thisHeadings, typed), c.postfix).Some?
    ensures RefersOnlyToKnown(c.postfix, typed[i := heading])
  {
    hide CompilePostfix, WithoutTypeTag, GetRecordIdentifier, PlainNames;
    forall k | 0 <= k < |c.postfix| ensures TokenKnown(c.postfix[k], typed[i := heading]) {
      assert TokenKnown(c.postfix[k], typed);
      if c.postfix[k].tok.kind.Variable? {
        var reference := GetRecordIdentifier(c.postfix[k].tok.text).value;
        if !reference.isThis {
          NoEmptyReference(table, thisHeadings, cols, typed, c, k);
          EmptyHasNoTag();
          var j :| 0 <= j < |typed| && WithoutTypeTag(typed[j]) == reference.name;
          assert typed[i := heading][j] == typed[j];
        }
      }
    }
  }

  /** Completing a column keeps everything worked out before. */
  lemma CompleteKeeps(table: Table, thisHeadings: seq<string>, cols: seq<Column>, s: Progress, i: nat, u: CompileUnit)
    requires PlainNames(cols) && Consistent(table, thisHeadings, cols, s) && i < |cols| && !s.complete[i]
    requires RefersOnlyToKnown(cols[i].postfix, s.typed)
    requires CompilePostfix(Env(table, thisHeadings, s.typed), cols[i].postfix) == Some(u) && |u.sim| == 1
    ensures Consistent(table, thisHeadings, cols, Completed(cols, s, i, u))
    ensures s.typed[i] == "" || Completed(cols, s, i, u).typed[i] == s.typed[i]
  {
    hide CompilePostfix, RefersOnlyToKnown, Refers, PlainNames, Done, WithoutTypeTag, Name;
    var s' := Completed(cols, s, i, u);
    CompletedFits(table, thisHeadings, cols, s, i, u);
    CountSet(s.complete, i);
    forall j | 0 <= j < |cols| ensures ConsistentAt(table, thisHeadings, cols, s', j) {
      assert ConsistentAt(table, thisHeadings, cols, s, j);
      if j == i {
        CompletedDone(table, thisHeadings, cols, s, i, u);
      } else if s.complete[j] {
        DoneStays(table, thisHeadings, cols, s, i, u, j);
      }
    }
  }

  lemma CompletedFits(table: Table, thisHeadings: seq<string>, cols: seq<Column>, s: Progress, i: nat, u: CompileUnit)
    requires PlainNames(cols) && Consistent(table, thisHeadings, cols, s) && i < |cols| && !s.complete[i]
    requires |u.sim| == 1
    ensures var s' := Completed(cols, s, i, u);
            && HeadingFits(cols[i], s'.typed[i], u.sim[0]) && Named(cols, s'.typed)
            && (s.typed[i] == "" || s'.typed[i] == s.typed[i])
  {
    hide Done, WithoutTypeTag, TypeTag;
    assert ConsistentAt(table, thisHeadings, cols, s, i);
    var s' := Completed(cols, s, i, u);
    if IsTagged(cols[i]) { TaggedNotEmpty(cols[i]); }
    FitKeepsName(cols[i], s'.typed[i], u.sim[0]);
  }

  lemma TaggedNotEmpty(c: Column)
    requires IsTagged(c)
    ensures c.heading != ""
  {
  }

  lemma FilledAgrees(c: Column, cols: seq<Column>, typed: seq<string>, i: nat, heading: string)
    requires |typed| == |cols| && i < |cols| && (typed[i] == "" || typed[i] == heading)
    ensures AgreeFor(c, cols, typed, typed[i := heading])
  {
  }

  lemma CompletedDone(table: Table, thisHeadings: seq<string>, cols: seq<Column>, s: Progress, i: nat, u: CompileUnit)
    requires PlainNames(cols) && Consistent(table, thisHeadings, cols, s) && i < |cols| && !s.complete[i]
    requires RefersOnlyToKnown(cols[i].postfix, s.typed)
    requires CompilePostfix(Env(table, thisHeadings, s.typed), cols[i].postfix) == Some(u) && |u.sim| == 1
    requires Named(cols, Completed(cols, s, i, u).typed)
    requires HeadingFits(cols[i], Completed(cols, s, i, u).typed[i], u.sim[0])
    requires s.typed[i] == "" || Completed(cols, s, i, u).typed[i] == s.typed[i]
    ensures Done(table, thisHeadings, cols, Completed(cols, s, i, u), i)
  {
    hide CompilePostfix, HeadingFits, PlainNames, RefersOnlyToKnown, WithoutTypeTag, AgreeFor, ConsistentAt, Headed,
        Refers;
    var s' := Completed(cols, s, i, u);
    FilledAgrees(cols[i], cols, s.typed, i, s'.typed[i]);
    CompileAgrees(table, thisHeadings, cols[i], cols, s.typed, s'.typed);
    KnownGrows(table, thisHeadings, cols, s.typed, cols[i], i, s'.typed[i]);
    CountSet(s.complete, i);
    forall j | 0 <= j < |cols| && !IsTagged(cols[j]) && Refers(cols[i], Name(cols[j]))
      ensures s'.complete[j] && s'.rank[j] < s'.rank[i]
    {
      ReferredIsDone(table, thisHeadings, cols, s, i, j);
    }
  }

  lemma ReferredIsDone(table: Table, thisHeadings: seq<string>, cols: seq<Column>, s: Progress, i: nat, j: nat)
    requires PlainNames(cols) && Consistent(table, thisHeadings, cols, s) && i < |cols| && j < |cols|
    requires RefersOnlyToKnown(cols[i].postfix, s.typed) && !IsTagged(cols[j]) && Refers(cols[i], Name(cols[j]))
    ensures s.complete[j] && s.rank[j] < Count(s.complete)
  {
    hide CompilePostfix, HeadingFits, WithoutTypeTag;
    var k :| 0 <= k < |cols[i].postfix| && TokenRefers(cols[i].postfix[k], Name(cols[j]));
    assert TokenKnown(cols[i].postfix[k], s.typed);
    var j' := KnownColumn(cols, s.typed, Name(cols[j]));
    assert j' == j;
    assert ConsistentAt(table, thisHeadings, cols, s, j);
  }

  lemma DoneStays(table: Table, thisHeadings: seq<string>, cols: seq<Column>, s: Progress, i: nat, u: CompileUnit,
      j: nat)
    requires PlainNames(cols) && Consistent(table, thisHeadings, cols, s) && i < |cols| && !s.complete[i]
    requires |u.sim| == 1
    requires Named(cols, Completed(cols, s, i, u).typed)
    requires (s.typed[i] == "" || Completed(cols, s, i, u).typed[i] == s.typed[i])
    requires j < |cols| && j != i && s.complete[j] && Done(table, thisHeadings, cols, s, j)
    ensures Done(table, thisHeadings, cols, Completed(cols, s, i, u), j)
  {
    hide CompilePostfix, HeadingFits, PlainNames, RefersOnlyToKnown, Refers, WithoutTypeTag, AgreeFor, IsTagged,
        ConsistentAt, Headed;
    var s' := Completed(cols, s, i, u);
    FilledAgrees(cols[j], cols, s.typed, i, s'.typed[i]);
    CompileAgrees(table, thisHeadings, cols[j], cols, s.typed, s'.typed);
    KnownGrows(table, thisHeadings, cols, s.typed, cols[j], i, s'.typed[i]);
    CountSet(s.complete, i);
    assert s'.typed[j] == s.typed[j] && s'.units[j] == s.units[j];
  }

  // --- Every typing forces the headings that are worked out. ---

  predicate Agrees(typed: seq<string>, final: seq<string>) {
    |typed| == |final| && forall k :: 0 <= k < |typed| ==> typed[k] == "" || typed[k] == final[k]
  }

  lemma TypingNamed(table: Table, thisHeadings: seq<string>, cols: seq<Column>, final: seq<string>, rank: seq<nat>)
    requires PlainNames(cols) && Typing(table, thisHeadings, cols, final, rank)
    ensures Named(cols, final) && forall k :: 0 <= k < |final| ==> final[k] != ""
  {
    hide CompilePostfix, RefersOnlyToKnown, Refers, HeadingFits, WithoutTypeTag;
    forall k | 0 <= k < |cols| ensures final[k] != "" && WithoutTypeTag(final[k]) == Name(cols[k]) {
      assert TypedAt(table, thisHeadings, cols, final, rank, k);
      var u := CompilePostfix(Env(table, thisHeadings, final), cols[k].postfix).value;
      OneResult(Env(table, thisHeadings, final), cols[k].postfix);
      FitKeepsName(cols[k], final[k], u.sim[0]);
    }
  }

  /** A column that can be compiled now compiles as in any typing of the whole, to the same heading. */
  lemma ForcedStep(table: Table, thisHeadings: seq<string>, cols: seq<Column>, s: Progress, i: nat, final: seq<string>,
      rank: seq<nat>)
    requires PlainNames(cols) && Consistent(table, thisHeadings, cols, s) && i < |cols| && !s.complete[i]
    requires Typing(table, thisHeadings, cols, final, rank) && Agrees(s.typed, final)
    requires RefersOnlyToKnown(cols[i].postfix, s.typed)
    ensures var u := CompilePostfix(Env(table, thisHeadings, s.typed), cols[i].postfix);
            u.Some? && Headed(cols[i], s.typed[i], u.value.sim[0]) == final[i]
  {
    hide CompilePostfix, RefersOnlyToKnown, Refers, WithoutTypeTag, Done, TypeTag;
    TypingNamed(table, thisHeadings, cols, final, rank);
    CompileAgrees(table, thisHeadings, cols[i], cols, s.typed, final);
    assert TypedAt(table, thisHeadings, cols, final, rank, i);
    assert ConsistentAt(table, thisHeadings, cols, s, i);
    if IsTagged(cols[i]) { TaggedNotEmpty(cols[i]); }
  }

  ghost predicate Forced(table: Table, thisHeadings: seq<string>, cols: seq<Column>, s: Progress) {
    forall final, rank :: Typing(table, thisHeadings, cols, final, rank) ==> Agrees(s.typed, final)
  }

  lemma CompleteForced(table: Table, thisHeadings: seq<string>, cols: seq<Column>, s: Progress, i: nat, u: CompileUnit)
    requires PlainNames(cols) && Consistent(table, thisHeadings, cols, s) && Forced(table, thisHeadings, cols, s)
    requires i < |cols| && !s.complete[i] && RefersOnlyToKnown(cols[i].postfix, s.typed)
    requires CompilePostfix(Env(table, thisHeadings, s.typed), cols[i].postfix) == Some(u) && |u.sim| == 1
    ensures Forced(table, thisHeadings, cols, Completed(cols, s, i, u))
  {
    hide CompilePostfix, RefersOnlyToKnown, Typing, ConsistentAt, Headed;
    forall final, rank | Typing(table, thisHeadings, cols, final, rank) ensures Agrees(Completed(cols, s, i, u).typed,
      final) {
      ForcedStep(table, thisHeadings, cols, s, i, final, rank);
    }
  }

  /** While some column is not complete and there is a typing, the lowest such column can be compiled. */
  lemma LowestIsReady(table: Table, thisHeadings: seq<string>, cols: seq<Column>, s: Progress, i: nat,
      final: seq<string>, rank: seq<nat>)
    requires PlainNames(cols) && Consistent(table, thisHeadings, cols, s)
    requires Typing(table, thisHeadings, cols, final, rank)
    requires i < |cols| && forall j :: 0 <= j < |cols| && !s.complete[j] ==> rank[i] <= rank[j]
    ensures RefersOnlyToKnown(cols[i].postfix, s.typed)
  {
    hide CompilePostfix, WithoutTypeTag, GetRecordIdentifier, HeadingFits, IsTagged, Name;
    TypingNamed(table, thisHeadings, cols, final, rank);
    assert TypedAt(table, thisHeadings, cols, final, rank, i);
    forall k | 0 <= k < |cols[i].postfix| ensures TokenKnown(cols[i].postfix[k], s.typed) {
      var pt := cols[i].postfix[k];
      assert TokenKnown(pt, final);
      if pt.tok.kind.Variable? && !GetRecordIdentifier(pt.tok.text).value.isThis {
        var name := GetRecordIdentifier(pt.tok.text).value.name;
        var j :| 0 <= j < |final| && WithoutTypeTag(final[j]) == name;
        assert TokenRefers(pt, Name(cols[j]));
        assert Refers(cols[i], Name(cols[j]));
        HasHeading(table, thisHeadings, cols, s, j);
      }
    }
  }

  lemma HasHeading(table: Table, thisHeadings: seq<string>, cols: seq<Column>, s: Progress, j: nat)
    requires PlainNames(cols) && Consistent(table, thisHeadings, cols, s) && j < |cols|
    requires (IsTagged(cols[j]) || s.complete[j])
    ensures s.typed[j] != "" && WithoutTypeTag(s.typed[j]) == Name(cols[j])
  {
    hide CompilePostfix, WithoutTypeTag, RefersOnlyToKnown, Refers, TypeTag;
    assert ConsistentAt(table, thisHeadings, cols, s, j);
    if s.complete[j] {
      OneResult(Env(table, thisHeadings, s.typed), cols[j].postfix);
      FitKeepsName(cols[j], s.typed[j], s.units[j].value.sim[0]);
    } else {
      TaggedNotEmpty(cols[j]);
    }
  }

  lemma LowestIncomplete(complete: seq<bool>, rank: seq<nat>, i: nat) returns (low: nat)
    requires |complete| == |rank| && i < |complete| && !complete[i]
    ensures low < |complete| && !complete[low] && forall j :: 0 <= j < |complete| && !complete[j] ==>
        rank[low] <= rank[j]
  {
    low := i;
    for k := 0 to |complete|
      invariant low < |complete| && !complete[low] && forall j :: 0 <= j < k && !complete[j] ==> rank[low] <= rank[j]
    {
      if !complete[k] && rank[k] < rank[low] { low := k; }
    }
  }

  // --- The passes. ---

  /** None where the source aborts: a variable with a prefix that names no record. */
  method RefersOnlyToKnownOutputHeadings(postfix: seq<ParsedToken>, typed: seq<string>) returns (r: Option<bool>)
    ensures r.Some? ==> (r.value <==> RefersOnlyToKnown(postfix, typed))
    ensures r.None? ==> forall other :: !RefersOnlyToKnown(postfix, other)
  {
    hide GetRecordIdentifier, Known;
    var i := 0;
    while i < |postfix|
      invariant 0 <= i <= |postfix| && forall k :: 0 <= k < i ==> TokenKnown(postfix[k], typed)
    {
      if postfix[i].tok.kind.Variable? {
        var reference := GetRecordIdentifier(postfix[i].tok.text);
        if reference.None? {
          forall other ensures !RefersOnlyToKnown(postfix, other) {
            assert !TokenKnown(postfix[i], other);
          }
          return None;
        }
        if !reference.value.isThis {
          var known := InTypedOutputHeadings(typed, reference.value.name);
          if !known {
            assert !TokenKnown(postfix[i], typed);
            return Some(false);
          }
        }
      }
      i := i + 1;
    }
    r := Some(true);
  }

  method InTypedOutputHeadings(typed: seq<string>, name: string) returns (r: bool)
    ensures r == Known(typed, name)
  {
    hide WithoutTypeTag;
    var i := 0;
    while i < |typed|
      invariant 0 <= i <= |typed| && forall k :: 0 <= k < i ==> WithoutTypeTag(typed[k]) != name
    {
      if WithoutTypeTag(typed[i]) == name { return true; }
      i := i + 1;
    }
    r := false;
  }

  ghost predicate NoTyping(table: Table, thisHeadings: seq<string>, cols: seq<Column>) {
    forall final, rank :: !Typing(table, thisHeadings, cols, final, rank)
  }

  ghost predicate Sound(table: Table, thisHeadings: seq<string>, cols: seq<Column>, s: Progress) {
    Consistent(table, thisHeadings, cols, s) && Forced(table, thisHeadings, cols, s)
  }

  lemma NoTypingBecause(table: Table, thisHeadings: seq<string>, cols: seq<Column>, s: Progress, i: nat)
    requires PlainNames(cols) && Sound(table, thisHeadings, cols, s) && i < |cols| && !s.complete[i]
    requires (forall other :: !RefersOnlyToKnown(cols[i].postfix, other))
          || (RefersOnlyToKnown(cols[i].postfix, s.typed) && CompilePostfix(Env(table, thisHeadings, s.typed),
          cols[i].postfix).None?)
    ensures NoTyping(table, thisHeadings, cols)
  {
    hide CompilePostfix, RefersOnlyToKnown, Consistent;
    forall final, rank ensures !Typing(table, thisHeadings, cols, final, rank) {
      if Typing(table, thisHeadings, cols, final, rank) {
        assert TypedAt(table, thisHeadings, cols, final, rank, i);
        ForcedStep(table, thisHeadings, cols, s, i, final, rank);
      }
    }
  }

  /** One pass over the columns. `ok` is false where the source aborts; then there is no typing. */
  method Pass(table: Table, thisHeadings: seq<string>, cols: seq<Column>, s0: Progress)
    returns (ok: bool, s: Progress, allComplete: bool, madeProgress: bool)
    requires PlainNames(cols) && Sound(table, thisHeadings, cols, s0)
    ensures !ok ==> NoTyping(table, thisHeadings, cols)
    ensures ok ==> Sound(table, thisHeadings, cols, s) && |s.complete| == |cols|
    ensures ok ==> (allComplete <==> forall i :: 0 <= i < |cols| ==> s.complete[i])
    ensures ok && madeProgress ==> Count(s.complete) > Count(s0.complete)
    ensures ok && !madeProgress ==> s == s0 && forall i :: 0 <= i < |cols| && !s.complete[i] ==>
        !RefersOnlyToKnown(cols[i].postfix, s.typed)
  {
    hide CompilePostfix, RefersOnlyToKnown, ConsistentAt, Forced, PlainNames, Headed;
    s, allComplete, madeProgress := s0, true, false;
    ghost var left := 0;
    var i := 0;
    while i < |cols|
      invariant 0 <= i <= |cols| && Sound(table, thisHeadings, cols, s)
      invariant allComplete ==> forall k :: 0 <= k < i ==> s.complete[k]
      invariant !allComplete ==> 0 <= left < i && !s.complete[left]
      invariant if madeProgress then Count(s.complete) > Count(s0.complete) else s == s0
      invariant !madeProgress ==> forall k :: 0 <= k < i && !s.complete[k] ==>
          !RefersOnlyToKnown(cols[k].postfix, s.typed)
    {
      if !s.complete[i] {
        var known := RefersOnlyToKnownOutputHeadings(cols[i].postfix, s.typed);
        if known.None? {
          NoTypingBecause(table, thisHeadings, cols, s, i);
          return false, s, allComplete, madeProgress;
        }
        if known.value {
          var u := CompilePostfix(Env(table, thisHeadings, s.typed), cols[i].postfix);
          if u.None? {
            NoTypingBecause(table, thisHeadings, cols, s, i);
            return false, s, allComplete, madeProgress;
          }
          OneResult(Env(table, thisHeadings, s.typed), cols[i].postfix);
          CompleteKeeps(table, thisHeadings, cols, s, i, u.value);
          CompleteForced(table, thisHeadings, cols, s, i, u.value);
          CountSet(s.complete, i);
          s := Completed(cols, s, i, u.value);
          madeProgress := true;
        } else {
          allComplete := false;
          left := i;
        }
      }
      i := i + 1;
    }
    ok := true;
  }

  lemma OneResult(env: Env, toks: seq<ParsedToken>)
    requires CompilePostfix(env, toks).Some?
    ensures |CompilePostfix(env, toks).value.sim| == 1
  {
  }

  datatype SelectResult =
    | Typed(units: seq<CompileUnit>, headings: seq<string>)
    | Underivable
    | Abort

  /** Columns that wait for each other: each refers to a name no column has, or to an untagged one of them. */
  ghost predicate Stuck(cols: seq<Column>, waiting: set<nat>) {
    && waiting != {}
    && forall i :: i in waiting ==> i < |cols| && (RefersToMissing(cols, cols[i]) || WaitsFor(cols, cols[i], waiting))
  }

  predicate RefersToMissing(cols: seq<Column>, c: Column) {
    exists k :: 0 <= k < |c.postfix| && TokenMissing(cols, c.postfix[k])
  }

  predicate TokenMissing(cols: seq<Column>, pt: ParsedToken) {
    pt.tok.kind.Variable? &&
      match GetRecordIdentifier(pt.tok.text)
      case None => true
      case Some(reference) => !reference.isThis && forall j :: 0 <= j < |cols| ==> Name(cols[j]) != reference.name
  }

  ghost predicate WaitsFor(cols: seq<Column>, c: Column, waiting: set<nat>) {
    exists j :: j in waiting && j < |cols| && !IsTagged(cols[j]) && Refers(c, Name(cols[j]))
  }

  /** A column named without a tag gets the text of the type its expression leaves, a colon and its name; any other
      heading is the one given, and starts with the text of a type. */
  predicate HeadingsShowTypes(cols: seq<Column>, units: seq<CompileUnit>, headings: seq<string>)
    requires |cols| == |units| == |headings|
  {
    forall i :: 0 <= i < |cols| ==>
      && |units[i].sim| == 1
      && if HeadingTexts.IsTagged(cols[i].heading) then
           headings[i] == cols[i].heading && exists t :: HeadingTexts.HasType(headings[i], t)
         else
           HeadingTexts.IsTypedHeading(headings[i], units[i].sim[0], cols[i].heading)
           && HeadingType(headings[i]) == Some(units[i].sim[0])
  }

  /** The column is a single reference to the column of that name in the previous record. */
  predicate IsPrevious(c: Column, name: string) {
    && |c.postfix| == 1 && c.postfix[0] == Plain(c.postfix[0].tok) && c.postfix[0].tok.kind == Variable
    && c.postfix[0].tok.text == "prev." + name
  }

  /** Column `j`, when it is such a reference to the name that heading `i` carries, has the type that heading starts
      with. */
  predicate PreviousAt(cols: seq<Column>, units: seq<CompileUnit>, headings: seq<string>, i: nat, j: nat, t: DataType,
      name: string)
    requires |cols| == |units| == |headings|
  {
    i < |cols| && j < |cols| && IsPrevious(cols[j], name) && name != "_rownum" && !HeadingTexts.IsTagged(name)
    && HeadingTexts.HasType(headings[i], t) && HeadingTexts.Carries(headings[i], name) ==>
      units[j].sim == [t] && units[j].refersToOther
  }

  ghost predicate PreviousHasType(cols: seq<Column>, units: seq<CompileUnit>, headings: seq<string>)
    requires |cols| == |units| == |headings|
  {
    forall i: nat, j: nat, t, name :: PreviousAt(cols, units, headings, i, j, t, name)
  }

  lemma TypingShowsTypes(table: Table, thisHeadings: seq<string>, cols: seq<Column>, typed: seq<string>,
      rank: seq<nat>, units: seq<CompileUnit>)
    requires PlainNames(cols) && Typing(table, thisHeadings, cols, typed, rank) && |units| == |cols|
    requires forall i :: 0 <= i < |cols| ==>
      Some(units[i]) == CompilePostfix(Env(table, thisHeadings, typed), cols[i].postfix)
    ensures HeadingsShowTypes(cols, units, typed)
  {
    hide CompilePostfix, RefersOnlyToKnown, Refers, HeadingType, TypeTag, WithoutTypeTag, MakeTypedHeading;
    forall i | 0 <= i < |cols|
      ensures |units[i].sim| == 1
      ensures if HeadingTexts.IsTagged(cols[i].heading) then
                typed[i] == cols[i].heading && exists t :: HeadingTexts.HasType(typed[i], t)
              else
                HeadingTexts.IsTypedHeading(typed[i], units[i].sim[0], cols[i].heading)
                && HeadingType(typed[i]) == Some(units[i].sim[0])
    {
      assert TypedAt(table, thisHeadings, cols, typed, rank, i);
      OneResult(Env(table, thisHeadings, typed), cols[i].postfix);
      TagsAgree(cols[i]);
      if IsTagged(cols[i]) {
        var t := TypeFromName(TypeTag(cols[i].heading).value).value;
        HeadingTexts.TypedHeading(typed[i], t);
      } else {
        HeadingTexts.MadeHeading(units[i].sim[0], cols[i].heading);
      }
    }
  }

  lemma TagsAgree(c: Column)
    requires Name(c) != "" && WithoutTypeTag(Name(c)) == Name(c)
    ensures IsTagged(c) <==> HeadingTexts.IsTagged(c.heading)
    ensures IsTagged(c) ==> HeadingType(c.heading) == TypeFromName(TypeTag(c.heading).value)
  {
    HeadingTexts.TaggedName(c.heading);
  }

  lemma NamedAt(cols: seq<Column>, typed: seq<string>, i: nat)
    requires Named(cols, typed) && i < |cols| && typed[i] != ""
    ensures WithoutTypeTag(typed[i]) == Name(cols[i])
  {
    hide Name, WithoutTypeTag;
  }

  lemma TypingFixesPrevious(table: Table, thisHeadings: seq<string>, cols: seq<Column>, typed: seq<string>,
      rank: seq<nat>, units: seq<CompileUnit>)
    requires PlainNames(cols) && Typing(table, thisHeadings, cols, typed, rank) && |units| == |cols|
    requires forall i :: 0 <= i < |cols| ==>
      Some(units[i]) == CompilePostfix(Env(table, thisHeadings, typed), cols[i].postfix)
    ensures PreviousHasType(cols, units, typed)
  {
    hide CompilePostfix, Typing, PlainNames, Name, FindHeadingFrom, GetRecordIdentifier, HeadingType, WithoutTypeTag,
      HeadingTexts.HasType, HeadingTexts.Carries, HeadingTexts.IsTagged;
    TypingNamed(table, thisHeadings, cols, typed, rank);
    var env := Env(table, thisHeadings, typed);
    forall i: nat, j: nat, t, name ensures PreviousAt(cols, units, typed, i, j, t, name) {
      if i < |cols| && j < |cols| && IsPrevious(cols[j], name) && name != "_rownum"
        && HeadingTexts.HasType(typed[i], t) && HeadingTexts.Carries(typed[i], name) && !HeadingTexts.IsTagged(name) {
        var tok := cols[j].postfix[0].tok;
        HeadingTexts.CarriedName(typed[i], name);
        HeadingTexts.TaggedName(name);
        NamedAt(cols, typed, i);
        FindNamed(cols, typed, i, 0);
        HeadingTexts.TypedHeading(typed[i], t);
        HeadingTexts.SpelledReference(tok.text, false, name);
        Variables.OnePostfix(env, tok);
        Variables.TypeAlone(t);
        assert cols[j].postfix == [Plain(tok)];
      }
    }
  }

  /** `do_compile_select` on the parsed expressions. It succeeds exactly when the columns have a typing, in at
      most one pass for each column and one more; when it gives up there are columns that wait for each other. */
  method CompileSelect(table: Table, thisHeadings: seq<string>, cols: seq<Column>) returns (r: SelectResult,
      passes: nat)
    requires PlainNames(cols)
    ensures !r.Typed? <==> NoTyping(table, thisHeadings, cols)
    ensures r.Typed? ==> |r.units| == |cols| && exists rank :: Typing(table, thisHeadings, cols, r.headings, rank)
    ensures r.Typed? ==> forall i :: 0 <= i < |cols| ==>
              Some(r.units[i]) == CompilePostfix(Env(table, thisHeadings, r.headings), cols[i].postfix)
    ensures r.Typed? ==> HeadingsShowTypes(cols, r.units, r.headings) && PreviousHasType(cols, r.units, r.headings)
    ensures r.Underivable? ==> exists waiting :: Stuck(cols, waiting)
    ensures passes <= |cols| + 1
  {
    hide HeadingsShowTypes, PreviousHasType, CompilePostfix, RefersOnlyToKnown, ConsistentAt, Forced, PlainNames,
      Headed, Stuck, Typing;
    passes := 0;
    var ok, s := ExplicitTags(table, thisHeadings, cols);
    if !ok { return Abort, passes; }
    var allComplete, madeProgress := false, true;
    while !allComplete && madeProgress
      invariant Sound(table, thisHeadings, cols, s) && |s.complete| == |cols|
      invariant passes <= Count(s.complete) + if madeProgress then 0 else 1
      invariant allComplete ==> forall i :: 0 <= i < |cols| ==> s.complete[i]
      invariant !allComplete && !madeProgress ==>
                  (exists i :: 0 <= i < |cols| && !s.complete[i])
                  && forall i :: 0 <= i < |cols| && !s.complete[i] ==> !RefersOnlyToKnown(cols[i].postfix, s.typed)
      decreases |cols| - Count(s.complete), madeProgress
    {
      passes := passes + 1;
      ok, s, allComplete, madeProgress := Pass(table, thisHeadings, cols, s);
      if !ok { return Abort, passes; }
    }
    if !allComplete {
      StuckHere(table, thisHeadings, cols, s);
      return Underivable, passes;
    }
    r := Typed(AllUnits(table, thisHeadings, cols, s), s.typed);
    AllDone(table, thisHeadings, cols, s);
    TypingShowsTypes(table, thisHeadings, cols, r.headings, s.rank, r.units);
    TypingFixesPrevious(table, thisHeadings, cols, r.headings, s.rank, r.units);
  }

  /** The headings whose type is given; `ok` is false where one names no type. */
  method ExplicitTags(table: Table, thisHeadings: seq<string>, cols: seq<Column>) returns (ok: bool, s: Progress)
    requires PlainNames(cols)
    ensures !ok ==> NoTyping(table, thisHeadings, cols)
    ensures ok ==> Sound(table, thisHeadings, cols, s) && |s.complete| == |cols| && Count(s.complete) == 0
  {
    hide CompilePostfix, RefersOnlyToKnown, WithoutTypeTag, TypeTag, Refers;
    var typed: seq<string> := seq(|cols|, _ => "");
    var i := 0;
    while i < |cols|
      invariant 0 <= i <= |cols| == |typed| && forall k :: i <= k < |cols| ==> typed[k] == ""
      invariant forall k :: 0 <= k < i ==> if IsTagged(cols[k])
                  then typed[k] == cols[k].heading && TypeFromName(TypeTag(cols[k].heading).value).Some?
                    else typed[k] == ""
    {
      var tag := TypeTag(cols[i].heading);
      if tag.Some? {
        if TypeFromName(tag.value).None? {
          forall final, rank ensures !Typing(table, thisHeadings, cols, final, rank) {
            assert |final| == |rank| == |cols| ==> !TypedAt(table, thisHeadings, cols, final, rank, i);
          }
          return false, Progress([], [], [], []);
        }
        typed := typed[i := cols[i].heading];
      }
      i := i + 1;
    }
    s := Progress(typed, seq(|cols|, _ => None), seq(|cols|, _ => false), seq(|cols|, _ => 0));
    StartSound(table, thisHeadings, cols, s);
    ok := true;
  }

  lemma StartSound(table: Table, thisHeadings: seq<string>, cols: seq<Column>, s: Progress)
    requires PlainNames(cols) && |s.typed| == |s.units| == |s.complete| == |s.rank| == |cols|
    requires forall k :: 0 <= k < |cols| ==> !s.complete[k] && if IsTagged(cols[k])
               then s.typed[k] == cols[k].heading && TypeFromName(TypeTag(cols[k].heading).value).Some?
                 else s.typed[k] == ""
    ensures Sound(table, thisHeadings, cols, s) && Count(s.complete) == 0
  {
    hide CompilePostfix, RefersOnlyToKnown, WithoutTypeTag, TypeTag, Refers, Done;
    NoneCounted(s.complete);
    forall final, rank | Typing(table, thisHeadings, cols, final, rank) ensures Agrees(s.typed, final) {
      forall k | 0 <= k < |cols| ensures s.typed[k] == "" || s.typed[k] == final[k] {
        assert TypedAt(table, thisHeadings, cols, final, rank, k);
      }
    }
  }

  lemma {:induction false} NoneCounted(b: seq<bool>)
    requires forall i :: 0 <= i < |b| ==> !b[i]
    ensures Count(b) == 0
  {
    if b != [] { NoneCounted(b[1..]); }
  }

  function AllUnits(table: Table, thisHeadings: seq<string>, cols: seq<Column>, s: Progress): (r: seq<CompileUnit>)
    requires Consistent(table, thisHeadings, cols, s) && forall i :: 0 <= i < |cols| ==> s.complete[i]
    ensures |r| == |cols|
  {
    seq(|cols|, i requires 0 <= i < |cols| =>
      assert ConsistentAt(table, thisHeadings, cols, s, i); s.units[i].value)
  }

  lemma AllDone(table: Table, thisHeadings: seq<string>, cols: seq<Column>, s: Progress)
    requires Consistent(table, thisHeadings, cols, s) && forall i :: 0 <= i < |cols| ==> s.complete[i]
    ensures Typing(table, thisHeadings, cols, s.typed, s.rank)
    ensures forall i :: 0 <= i < |cols| ==>
              Some(AllUnits(table, thisHeadings, cols, s)[i])
                == CompilePostfix(Env(table, thisHeadings, s.typed), cols[i].postfix)
  {
    hide CompilePostfix, RefersOnlyToKnown, HeadingFits;
    forall i | 0 <= i < |cols|
      ensures TypedAt(table, thisHeadings, cols, s.typed, s.rank, i)
      ensures Some(AllUnits(table, thisHeadings, cols, s)[i])
          == CompilePostfix(Env(table, thisHeadings, s.typed), cols[i].postfix)
    {
      assert ConsistentAt(table, thisHeadings, cols, s, i);
    }
  }

  lemma StuckHere(table: Table, thisHeadings: seq<string>, cols: seq<Column>, s: Progress)
    requires PlainNames(cols) && Sound(table, thisHeadings, cols, s)
    requires exists i :: 0 <= i < |cols| && !s.complete[i]
    requires forall i :: 0 <= i < |cols| && !s.complete[i] ==> !RefersOnlyToKnown(cols[i].postfix, s.typed)
    ensures NoTyping(table, thisHeadings, cols) && exists waiting :: Stuck(cols, waiting)
  {
    hide CompilePostfix, RefersOnlyToKnown, ConsistentAt, Forced, Named, PlainNames, RefersToMissing, WaitsFor, Typing;
    NothingReady(table, thisHeadings, cols, s);
    var i :| 0 <= i < |cols| && !s.complete[i];
    var waiting := set j: nat | j < |cols| && !s.complete[j];
    assert i in waiting;
    forall j | j in waiting ensures RefersToMissing(cols, cols[j]) || WaitsFor(cols, cols[j], waiting) {
      WaitsHere(table, thisHeadings, cols, s, j, waiting);
    }
    assert Stuck(cols, waiting);
  }

  lemma NothingReady(table: Table, thisHeadings: seq<string>, cols: seq<Column>, s: Progress)
    requires PlainNames(cols) && Consistent(table, thisHeadings, cols, s) &&
        exists i :: 0 <= i < |cols| && !s.complete[i]
    requires forall i :: 0 <= i < |cols| && !s.complete[i] ==> !RefersOnlyToKnown(cols[i].postfix, s.typed)
    ensures NoTyping(table, thisHeadings, cols)
  {
    hide CompilePostfix, RefersOnlyToKnown, ConsistentAt, TypedAt, Named, PlainNames;
    var i :| 0 <= i < |cols| && !s.complete[i];
    forall final, rank ensures !Typing(table, thisHeadings, cols, final, rank) {
      if Typing(table, thisHeadings, cols, final, rank) {
        var low := LowestIncomplete(s.complete, rank, i);
        LowestIsReady(table, thisHeadings, cols, s, low, final, rank);
      }
    }
  }

  lemma WaitsHere(table: Table, thisHeadings: seq<string>, cols: seq<Column>, s: Progress, i: nat, waiting: set<nat>)
    requires PlainNames(cols) && Consistent(table, thisHeadings, cols, s) && i < |cols|
    requires !RefersOnlyToKnown(cols[i].postfix, s.typed)
    requires waiting == set j: nat | j < |cols| && !s.complete[j]
    ensures RefersToMissing(cols, cols[i]) || WaitsFor(cols, cols[i], waiting)
  {
    hide CompilePostfix, WithoutTypeTag, GetRecordIdentifier, ConsistentAt, IsTagged, Name;
    var k :| 0 <= k < |cols[i].postfix| && !TokenKnown(cols[i].postfix[k], s.typed);
    var pt := cols[i].postfix[k];
    if !TokenMissing(cols, pt) {
      var name := GetRecordIdentifier(pt.tok.text).value.name;
      var j :| 0 <= j < |cols| && Name(cols[j]) == name;
      assert TokenRefers(pt, Name(cols[j]));
      if IsTagged(cols[j]) || s.complete[j] {
        HasHeading(table, thisHeadings, cols, s, j);
      }
    }
  }

  // --- What the types do not depend on. ---

  /** There is one typing of the columns at most. */
  lemma TypingIsUnique(table: Table, thisHeadings: seq<string>, cols: seq<Column>, t1: seq<string>, r1: seq<nat>,
      t2: seq<string>, r2: seq<nat>)
    requires PlainNames(cols) && Typing(table, thisHeadings, cols, t1, r1) && Typing(table, thisHeadings, cols, t2, r2)
    ensures t1 == t2
  {
    forall i | 0 <= i < |cols| ensures t1[i] == t2[i] {
      SameHeading(table, thisHeadings, cols, t1, r1, t2, r2, i);
    }
  }

  lemma {:induction false} SameHeading(table: Table, thisHeadings: seq<string>, cols: seq<Column>, t1: seq<string>,
      r1: seq<nat>,
                                       t2: seq<string>, r2: seq<nat>, i: nat)
    requires PlainNames(cols) && Typing(table, thisHeadings, cols, t1, r1) && Typing(table, thisHeadings, cols, t2, r2)
    requires i < |cols|
    ensures t1[i] == t2[i]
    decreases r1[i]
  {
    hide CompilePostfix, RefersOnlyToKnown, Refers, Named;
    assert TypedAt(table, thisHeadings, cols, t1, r1, i) && TypedAt(table, thisHeadings, cols, t2, r2, i);
    TypingNamed(table, thisHeadings, cols, t1, r1);
    TypingNamed(table, thisHeadings, cols, t2, r2);
    forall k | 0 <= k < |cols| && Refers(cols[i], Name(cols[k])) ensures t1[k] == t2[k] {
      if IsTagged(cols[k]) {
        assert TypedAt(table, thisHeadings, cols, t1, r1, k) && TypedAt(table, thisHeadings, cols, t2, r2, k);
      } else {
        SameHeading(table, thisHeadings, cols, t1, r1, t2, r2, k);
      }
    }
    CompileAgrees(table, thisHeadings, cols[i], cols, t1, t2);
  }

  /** `perm` rearranges: position k of the result is position perm[k] of the original. */
  predicate Permutation(perm: seq<nat>, n: nat) {
    && |perm| == n && (forall k :: 0 <= k < n ==> perm[k] < n)
    && (forall k, l :: 0 <= k < l < n ==> perm[k] != perm[l])
    && (forall p :: 0 <= p < n ==> p in perm)
  }

  function Permute<T>(s: seq<T>, perm: seq<nat>): (r: seq<T>)
    requires Permutation(perm, |s|)
    ensures |r| == |s| && forall k :: 0 <= k < |r| ==> r[k] == s[perm[k]]
  {
    seq(|s|, k requires 0 <= k < |s| => s[perm[k]])
  }

  /** Rearranging the columns rearranges the types, and nothing else. */
  lemma TypingPermutes(table: Table, thisHeadings: seq<string>, cols: seq<Column>, typed: seq<string>, rank: seq<nat>,
      perm: seq<nat>)
    requires PlainNames(cols) && Typing(table, thisHeadings, cols, typed, rank) && Permutation(perm, |cols|)
    ensures Typing(table, thisHeadings, Permute(cols, perm), Permute(typed, perm), Permute(rank, perm))
  {
    hide CompilePostfix, RefersOnlyToKnown, Refers, Named, HeadingFits, PlainNames;
    TypingNamed(table, thisHeadings, cols, typed, rank);
    var cols', typed', rank' := Permute(cols, perm), Permute(typed, perm), Permute(rank, perm);
    forall k | 0 <= k < |cols'| ensures TypedAt(table, thisHeadings, cols', typed', rank', k) {
      assert TypedAt(table, thisHeadings, cols, typed, rank, perm[k]);
      KnownPermutes(cols'[k].postfix, typed, perm);
      CompilePermutes(table, thisHeadings, cols, typed, perm, cols'[k]);
    }
  }

  lemma KnownPermutes(postfix: seq<ParsedToken>, typed: seq<string>, perm: seq<nat>)
    requires Permutation(perm, |typed|) && RefersOnlyToKnown(postfix, typed)
    ensures RefersOnlyToKnown(postfix, Permute(typed, perm))
  {
    hide WithoutTypeTag, GetRecordIdentifier;
    var typed' := Permute(typed, perm);
    forall k | 0 <= k < |postfix| ensures TokenKnown(postfix[k], typed') {
      assert TokenKnown(postfix[k], typed);
      if postfix[k].tok.kind.Variable? && !GetRecordIdentifier(postfix[k].tok.text).value.isThis {
        var j :| 0 <= j < |typed| && WithoutTypeTag(typed[j]) == GetRecordIdentifier(postfix[k].tok.text).value.name;
        assert j in perm;
        var l :| 0 <= l < |perm| && perm[l] == j;
        assert WithoutTypeTag(typed'[l]) == WithoutTypeTag(typed[j]);
      }
    }
  }

  lemma CompilePermutes(table: Table, thisHeadings: seq<string>, cols: seq<Column>, typed: seq<string>, perm: seq<nat>,
      c: Column)
    requires PlainNames(cols) && Named(cols, typed) && (forall k :: 0 <= k < |typed| ==> typed[k] != "")
    requires Permutation(perm, |cols|) && RefersOnlyToKnown(c.postfix, typed)
    ensures BothAlike(false, CompilePostfix(Env(table, thisHeadings, typed), c.postfix),
                      CompilePostfix(Env(table, thisHeadings, Permute(typed, perm)), c.postfix))
  {
    hide CompilePostfix, RefersOnlyToKnown, ResolveVariable, PlainNames, WithoutTypeTag;
    var e1, e2 := Env(table, thisHeadings, typed), Env(table, thisHeadings, Permute(typed, perm));
    forall k | 0 <= k < |c.postfix| && c.postfix[k].tok.kind.Variable?
      ensures SameVariable(false, ResolveVariable(e1, c.postfix[k].tok.text),
          ResolveVariable(e2, c.postfix[k].tok.text))
    {
      ResolvePermutes(table, thisHeadings, cols, typed, perm, c, k);
    }
    CompileCongruence(false, e1, e2, c.postfix);
  }

  lemma ResolvePermutes(table: Table, thisHeadings: seq<string>, cols: seq<Column>, typed: seq<string>, perm: seq<nat>,
      c: Column, k: nat)
    requires PlainNames(cols) && Named(cols, typed) && (forall k :: 0 <= k < |typed| ==> typed[k] != "")
    requires Permutation(perm, |cols|) && RefersOnlyToKnown(c.postfix, typed)
    requires k < |c.postfix| && c.postfix[k].tok.kind.Variable?
    ensures SameVariable(false, ResolveVariable(Env(table, thisHeadings, typed), c.postfix[k].tok.text),
                         ResolveVariable(Env(table, thisHeadings, Permute(typed, perm)), c.postfix[k].tok.text))
  {
    hide Name, WithoutTypeTag, HeadingType, GetRecordIdentifier, FindHeadingFrom;
    assert TokenKnown(c.postfix[k], typed);
    var reference := GetRecordIdentifier(c.postfix[k].tok.text).value;
    if !reference.isThis {
      KnownNotEmpty(cols, typed, reference.name);
      var j := KnownColumn(cols, typed, reference.name);
      assert j in perm;
      var l :| 0 <= l < |perm| && perm[l] == j;
      PlainPermutes(cols, typed, perm);
      FindNamed(Permute(cols, perm), Permute(typed, perm), l, 0);
    }
  }

  lemma KnownNotEmpty(cols: seq<Column>, typed: seq<string>, name: string)
    requires PlainNames(cols) && Named(cols, typed) && (forall k :: 0 <= k < |typed| ==> typed[k] != "")
    requires Known(typed, name)
    ensures name != ""
  {
    hide Name, WithoutTypeTag;
    var k :| 0 <= k < |typed| && WithoutTypeTag(typed[k]) == name;
    assert WithoutTypeTag(typed[k]) == Name(cols[k]);
  }

  lemma PlainPermutes(cols: seq<Column>, typed: seq<string>, perm: seq<nat>)
    requires PlainNames(cols) && Named(cols, typed) && Permutation(perm, |cols|)
    ensures PlainNames(Permute(cols, perm)) && Named(Permute(cols, perm), Permute(typed, perm))
  {
    hide Name, WithoutTypeTag;
    var cols' := Permute(cols, perm);
    forall i, j | 0 <= i < j < |cols'| ensures Name(cols'[i]) != Name(cols'[j]) {
      assert perm[i] != perm[j];
      if perm[i] < perm[j] {
        assert Name(cols[perm[i]]) != Name(cols[perm[j]]);
      } else {
        assert Name(cols[perm[j]]) != Name(cols[perm[i]]);
      }
    }
  }

  // --- Why columns are stuck. ---

  /** Column `a` refers through `prev.` to column `b`, which has no type of its own. */
  predicate Needs(cols: seq<Column>, a: nat, b: nat) {
    a < |cols| && b < |cols| && !IsTagged(cols[b]) && Refers(cols[a], Name(cols[b]))
  }

  predicate Path(cols: seq<Column>, p: seq<nat>) {
    |p| > 1 ==> Needs(cols, p[0], p[1]) && Path(cols, p[1..])
  }

  predicate IsCycle(cols: seq<Column>, p: seq<nat>) {
    |p| > 1 && Path(cols, p) && p[0] == p[|p| - 1]
  }

  /** Some untagged column depends on itself. */
  ghost predicate Cyclic(cols: seq<Column>) {
    exists p: seq<nat> :: IsCycle(cols, p)
  }

  ghost predicate SomeMissing(cols: seq<Column>) {
    exists i :: 0 <= i < |cols| && RefersToMissing(cols, cols[i])
  }

  ghost predicate NoneMissing(cols: seq<Column>, waiting: set<nat>) {
    forall j :: j in waiting ==> j < |cols| && !RefersToMissing(cols, cols[j])
  }

  predicate Within(p: seq<nat>, waiting: set<nat>) {
    forall k :: 0 <= k < |p| ==> p[k] in waiting
  }

  lemma NextWaiting(cols: seq<Column>, waiting: set<nat>, i: nat) returns (j: nat)
    requires Stuck(cols, waiting) && NoneMissing(cols, waiting) && i in waiting
    ensures j in waiting && Needs(cols, i, j)
  {
    hide RefersToMissing, IsTagged, Refers, Name;
    assert WaitsFor(cols, cols[i], waiting);
    j :| j in waiting && j < |cols| && !IsTagged(cols[j]) && Refers(cols[i], Name(cols[j]));
  }

  lemma {:induction false} WalkWaiting(cols: seq<Column>, waiting: set<nat>, i: nat, n: nat) returns (p: seq<nat>)
    requires Stuck(cols, waiting) && NoneMissing(cols, waiting) && i in waiting
    ensures |p| == n + 1 && p[0] == i && Path(cols, p) && Within(p, waiting)
    decreases n
  {
    hide Stuck, NoneMissing, Needs;
    if n == 0 {
      p := [i];
    } else {
      var j := NextWaiting(cols, waiting, i);
      var q := WalkWaiting(cols, waiting, j, n - 1);
      p := [i] + q;
      assert p[1..] == q;
    }
  }

  lemma {:induction false} PathFrom(cols: seq<Column>, p: seq<nat>, k: nat)
    requires Path(cols, p) && k < |p|
    ensures Path(cols, p[k..])
    decreases k
  {
    hide Needs;
    if k == 0 {
      assert p[0..] == p;
    } else {
      PathFrom(cols, p[1..], k - 1);
      assert p[1..][k - 1..] == p[k..];
    }
  }

  lemma {:induction false} PathUpTo(cols: seq<Column>, p: seq<nat>, n: nat)
    requires Path(cols, p) && 0 < n <= |p|
    ensures Path(cols, p[..n])
    decreases n
  {
    hide Needs;
    if n > 1 {
      PathUpTo(cols, p[1..], n - 1);
      assert p[..n][1..] == p[1..][..n - 1];
    }
  }

  /** Columns that wait for each other contain a reference to a name no column has, or a cycle. */
  lemma StuckMeansCycle(cols: seq<Column>, waiting: set<nat>)
    requires Stuck(cols, waiting)
    ensures SomeMissing(cols) || Cyclic(cols)
  {
    hide RefersToMissing, Path, WaitsFor;
    if !SomeMissing(cols) {
      var i :| i in waiting;
      var p := WalkWaiting(cols, waiting, i, |cols|);
      assert Within(p, waiting);
      var k, l := Repeats(p, |cols|);
      PathFrom(cols, p, k);
      PathUpTo(cols, p[k..], l + 1 - k);
      assert IsCycle(cols, p[k..][..l + 1 - k]);
    }
  }

  /** Of more positions than there are, two are the same. */
  lemma Repeats(p: seq<nat>, n: nat) returns (k: nat, l: nat)
    requires |p| > n && forall i :: 0 <= i < |p| ==> p[i] < n
    ensures k < l < |p| && p[k] == p[l]
  {
    if forall i, j :: 0 <= i < j < |p| ==> p[i] != p[j] {
      DistinctSubset(p, n);
    }
    k, l :| 0 <= k < l < |p| && p[k] == p[l];
  }

  /** Either of the two makes a typing impossible. */
  lemma CycleMeansNoTyping(table: Table, thisHeadings: seq<string>, cols: seq<Column>)
    requires PlainNames(cols) && (SomeMissing(cols) || Cyclic(cols))
    ensures NoTyping(table, thisHeadings, cols)
  {
    hide RefersToMissing, Typing, PlainNames, Path;
    forall typed, rank ensures !Typing(table, thisHeadings, cols, typed, rank) {
      if Typing(table, thisHeadings, cols, typed, rank) {
        if Cyclic(cols) {
          var p :| IsCycle(cols, p);
          RanksFall(table, thisHeadings, cols, typed, rank, p);
        } else {
          var i :| 0 <= i < |cols| && RefersToMissing(cols, cols[i]);
          MissingIsUnknown(table, thisHeadings, cols, typed, rank, i);
        }
      }
    }
  }

  lemma {:induction false} RanksFall(table: Table, thisHeadings: seq<string>, cols: seq<Column>, typed: seq<string>,
      rank: seq<nat>, p: seq<nat>)
    requires Typing(table, thisHeadings, cols, typed, rank) && Path(cols, p) && |p| > 1
    ensures p[0] < |rank| && p[|p| - 1] < |rank| && rank[p[|p| - 1]] < rank[p[0]]
    decreases |p|
  {
    hide CompilePostfix, RefersOnlyToKnown, Refers, IsTagged, Name, HeadingFits;
    assert TypedAt(table, thisHeadings, cols, typed, rank, p[0]);
    if |p| > 2 {
      RanksFall(table, thisHeadings, cols, typed, rank, p[1..]);
    }
  }

  lemma MissingIsUnknown(table: Table, thisHeadings: seq<string>, cols: seq<Column>, typed: seq<string>, rank: seq<nat>,
      i: nat)
    requires PlainNames(cols) && i < |cols| && RefersToMissing(cols, cols[i])
    ensures !Typing(table, thisHeadings, cols, typed, rank)
  {
    hide CompilePostfix, RefersToMissing, RefersOnlyToKnown, HeadingFits, Name;
    if Typing(table, thisHeadings, cols, typed, rank) {
      TypingNamed(table, thisHeadings, cols, typed, rank);
      assert TypedAt(table, thisHeadings, cols, typed, rank, i);
      MissingIsNotKnown(cols, typed, cols[i]);
    }
  }

  lemma MissingIsNotKnown(cols: seq<Column>, typed: seq<string>, c: Column)
    requires Named(cols, typed) && (forall k :: 0 <= k < |typed| ==> typed[k] != "") && RefersToMissing(cols, c)
    ensures !RefersOnlyToKnown(c.postfix, typed)
  {
    hide WithoutTypeTag, GetRecordIdentifier, Name;
    var k :| 0 <= k < |c.postfix| && TokenMissing(cols, c.postfix[k]);
    var reference := GetRecordIdentifier(c.postfix[k].tok.text);
    if reference.Some? {
      forall j | 0 <= j < |typed| ensures WithoutTypeTag(typed[j]) != reference.value.name {
        assert WithoutTypeTag(typed[j]) == Name(cols[j]);
      }
    }
    assert !TokenKnown(c.postfix[k], typed);
  }
}
