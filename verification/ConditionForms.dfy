// What the operands of an #if condition are worth (preprocess/ifexpr.go): literals, names,
// `defined` and `sizeof`, said of whole conditions.
module ConditionForms {
  import opened Chars
  import opened Tokens
  import opened ConditionEval

  // The value of a whole token list while some names are being evaluated.
  function Worth(s: Scope, toks: seq<Tok>): Option<int>
    requires ClosedTables(s.tables, s.names) && Closed(toks, s.names)
  {
    var r := ReadLevel(s, toks, 0, 0);
    if r.bad || r.pos != |toks| then None else Some(r.value)
  }

  function Everything(tb: Tables, toks: seq<Tok>): Scope { Scope(tb, {}, Names(tb, toks)) }

  // No operator stands at pos.
  predicate NoOperator(toks: seq<Tok>, pos: nat) { LevelOf(KindAt(toks, pos)) == LEVELS }

  // With no operator behind it, an operand is all that each rung of the ladder reads.
  lemma {:induction false} LadderReads(s: Scope, toks: seq<Tok>, pos: nat, level: nat)
    requires Fine(s, toks, pos) && level <= LEVELS
    requires var r := ReadUnary(s, toks, pos); NoOperator(toks, r.pos)
    ensures ReadLevel(s, toks, pos, level) == ReadUnary(s, toks, pos)
    decreases LEVELS - level
  {
    hide ReadUnary, ReadOperators, LevelOf, Closed, ClosedTables;
    if level < LEVELS {
      LadderReads(s, toks, pos, level + 1);
      OperatorsStep(s, toks, ReadUnary(s, toks, pos), level);
    }
  }

  lemma {:induction false} OperatorsStayBad(s: Scope, toks: seq<Tok>, left: Reading, level: nat)
    requires Fine(s, toks, left.pos) && level < LEVELS && left.bad
    ensures ReadOperators(s, toks, left, level).bad
    decreases |toks| - left.pos
  {
    hide LevelOf, Closed, ClosedTables, ReadOperators, ReadLevel;
    OperatorsStep(s, toks, left, level);
    if LevelOf(KindAt(toks, left.pos)) == level {
      var right := ReadLevel(s, toks, left.pos + 1, level + 1);
      OperatorsStayBad(s, toks, Combine(s.tables, KindAt(toks, left.pos), left, right), level);
    }
  }

  // A first operand that cannot be read spoils the condition, whatever follows.
  lemma {:induction false} LadderStaysBad(s: Scope, toks: seq<Tok>, pos: nat, level: nat)
    requires Fine(s, toks, pos) && level <= LEVELS && ReadUnary(s, toks, pos).bad
    ensures ReadLevel(s, toks, pos, level).bad
    decreases LEVELS - level
  {
    hide ReadUnary, ReadOperators, Closed, ClosedTables;
    if level < LEVELS {
      LadderStaysBad(s, toks, pos, level + 1);
      OperatorsStayBad(s, toks, ReadLevel(s, toks, pos, level + 1), level);
    }
  }

  lemma NothingBehind(toks: seq<Tok>)
    ensures NoOperator(toks, |toks|)
  {
  }

  // ----- defined ------------------------------------------------------------------------------------

  // The name, cut to the table's limit, is a macro; or it is a symbol or declared as it stands.
  predicate Known(tb: Tables, name: string) {
    var cut := if 0 < tb.maxNameLength < |name| then name[..tb.maxNameLength] else name;
    cut in tb.macros || name in tb.symbols || tb.declared(name)
  }

  function DefinedForm(d: Tok, name: Tok, parens: Option<(Tok, Tok)>): seq<Tok> {
    if parens.Some? then [d, parens.value.0, name, parens.value.1] else [d, name]
  }

  predicate ParenPair(parens: Option<(Tok, Tok)>) {
    parens.Some? ==> parens.value.0.kind == LParen && parens.value.1.kind == RParen
  }

  // `defined` of a name, in parentheses or not, is 1 if the name is known, and 0 otherwise.
  lemma DefinedIsKnown(tb: Tables, d: Tok, name: Tok, parens: Option<(Tok, Tok)>)
    requires d.kind == KwDefined && name.kind == Identifier && ParenPair(parens)
    ensures ConditionValue(tb, DefinedForm(d, name, parens)) == Some(if Known(tb, name.text) then 1 else 0)
  {
    hide ReadLevel, ReadUnary, LevelOf, Known, Names;
    var toks := DefinedForm(d, name, parens);
    var s := Everything(tb, toks);
    assert toks[0..|toks|] == toks;
    DefinedRead(s, toks, 0, name, parens);
    NothingBehind(toks);
    LadderReads(s, toks, 0, 0);
  }

  // The tokens from pos on.
  ghost predicate Stands(toks: seq<Tok>, pos: nat, form: seq<Tok>) {
    pos + |form| <= |toks| && toks[pos..pos + |form|] == form
  }

  lemma StandsBoth(toks: seq<Tok>, pos: nat, a: seq<Tok>, b: seq<Tok>)
    ensures Stands(toks, pos, a + b) <==> Stands(toks, pos, a) && Stands(toks, pos + |a|, b)
  {
    if pos + |a| + |b| > |toks| { return; }
    var both := toks[pos..pos + |a| + |b|];
    assert both[..|a|] == toks[pos..pos + |a|] && both[|a|..] == toks[pos + |a|..pos + |a| + |b|];
    assert (a + b)[..|a|] == a && (a + b)[|a|..] == b;
    assert both == both[..|a|] + both[|a|..];
  }

  lemma StandsAt(toks: seq<Tok>, pos: nat, form: seq<Tok>, k: nat)
    requires Stands(toks, pos, form) && k < |form|
    ensures pos + k < |toks| && toks[pos + k] == form[k]
  {
    assert toks[pos + k] == toks[pos..pos + |form|][k];
  }

  // It reads so wherever it stands in a condition.
  lemma DefinedRead(s: Scope, toks: seq<Tok>, pos: nat, name: Tok, parens: Option<(Tok, Tok)>)
    requires Fine(s, toks, pos) && pos < |toks| && toks[pos].kind == KwDefined && name.kind == Identifier
    requires ParenPair(parens) && Stands(toks, pos, DefinedForm(toks[pos], name, parens))
    ensures ReadUnary(s, toks, pos)
         == Reading(if Known(s.tables, name.text) then 1 else 0, pos + if parens.Some? then 4 else 2, false)
  {
    hide *;
    var form := DefinedForm(toks[pos], name, parens);
    FormIs(toks[pos], name, parens);
    StandsAt(toks, pos, form, 1);
    if parens.Some? {
      StandsAt(toks, pos, form, 2);
      StandsAt(toks, pos, form, 3);
    }
    DefinedUnary(s, toks, pos);
    DefinedStep(s.tables, toks, pos + 1, name, parens);
  }

  lemma FormIs(d: Tok, name: Tok, parens: Option<(Tok, Tok)>)
    ensures var form := DefinedForm(d, name, parens);
            if parens.Some? then
              |form| == 4 && form[1] == parens.value.0 && form[2] == name && form[3] == parens.value.1
            else |form| == 2 && form[1] == name
  {
  }

  lemma DefinedUnary(s: Scope, toks: seq<Tok>, pos: nat)
    requires Fine(s, toks, pos) && pos < |toks| && toks[pos].kind == KwDefined
    ensures ReadUnary(s, toks, pos) == ReadDefined(s.tables, toks, pos + 1)
  {
    hide ReadDefined, Fine;
  }

  lemma DefinedStep(tb: Tables, toks: seq<Tok>, pos: nat, name: Tok, parens: Option<(Tok, Tok)>)
    requires name.kind == Identifier && ParenPair(parens)
    requires if parens.Some? then
               pos + 2 < |toks| && toks[pos] == parens.value.0 && toks[pos + 1] == name
                                && toks[pos + 2] == parens.value.1
             else pos < |toks| && toks[pos] == name
    ensures ReadDefined(tb, toks, pos)
         == Reading(if Known(tb, name.text) then 1 else 0, pos + if parens.Some? then 3 else 1, false)
  {
    KnownTables(tb, name.text);
    hide Known, TableName;
  }

  lemma KnownTables(tb: Tables, name: string)
    ensures Known(tb, name) <==> TableName(tb, name) in tb.macros || name in tb.symbols || tb.declared(name)
  {
  }

  // `defined` of anything else, or without its closing parenthesis, makes a condition fail.
  lemma DefinedFails(tb: Tables, toks: seq<Tok>)
    requires toks != [] && toks[0].kind == KwDefined
    requires var k := KindAt(toks, 1);
             k != Identifier && !(k == LParen && KindAt(toks, 2) == Identifier && KindAt(toks, 3) == RParen)
    ensures ConditionValue(tb, toks) == None
  {
    var s := Everything(tb, toks);
    assert ReadUnary(s, toks, 0).bad;
    hide ReadUnary, ReadLevel;
    LadderStaysBad(s, toks, 0, 0);
  }

  // ----- names --------------------------------------------------------------------------------------

  // What a name stands for: the body of a macro without parameters, or else a symbol, or else a
  // tracked constant. Symbols are looked up by the whole name.
  function StandsFor(tb: Tables, name: string): Option<seq<Tok>> {
    var cut := if 0 < tb.maxNameLength < |name| then name[..tb.maxNameLength] else name;
    if cut in tb.objectMacros then Some(tb.objectMacros[cut])
    else if name in tb.symbols then Some(tb.symbols[name])
    else if cut in tb.constants then Some(tb.constants[cut])
    else None
  }

  lemma StandsForNames(s: Scope, name: string)
    requires ClosedTables(s.tables, s.names)
    ensures StandsFor(s.tables, name).Some? ==> Closed(StandsFor(s.tables, name).value, s.names)
  {
  }

  // A name alone is worth what its definition is worth, 0 if it has none, and 0 where it is met
  // again while it is being evaluated.
  lemma NameIsDefinition(s: Scope, name: Tok)
    requires ClosedTables(s.tables, s.names) && name.kind == Identifier && name.text in s.names
    ensures StandsFor(s.tables, name.text).Some? ==> Closed(StandsFor(s.tables, name.text).value, s.names)
    ensures Worth(s, [name]) ==
            if name.text in s.guard || StandsFor(s.tables, name.text).None? then Some(0)
            else Worth(s.(guard := s.guard + {name.text}), StandsFor(s.tables, name.text).value)
  {
    hide Closed, ReadLevel;
    StandsForNames(s, name.text);
    NameRead(s, name);
    NothingBehind([name]);
    hide ReadUnary;
    LadderReads(s, [name], 0, 0);
  }

  lemma NameRead(s: Scope, name: Tok)
    requires ClosedTables(s.tables, s.names) && name.kind == Identifier && name.text in s.names
    ensures Fine(s, [name], 0)
    ensures StandsFor(s.tables, name.text).Some? ==> Closed(StandsFor(s.tables, name.text).value, s.names)
    ensures var body := StandsFor(s.tables, name.text);
            var v := if name.text in s.guard || body.None? then Some(0)
                     else Worth(s.(guard := s.guard + {name.text}), body.value);
            ReadUnary(s, [name], 0) == Reading(if v.Some? then v.value else 0, 1, v.None?)
  {
    hide ReadLevel, ClosedTables, Closed;
    StandsForNames(s, name.text);
    NameIsWorth(s, name.text);
    hide NameValue, Worth, StandsFor;
    assert [name][0] == name;
    assert Fine(s, [name], 0) by { assert forall t | t in [name] :: t == name; ClosedOne(name, s.names); }
    assert ReadUnary(s, [name], 0) == ReadPrimary(s, [name], 0);
  }

  lemma ClosedOne(name: Tok, names: set<string>)
    requires name.text in names
    ensures Closed([name], names)
  {
  }

  lemma NameIsWorth(s: Scope, name: string)
    requires ClosedTables(s.tables, s.names) && name in s.names
    ensures StandsFor(s.tables, name).Some? ==> Closed(StandsFor(s.tables, name).value, s.names)
    ensures NameValue(s, name) ==
            if name in s.guard || StandsFor(s.tables, name).None? then Some(0)
            else Worth(s.(guard := s.guard + {name}), StandsFor(s.tables, name).value)
  {
    hide ReadLevel;
    StandsForNames(s, name);
    assert Definition(s.tables, name) == StandsFor(s.tables, name);
  }

  lemma ConditionIsWorth(tb: Tables, toks: seq<Tok>)
    ensures ConditionValue(tb, toks) == if toks == [] then None else Worth(Everything(tb, toks), toks)
  {
  }

  // ----- literals ---------------------------------------------------------------------------------

  lemma LiteralIsDecoded(tb: Tables, t: Tok)
    requires t.kind == IntLiteral || t.kind == CharLiteral
    ensures ConditionValue(tb, [t]) == Some(tb.literal(t))
  {
    var s := Everything(tb, [t]);
    assert ReadUnary(s, [t], 0) == Reading(tb.literal(t), 1, false);
    hide ReadUnary, ReadLevel;
    NothingBehind([t]);
    LadderReads(s, [t], 0, 0);
  }

  // ----- sizeof -------------------------------------------------------------------------------------

  // Brackets with a name or a number between them, or with nothing.
  datatype Selector = Selector(open: Tok, inner: Option<Tok>, close: Tok)
  {
    predicate Good() {
      && open.kind == LBracket && close.kind == RBracket
      && (inner.Some? ==> inner.value.kind == Identifier || inner.value.kind == IntLiteral)
    }

    function Toks(): seq<Tok> { if inner.Some? then [open, inner.value, close] else [open, close] }

    function Text(): string { if inner.Some? then inner.value.text else "" }
  }

  function SelectorToks(sels: seq<Selector>): seq<Tok> {
    if sels == [] then [] else sels[0].Toks() + SelectorToks(sels[1..])
  }

  function SelectorTexts(sels: seq<Selector>): (r: seq<string>)
    ensures |r| == |sels| && forall k | 0 <= k < |r| :: r[k] == sels[k].Text()
  {
    seq(|sels|, k requires 0 <= k < |sels| => sels[k].Text())
  }

  ghost predicate AllGood(sels: seq<Selector>) { forall k | 0 <= k < |sels| :: sels[k].Good() }

  lemma SelectorStep(toks: seq<Tok>, pos: nat, first: Selector, list: seq<string>)
    requires pos <= |toks| && first.Good() && Stands(toks, pos, first.Toks())
    ensures pos + |first.Toks()| <= |toks|
    ensures ReadSelectors(toks, pos, list) == ReadSelectors(toks, pos + |first.Toks()|, list + [first.Text()])
  {
    SelectorTokens(toks, pos, first);
    SelectorsStep(toks, pos, list);
    hide *;
  }

  lemma SelectorTokens(toks: seq<Tok>, pos: nat, first: Selector)
    requires first.Good() && Stands(toks, pos, first.Toks())
    ensures KindAt(toks, pos) == LBracket && pos + |first.Toks()| <= |toks|
    ensures if first.inner.Some? then
              && (KindAt(toks, pos + 1) == Identifier || KindAt(toks, pos + 1) == IntLiteral)
              && KindAt(toks, pos + 2) == RBracket && |first.Toks()| == 3 && toks[pos + 1].text == first.Text()
            else KindAt(toks, pos + 1) == RBracket && |first.Toks()| == 2 && first.Text() == ""
  {
    hide Stands;
    var form := first.Toks();
    StandsAt(toks, pos, form, 0);
    StandsAt(toks, pos, form, 1);
    StandsAt(toks, pos, form, |form| - 1);
  }

  // All brackets up to a token that opens none are read.
  lemma {:induction false} SelectorsRead(toks: seq<Tok>, pos: nat, sels: seq<Selector>, list: seq<string>)
    requires pos <= |toks| && AllGood(sels) && Stands(toks, pos, SelectorToks(sels))
    requires KindAt(toks, pos + |SelectorToks(sels)|) != LBracket
    ensures ReadSelectors(toks, pos, list)
         == Selectors(list + SelectorTexts(sels), pos + |SelectorToks(sels)|, false)
    decreases |sels|
  {
    hide ReadSelectors, Stands, SelectorToks, SelectorTexts, AllGood;
    SelectorsParts(sels);
    if sels == [] {
      SelectorsStep(toks, pos, list);
      assert list + SelectorTexts(sels) == list;
      return;
    }
    var first, rest := sels[0], sels[1..];
    StandsBoth(toks, pos, first.Toks(), SelectorToks(rest));
    SelectorStep(toks, pos, first, list);
    hide *;
    var more := list + [first.Text()];
    SelectorsRead(toks, pos + |first.Toks()|, rest, more);
    Reassociate(list, [first.Text()], SelectorTexts(rest));
  }

  lemma SelectorsParts(sels: seq<Selector>)
    requires AllGood(sels)
    ensures sels == [] ==> SelectorToks(sels) == [] && SelectorTexts(sels) == []
    ensures sels != [] ==>
              var first, rest := sels[0], sels[1..];
              && first.Good() && AllGood(rest) && SelectorToks(sels) == first.Toks() + SelectorToks(rest)
              && SelectorTexts(sels) == [first.Text()] + SelectorTexts(rest)
  {
    hide SelectorTexts;
    if sels == [] {
      assert SelectorTexts([]) == [];
    } else {
      TextsMore(sels[0], sels[1..]);
      assert sels == [sels[0]] + sels[1..];
    }
  }

  lemma TextsMore(first: Selector, rest: seq<Selector>)
    ensures SelectorTexts([first] + rest) == [first.Text()] + SelectorTexts(rest)
  {
    var all, texts := [first] + rest, SelectorTexts([first] + rest);
    forall k | 0 <= k < |texts| ensures texts[k] == ([first.Text()] + SelectorTexts(rest))[k] {
      assert all[k] == if k == 0 then first else rest[k - 1];
    }
  }

  // What is read is such brackets.
  lemma {:induction false} SelectorsSound(toks: seq<Tok>, pos: nat, list: seq<string>) returns (sels: seq<Selector>)
    requires pos <= |toks| && !ReadSelectors(toks, pos, list).bad
    ensures AllGood(sels) && Stands(toks, pos, SelectorToks(sels))
    ensures ReadSelectors(toks, pos, list)
         == Selectors(list + SelectorTexts(sels), pos + |SelectorToks(sels)|, false)
    decreases |toks| - pos
  {
    hide ReadSelectors, Stands;
    SelectorsStep(toks, pos, list);
    if KindAt(toks, pos) != LBracket {
      sels := [];
      NoneStands(toks, pos);
      assert list + SelectorTexts(sels) == list;
      return;
    }
    var named := KindAt(toks, pos + 1) == Identifier || KindAt(toks, pos + 1) == IntLiteral;
    var close := if named then pos + 2 else pos + 1;
    var first := Selector(toks[pos], if named then Some(toks[pos + 1]) else None, toks[close]);
    var rest := SelectorsSound(toks, close + 1, list + [first.Text()]);
    sels := [first] + rest;
    assert sels[1..] == rest;
    TextsMore(first, rest);
    Reassociate(list, [first.Text()], SelectorTexts(rest));
    SelectorStands(toks, pos, first);
    StandsBoth(toks, pos, first.Toks(), SelectorToks(rest));
  }

  lemma NoneStands(toks: seq<Tok>, pos: nat)
    ensures pos <= |toks| ==> Stands(toks, pos, [])
  {
  }

  lemma SelectorStands(toks: seq<Tok>, pos: nat, first: Selector)
    requires pos + |first.Toks()| <= |toks| && toks[pos] == first.open
    requires first.inner.Some? ==> toks[pos + 1] == first.inner.value
    requires toks[pos + |first.Toks()| - 1] == first.close
    ensures Stands(toks, pos, first.Toks())
  {
  }

  function SizeofForm(t: Tok, name: Tok, sels: seq<Selector>, parens: Option<(Tok, Tok)>): seq<Tok> {
    if parens.Some? then [t, parens.value.0, name] + SelectorToks(sels) + [parens.value.1]
    else [t, name] + SelectorToks(sels)
  }

  // `sizeof` of a name with brackets is the size the tracker knows, and fails if it knows none.
  lemma SizeofRead(s: Scope, toks: seq<Tok>, pos: nat, name: Tok, sels: seq<Selector>, parens: Option<(Tok, Tok)>)
    requires Fine(s, toks, pos) && pos < |toks| && toks[pos].kind == KwSizeof && name.kind == Identifier
    requires ParenPair(parens) && AllGood(sels) && Stands(toks, pos, SizeofForm(toks[pos], name, sels, parens))
    requires parens.None? ==> KindAt(toks, pos + 2 + |SelectorToks(sels)|) != LBracket
    ensures var v := s.tables.sizeOf(name.text, SelectorTexts(sels));
            ReadUnary(s, toks, pos) == Reading(if v.Some? then v.value else 0,
                                               pos + |SizeofForm(toks[pos], name, sels, parens)|, v.None?)
  {
    hide *;
    SizeofParts(toks, pos, name, sels, parens);
    var at := if parens.Some? then pos + 2 else pos + 1;
    SelectorsRead(toks, at + 1, sels, []);
    assert [] + SelectorTexts(sels) == SelectorTexts(sels);
    SizeofUnary(s, toks, pos);
    SizeofStep(s.tables, toks, pos + 1, name, SelectorTexts(sels), at + 1 + |SelectorToks(sels)|);
  }

  lemma SizeofParts(toks: seq<Tok>, pos: nat, name: Tok, sels: seq<Selector>, parens: Option<(Tok, Tok)>)
    requires pos < |toks| && name.kind == Identifier && ParenPair(parens)
    requires Stands(toks, pos, SizeofForm(toks[pos], name, sels, parens))
    requires parens.None? ==> KindAt(toks, pos + 2 + |SelectorToks(sels)|) != LBracket
    ensures var at := if parens.Some? then pos + 2 else pos + 1;
            var end := at + 1 + |SelectorToks(sels)|;
            && at < |toks| && toks[at] == name && Stands(toks, at + 1, SelectorToks(sels)) && end <= |toks|
            && KindAt(toks, end) != LBracket
            && (parens.Some? <==> KindAt(toks, pos + 1) == LParen)
            && (parens.Some? ==> KindAt(toks, end) == RParen)
            && |SizeofForm(toks[pos], name, sels, parens)| == end - pos + (if parens.Some? then 1 else 0)
            && pos + 1 < |toks|
  {
    hide SelectorToks, Stands;
    var mid := SelectorToks(sels);
    if parens.Some? {
      var head, last := [toks[pos], parens.value.0, name], [parens.value.1];
      StandsBoth(toks, pos, head + mid, last);
      StandsBoth(toks, pos, head, mid);
      ThreeStand(toks, pos, head);
      OneStands(toks, pos + 3 + |mid|, parens.value.1);
    } else {
      var head := [toks[pos], name];
      StandsBoth(toks, pos, head, mid);
      TwoStand(toks, pos, head);
      FormEnds(toks, pos + 2, mid);
    }
  }

  lemma OneStands(toks: seq<Tok>, pos: nat, t: Tok)
    requires Stands(toks, pos, [t])
    ensures pos < |toks| && toks[pos] == t
  {
    StandsAt(toks, pos, [t], 0);
  }

  lemma TwoStand(toks: seq<Tok>, pos: nat, form: seq<Tok>)
    requires |form| == 2 && Stands(toks, pos, form)
    ensures pos + 1 < |toks| && toks[pos + 1] == form[1]
  {
    StandsAt(toks, pos, form, 1);
  }

  lemma ThreeStand(toks: seq<Tok>, pos: nat, form: seq<Tok>)
    requires |form| == 3 && Stands(toks, pos, form)
    ensures pos + 2 < |toks| && toks[pos + 1] == form[1] && toks[pos + 2] == form[2]
  {
    StandsAt(toks, pos, form, 1);
    StandsAt(toks, pos, form, 2);
  }

  lemma FormEnds(toks: seq<Tok>, pos: nat, form: seq<Tok>)
    requires Stands(toks, pos, form)
    ensures pos + |form| <= |toks|
  {
  }

  lemma FormStands(toks: seq<Tok>, pos: nat, name: Tok, sels: seq<Selector>, parens: Option<(Tok, Tok)>)
    requires var at := if parens.Some? then pos + 2 else pos + 1;
             && at < |toks| && toks[at] == name && Stands(toks, at + 1, SelectorToks(sels))
             && (parens.Some? ==>
                   && toks[pos + 1] == parens.value.0
                   && at + 1 + |SelectorToks(sels)| < |toks| && toks[at + 1 + |SelectorToks(sels)|] == parens.value.1)
    ensures Stands(toks, pos, SizeofForm(toks[pos], name, sels, parens))
  {
    hide SelectorToks, Stands;
    var mid := SelectorToks(sels);
    if parens.Some? {
      var head, last := [toks[pos], parens.value.0, name], [parens.value.1];
      HeadStands(toks, pos, head);
      HeadStands(toks, pos + 3 + |mid|, last);
      StandsBoth(toks, pos, head, mid);
      StandsBoth(toks, pos, head + mid, last);
    } else {
      var head := [toks[pos], name];
      HeadStands(toks, pos, head);
      StandsBoth(toks, pos, head, mid);
    }
  }

  lemma HeadStands(toks: seq<Tok>, pos: nat, head: seq<Tok>)
    requires 0 < |head| <= 3 && pos + |head| <= |toks| && toks[pos] == head[0]
    requires |head| > 1 ==> toks[pos + 1] == head[1]
    requires |head| > 2 ==> toks[pos + 2] == head[2]
    ensures Stands(toks, pos, head)
  {
  }

  lemma SizeofNeeds(tb: Tables, toks: seq<Tok>, pos: nat)
    requires pos <= |toks| && !ReadSizeof(tb, toks, pos).bad
    ensures var paren := KindAt(toks, pos) == LParen;
            var at := if paren then pos + 1 else pos;
            && at < |toks| && toks[at].kind == Identifier
            && var r := ReadSelectors(toks, at + 1, []);
               && !r.bad && (paren ==> r.pos < |toks| && toks[r.pos].kind == RParen)
               && tb.sizeOf(toks[at].text, r.list).Some?
  {
    hide ReadSelectors;
  }

  lemma SizeofUnary(s: Scope, toks: seq<Tok>, pos: nat)
    requires Fine(s, toks, pos) && pos < |toks| && toks[pos].kind == KwSizeof
    ensures ReadUnary(s, toks, pos) == ReadSizeof(s.tables, toks, pos + 1)
  {
    hide ReadSizeof, ReadPrimary, Fine;
  }

  lemma SizeofStep(tb: Tables, toks: seq<Tok>, pos: nat, name: Tok, texts: seq<string>, end: nat)
    requires pos <= |toks| && end <= |toks| && name.kind == Identifier
    requires var paren := KindAt(toks, pos) == LParen;
             var at := if paren then pos + 1 else pos;
             && at < |toks| && toks[at] == name && ReadSelectors(toks, at + 1, []) == Selectors(texts, end, false)
             && (paren ==> KindAt(toks, end) == RParen)
    ensures var v := tb.sizeOf(name.text, texts);
            ReadSizeof(tb, toks, pos)
            == Reading(if v.Some? then v.value else 0, end + if KindAt(toks, pos) == LParen then 1 else 0, v.None?)
  {
    hide ReadSelectors;
  }

  // And nothing else after a `sizeof` has a value.
  lemma SizeofSound(s: Scope, toks: seq<Tok>, pos: nat)
    returns (name: Tok, sels: seq<Selector>, parens: Option<(Tok, Tok)>)
    requires Fine(s, toks, pos) && pos < |toks| && toks[pos].kind == KwSizeof && !ReadUnary(s, toks, pos).bad
    ensures name.kind == Identifier && AllGood(sels) && ParenPair(parens)
    ensures Stands(toks, pos, SizeofForm(toks[pos], name, sels, parens))
    ensures s.tables.sizeOf(name.text, SelectorTexts(sels)).Some?
  {
    hide ReadLevel, ReadUnary, Fine, ReadSelectors, SelectorToks, ReadSizeof, SizeofForm, Stands, AllGood;
    SizeofUnary(s, toks, pos);
    SizeofNeeds(s.tables, toks, pos + 1);
    var paren := KindAt(toks, pos + 1) == LParen;
    var at := if paren then pos + 2 else pos + 1;
    name := toks[at];
    sels := SelectorsSound(toks, at + 1, []);
    assert [] + SelectorTexts(sels) == SelectorTexts(sels);
    var mid := SelectorToks(sels);
    parens := if paren then Some((toks[pos + 1], toks[at + 1 + |mid|])) else None;
    FormStands(toks, pos, name, sels, parens);
  }

  lemma SizeofIsSize(tb: Tables, t: Tok, name: Tok, sels: seq<Selector>, parens: Option<(Tok, Tok)>)
    requires t.kind == KwSizeof && name.kind == Identifier && ParenPair(parens) && AllGood(sels)
    ensures ConditionValue(tb, SizeofForm(t, name, sels, parens)) == tb.sizeOf(name.text, SelectorTexts(sels))
  {
    hide ReadLevel, ReadUnary, Names, SelectorToks;
    var toks := SizeofForm(t, name, sels, parens);
    var s := Everything(tb, toks);
    assert toks[0..|toks|] == toks;
    SizeofRead(s, toks, 0, name, sels, parens);
    NothingBehind(toks);
    LadderReads(s, toks, 0, 0);
  }
}
