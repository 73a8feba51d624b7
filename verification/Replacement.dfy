// What one step of rescanning puts in the place of a macro use (preprocess/expand.go,
// expandRun): the body, token by token, with arguments for parameters, and what surrounds it.
module Replacement {
  import opened Chars
  import opened Tokens
  import opened PatternMatch
  import opened PatternInput
  import opened Expansion
  import opened ArgumentLists

  // ----- the number of a parameter ------------------------------------------------------------------

  ghost predicate AllDigits(text: string) { forall k | 0 <= k < |text| :: '0' <= text[k] <= '9' }

  ghost function Decimal(digits: string): nat
    requires AllDigits(digits)
  {
    if digits == "" then 0
    else Decimal(digits[..|digits| - 1]) * 10 + (digits[|digits| - 1] as int - '0' as int)
  }

  // The text is this number in digits, perhaps behind a percent sign.
  ghost predicate Numbers(text: string, digits: string, n: nat) {
    && digits != "" && AllDigits(digits)
    && Decimal(digits) == n && (text == "%" + digits || text == digits)
  }

  ghost predicate Numbered(text: string, n: nat) { exists digits :: Numbers(text, digits, n) }

  lemma {:induction false} DigitsAre(text: string, i: nat, n: nat)
    requires i <= |text| && AllDigits(text[..i]) && Decimal(text[..i]) == n
    ensures DigitsValue(text, i, n).Some? <==> AllDigits(text)
    ensures AllDigits(text) ==> DigitsValue(text, i, n) == Some(Decimal(text))
    decreases |text| - i
  {
    if i == |text| {
      assert text[..i] == text;
    } else if Digit(text[i]) {
      var more := text[..i + 1];
      assert more[..i] == text[..i];
      assert forall k | 0 <= k < i :: more[k] == text[..i][k];
      DigitsAre(text, i + 1, n * 10 + (text[i] as int - '0' as int));
    }
  }

  lemma ParamIndexIs(text: string, n: nat)
    ensures ParamIndex(text) == Some(n) <==> Numbered(text, n)
  {
    var digits := if text != "" && text[0] == '%' then text[1..] else text;
    DigitsAre(digits, 0, 0);
    if ParamIndex(text) == Some(n) {
      assert text[0] == '%' ==> text == "%" + digits;
      assert Numbers(text, digits, n);
    }
    forall ds | Numbers(text, ds, n) ensures ParamIndex(text) == Some(n) {
      assert text == "%" + ds ==> text[1..] == ds;
    }
  }

  // ----- a body with its arguments --------------------------------------------------------------------

  // The token is a parameter, and its argument has this place in the list.
  ghost predicate NamesPlace(m: Macro, t: Ptok, place: nat) {
    || (t.kind == MacroParam && exists n: nat :: Numbered(t.text, n) && n in m.paramSlots && m.paramSlots[n] == place)
    || (t.kind == Identifier && t.text in m.namedParams && m.namedParams[t.text] == place)
  }

  // The token is a parameter, declared or not.
  ghost predicate IsParameter(m: Macro, t: Ptok) {
    || (t.kind == MacroParam && exists n: nat :: Numbered(t.text, n))
    || (t.kind == Identifier && t.text in m.namedParams)
  }

  // What one token of the body becomes: a parameter its argument, or nothing where there is none;
  // any other token itself.
  ghost predicate Becomes(m: Macro, t: Ptok, args: seq<seq<Ptok>>, piece: seq<Ptok>) {
    if exists place: nat :: NamesPlace(m, t, place) && place < |args| then
      exists place: nat :: NamesPlace(m, t, place) && place < |args| && piece == args[place]
    else if IsParameter(m, t) then piece == []
    else piece == [t]
  }

  function Joined(pieces: seq<seq<Ptok>>): seq<Ptok> {
    if pieces == [] then [] else Joined(pieces[..|pieces| - 1]) + pieces[|pieces| - 1]
  }

  ghost predicate AllBecome(m: Macro, body: seq<Ptok>, args: seq<seq<Ptok>>, pieces: seq<seq<Ptok>>) {
    |pieces| == |body| && forall k | 0 <= k < |body| :: Becomes(m, body[k], args, pieces[k])
  }

  lemma TokenBecomes(m: Macro, t: Ptok, args: seq<seq<Ptok>>)
    ensures Becomes(m, t, args, BodyToken(m, t, args))
  {
    hide ParamIndex;
    forall n: nat ensures ParamIndex(t.text) == Some(n) <==> Numbered(t.text, n) {
      ParamIndexIs(t.text, n);
    }
    if t.kind == MacroParam && ParamIndex(t.text).Some? {
      var n := ParamIndex(t.text).value;
      assert Numbered(t.text, n);
      if n in m.paramSlots { assert NamesPlace(m, t, m.paramSlots[n]); }
    } else if t.kind == Identifier && t.text in m.namedParams {
      assert NamesPlace(m, t, m.namedParams[t.text]);
    }
  }

  lemma {:induction false} BodyBecomes(m: Macro, body: seq<Ptok>, args: seq<seq<Ptok>>) returns (pieces: seq<seq<Ptok>>)
    ensures AllBecome(m, body, args, pieces) && Params(m, body, args) == Joined(pieces)
  {
    hide Becomes, BodyToken;
    pieces := [];
    if body == [] { return; }
    var before, t := body[..|body| - 1], body[|body| - 1];
    var first := BodyBecomes(m, before, args);
    pieces := first + [BodyToken(m, t, args)];
    assert pieces[..|before|] == first;
    TokenBecomes(m, t, args);
    forall k | 0 <= k < |body| ensures Becomes(m, body[k], args, pieces[k]) {
      assert k < |before| ==> before[k] == body[k] && first[k] == pieces[k];
    }
  }

  // ----- the place of a use ------------------------------------------------------------------------------

  // The word at the front of a text: as many letters, digits, `_` and `@` as there are, not a digit first.
  ghost predicate FrontWord(text: string, word: string) {
    && word != "" && word <= text && PawnAlpha(word[0]) && (forall k | 0 <= k < |word| :: PawnAlphanum(word[k]))
    && (|word| < |text| ==> !PawnAlphanum(text[|word|]))
  }

  lemma FrontWordIs(text: string, word: string)
    requires FrontWord(text, word)
    ensures MacroPrefix(text) == word
  {
    var e := PrefixLength(text, 0);
    assert forall k | 0 <= k < |word| :: word[k] == text[k];
    assert word == text[..|word|];
  }

  // The token starts with the name of this macro, looked up as far as names go in the table.
  ghost predicate NamesMacro(c: Config, t: Ptok, word: string, m: Macro) {
    && FrontWord(t.text, word)
    && var cut := if 0 < c.maxNameLength < |word| then word[..c.maxNameLength] else word;
       cut in c.macros && c.macros[cut] == m
  }

  lemma NamedIsLookedUp(c: Config, t: Ptok, word: string, m: Macro)
    requires NamesMacro(c, t, word, m)
    ensures FrontWord(t.text, word) && MacroPrefix(t.text) == word != "" && Lookup(c, word) == Some(m)
  {
    FrontWordIs(t.text, word);
  }

  // A call among other tokens.
  datatype Site = Site(before: seq<Ptok>, name: Ptok, open: Ptok, inside: seq<Ptok>, close: Ptok, rest: seq<Ptok>)
  {
    function Call(): seq<Ptok> { [name, open] + inside + [close] }

    function Toks(): seq<Ptok> { before + Call() + rest }
  }

  // The call holds these arguments: each with its brackets closed and no comma outside them, and
  // one comma between each and the next. Empty parentheses hold none.
  ghost predicate Holds(site: Site, args: seq<seq<Ptok>>) {
    && site.open.kind == LParen && site.open.text == "(" && site.close.kind == RParen
    && if site.inside == [] then args == [] else AllWhole(args) && Separated(site.inside, args)
  }

  // The spelling of a token list, each with the trivia behind it.
  function Spelled(toks: seq<Ptok>): string {
    if toks == [] then ""
    else Spelled(toks[..|toks| - 1]) + (toks[|toks| - 1].text + toks[|toks| - 1].trailing)
  }

  lemma {:induction false} SpelledFront(t: Ptok, rest: seq<Ptok>)
    ensures Spelled([t] + rest) == t.text + t.trailing + Spelled(rest)
  {
    var all := [t] + rest;
    if rest == [] {
      assert all[..0] == [];
    } else {
      var last := rest[|rest| - 1];
      assert all[..|all| - 1] == [t] + rest[..|rest| - 1];
      SpelledFront(t, rest[..|rest| - 1]);
      Reassociate(t.text + t.trailing, Spelled(rest[..|rest| - 1]), last.text + last.trailing);
    }
  }

  lemma {:induction false} SignatureIs(toks: seq<Ptok>)
    ensures Signature(toks) == Spelled(toks)
  {
    if toks != [] {
      SignatureIs(toks[1..]);
      assert toks == [toks[0]] + toks[1..];
      SpelledFront(toks[0], toks[1..]);
    }
  }

  // The same macro already replaced the same text on the way to this token.
  ghost predicate Repeats(t: Ptok, m: Macro, text: string) {
    m.pattern != m.name && (if m.name in t.seen then t.seen[m.name] else "") == text
  }

  lemma CallIsCollected(site: Site, args: seq<seq<Ptok>>)
    requires Holds(site, args)
    ensures var i, toks := |site.before|, site.Toks();
            var next := i + |site.Call()|;
            && i + 1 < next <= |toks|
            && toks[i] == site.name && toks[i + 1] == site.open && toks[next - 1] == site.close
            && toks[i..next] == site.Call() && toks[..i] == site.before && toks[next..] == site.rest
            && CollectArgs(toks, i + 2) == Some(Args(args, next))
  {
    hide CollectArgs, AllWhole, Separated;
    var i, toks := |site.before|, site.Toks();
    var next := i + |site.Call()|;
    assert toks[i..next] == site.Call() && toks[i + 2..next - 1] == site.inside;
    CollectsExactly(toks, i + 2, args, next);
  }

  lemma CallIsUse(c: Config, site: Site, word: string, m: Macro, args: seq<seq<Ptok>>)
    requires NamesMacro(c, site.name, word, m) && word !in site.name.hidden && m.namedParams != map[]
    requires Holds(site, args)
    ensures var i := |site.before|;
            i < |site.Toks()| && UseAt(c, site.Toks(), i) ==
              if Repeats(site.name, m, Spelled(site.Call())) then None
              else Some(Use(m, Params(m, m.body, args), i + |site.Call()|, site.close.trailing,
                            if m.pattern == m.name then "" else Spelled(site.Call())))
  {
    hide CollectArgs, Params, PatternUse, MacroPrefix, Lookup, Signature, Spelled, NamesMacro, Holds;
    NamedIsLookedUp(c, site.name, word, m);
    CallIsCollected(site, args);
    SignatureIs(site.Call());
    assert |m.namedParams| != 0;
    HoldsParen(site, args);
  }

  lemma HoldsParen(site: Site, args: seq<seq<Ptok>>)
    requires Holds(site, args)
    ensures site.open.kind == LParen && site.open.text == "("
  {
  }

  // ----- what is put in ------------------------------------------------------------------------------------

  // The replacing tokens: the items, one level deeper than the name, with the trivia around the
  // use. A macro named by all of its pattern is not expanded in them again; any other remembers
  // the text it replaced.
  ghost predicate PutIn(r: seq<Ptok>, items: seq<Ptok>, name: Ptok, m: Macro, text: string, behind: string) {
    |r| == |items| && forall k | 0 <= k < |r| :: PutInAt(r, items, k, name, m, text, behind)
  }

  ghost predicate PutInAt(r: seq<Ptok>, items: seq<Ptok>, k: nat, name: Ptok, m: Macro, text: string, behind: string)
    requires k < |r| == |items|
  {
    && r[k].kind == items[k].kind && r[k].text == items[k].text && r[k].depth == name.depth + 1
    && r[k].hidden == items[k].hidden + (if m.pattern == m.name then {m.name} else {})
    && r[k].leading == (if k == 0 then name.leading else "") + items[k].leading
    && r[k].trailing == items[k].trailing + (if k == |r| - 1 then behind else "")
    && r[k].seen == (if m.pattern == m.name || text == "" then name.seen + items[k].seen
                     else (name.seen + items[k].seen)[m.name := text])
  }

  // Where nothing is put in, the trivia go to the token behind, or else to the one in front.
  ghost predicate Closes(before: seq<Ptok>, rest: seq<Ptok>, before': seq<Ptok>, rest': seq<Ptok>, none: bool,
                         leading: string, behind: string)
  {
    if !none then before' == before && rest' == rest
    else if rest != [] then
      before' == before && rest' == [rest[0].(leading := leading + behind + rest[0].leading)] + rest[1..]
    else if before != [] then
      var last := before[|before| - 1];
      rest' == [] && before' == before[..|before| - 1] + [last.(trailing := last.trailing + leading + behind)]
    else before' == [] && rest' == []
  }

  // The tokens behind a step that replaces what stands from i to next by the items.
  ghost predicate Replaced(toks: seq<Ptok>, i: nat, next: nat, items: seq<Ptok>, m: Macro, text: string,
                           behind: string, toks': seq<Ptok>)
    requires i < next <= |toks|
  {
    exists before', r, rest' ::
      && toks' == before' + r + rest' && PutIn(r, items, toks[i], m, text, behind)
      && Closes(toks[..i], toks[next..], before', rest', items == [], toks[i].leading, behind)
  }

  lemma ItemsPutIn(t: Ptok, u: Use)
    requires u.macro.pattern == u.macro.name ==> u.signature == ""
    ensures PutIn(Marked(AdjustedItems(t, u), t, u), u.items, t, u.macro,
                  if u.macro.pattern == u.macro.name then "" else u.signature, u.boundary)
  {
    var items := AdjustedItems(t, u);
    var r, text := Marked(items, t, u), if u.macro.pattern == u.macro.name then "" else u.signature;
    forall k | 0 <= k < |r| ensures PutInAt(r, u.items, k, t, u.macro, text, u.boundary) {
      assert r[k] == MarkItem(items[k], t, u);
      assert u.items[k].leading == "" + u.items[k].leading && u.items[k].trailing == u.items[k].trailing + "";
    }
  }

  lemma StepReplaces(c: Config, s: State, u: Use)
    requires s.i < u.next <= |s.toks| && s.toks[s.i].depth < c.maxDepth
    requires u.macro.pattern == u.macro.name ==> u.signature == ""
    ensures var s' := UseStep(c, s, u);
            && s'.i == s.i && s'.out == s.out
            && Replaced(s.toks, s.i, u.next, u.items, u.macro, u.signature, u.boundary, s'.toks)
  {
    hide Marked, AdjustedItems, PutIn;
    var t, toks := s.toks[s.i], AdjustedTokens(s.toks, s.i, u);
    var r := Marked(AdjustedItems(t, u), t, u);
    ItemsPutIn(t, u);
    TriviaMoves(s.toks, s.i, u);
    assert UseStep(c, s, u).toks == toks[..s.i] + r + toks[u.next..];
  }

  lemma TriviaMoves(toks: seq<Ptok>, i: nat, u: Use)
    requires i < u.next <= |toks|
    ensures var toks' := AdjustedTokens(toks, i, u);
            Closes(toks[..i], toks[u.next..], toks'[..i], toks'[u.next..], u.items == [], toks[i].leading, u.boundary)
  {
    var before, rest := toks[..i], toks[u.next..];
    if u.items != [] { return; }
    if rest != [] {
      assert rest == [rest[0]] + rest[1..];
    } else if before != [] {
      assert before == before[..|before| - 1] + [before[|before| - 1]];
    }
  }

  // ----- calls of macros ---------------------------------------------------------------------------------

  // What is remembered of a replaced text.
  function Remembered(m: Macro, text: string): string { if m.pattern == m.name then "" else text }

  // The token is not the `defined` of a condition.
  predicate Expands(c: Config, t: Ptok) { !(c.conditionMode && t.kind == KwDefined) }

  lemma ParenIsNotPasted(name: Ptok, open: Ptok)
    requires open.text == "("
    ensures !Pastes(name, open)
  {
    var joined := name.text + open.text;
    assert joined[|joined| - 1] == '(';
  }

  lemma CallSteps(c: Config, site: Site, word: string, m: Macro, args: seq<seq<Ptok>>, out: Output)
    requires NamesMacro(c, site.name, word, m) && word !in site.name.hidden && m.namedParams != map[]
    requires Holds(site, args) && Expands(c, site.name)
    ensures var s := State(site.Toks(), |site.before|, out);
            && s.i < |s.toks| && s.toks[s.i] == site.name
            && Step(c, s) == if Repeats(site.name, m, Spelled(site.Call())) then
                               s.(i := s.i + 1, out := Emit(c, out, site.name))
                             else
                               UseStep(c, s, Use(m, Params(m, m.body, args), s.i + |site.Call()|, site.close.trailing,
                                                 Remembered(m, Spelled(site.Call()))))
  {
    hide *;
    CallIsUse(c, site, word, m, args);
    CallIsCollected(site, args);
    HoldsParen(site, args);
    ParenIsNotPasted(site.name, site.open);
    UseIsStep(c, State(site.Toks(), |site.before|, out));
    RepeatsForgets(site.name, m, Spelled(site.Call()));
  }

  lemma RepeatsForgets(t: Ptok, m: Macro, text: string)
    ensures Remembered(m, text) == if m.pattern == m.name then "" else text
  {
  }

  // A step that neither passes a `defined` on nor pastes.
  lemma UseIsStep(c: Config, s: State)
    requires s.i < |s.toks| && Expands(c, s.toks[s.i])
    requires s.i + 1 < |s.toks| ==> !Pastes(s.toks[s.i], s.toks[s.i + 1])
    ensures UseAt(c, s.toks, s.i).Some? ==> Step(c, s) == UseStep(c, s, UseAt(c, s.toks, s.i).value)
    ensures UseAt(c, s.toks, s.i).None? ==> Step(c, s) == s.(i := s.i + 1, out := Emit(c, s.out, s.toks[s.i]))
  {
    hide UseAt, UseStep, Emit, Pastes, DefinedStep;
  }

  // A call of a macro, neither hidden nor repeated, is replaced by the macro's body, each parameter
  // of which has become its argument.
  lemma CallReplaced(c: Config, site: Site, word: string, m: Macro, args: seq<seq<Ptok>>, out: Output)
    returns (pieces: seq<seq<Ptok>>)
    requires NamesMacro(c, site.name, word, m) && word !in site.name.hidden && m.namedParams != map[]
    requires Holds(site, args) && Expands(c, site.name) && !Repeats(site.name, m, Spelled(site.Call()))
    requires site.name.depth < c.maxDepth
    ensures AllBecome(m, m.body, args, pieces)
    ensures var s := State(site.Toks(), |site.before|, out);
            && s.i < |s.toks|
            && var s' := Step(c, s);
               && s'.i == s.i && s'.out == out
               && Replaced(s.toks, s.i, s.i + |site.Call()|, Joined(pieces), m, Remembered(m, Spelled(site.Call())),
                           site.close.trailing, s'.toks)
  {
    hide Step, UseStep, NamesMacro, Holds, Spelled, Params, AllBecome, Replaced;
    pieces := BodyBecomes(m, m.body, args);
    CallSteps(c, site, word, m, args, out);
    var s := State(site.Toks(), |site.before|, out);
    StepReplaces(c, s, Use(m, Joined(pieces), s.i + |site.Call()|, site.close.trailing,
                           Remembered(m, Spelled(site.Call()))));
  }

  // A call that repeats is passed on as it stands.
  lemma RepeatedPassed(c: Config, site: Site, word: string, m: Macro, args: seq<seq<Ptok>>, out: Output)
    requires NamesMacro(c, site.name, word, m) && m.namedParams != map[]
    requires Holds(site, args) && Expands(c, site.name) && Repeats(site.name, m, Spelled(site.Call()))
    ensures var s := State(site.Toks(), |site.before|, out);
            s.i < |s.toks| && Step(c, s) == s.(i := s.i + 1, out := Emit(c, out, site.name))
  {
    hide *;
    if word in site.name.hidden {
      CallIsCollected(site, args);
      HoldsParen(site, args);
      ParenIsNotPasted(site.name, site.open);
      NamedIsLookedUp(c, site.name, word, m);
      HiddenPassed(c, State(site.Toks(), |site.before|, out), word);
    } else {
      CallSteps(c, site, word, m, args, out);
    }
  }

  // So is a token whose front word is hidden in it, or names no macro.
  lemma HiddenPassed(c: Config, s: State, word: string)
    requires s.i < |s.toks| && Expands(c, s.toks[s.i])
    requires s.i + 1 < |s.toks| ==> !Pastes(s.toks[s.i], s.toks[s.i + 1])
    requires FrontWord(s.toks[s.i].text, word)
    requires word in s.toks[s.i].hidden
             || (if 0 < c.maxNameLength < |word| then word[..c.maxNameLength] else word) !in c.macros
    ensures Step(c, s) == s.(i := s.i + 1, out := Emit(c, s.out, s.toks[s.i]))
  {
    FrontWordIs(s.toks[s.i].text, word);
    hide Pastes, PatternUse, CollectArgs, Params, Emit, MacroPrefix, UseStep, DefinedStep;
  }

  // And one that starts with no word.
  lemma OthersPassed(c: Config, s: State)
    requires s.i < |s.toks| && Expands(c, s.toks[s.i])
    requires s.i + 1 < |s.toks| ==> !Pastes(s.toks[s.i], s.toks[s.i + 1])
    requires s.toks[s.i].text == "" || !PawnAlpha(s.toks[s.i].text[0])
    ensures Step(c, s) == s.(i := s.i + 1, out := Emit(c, s.out, s.toks[s.i]))
  {
    hide Pastes, PatternUse, CollectArgs, Params, Emit, UseStep, DefinedStep;
    assert MacroPrefix(s.toks[s.i].text) == "";
  }

  // At the depth limit nothing is replaced: output ends.
  lemma TooDeepEnds(c: Config, site: Site, word: string, m: Macro, args: seq<seq<Ptok>>, out: Output)
    requires NamesMacro(c, site.name, word, m) && word !in site.name.hidden && m.namedParams != map[]
    requires Holds(site, args) && Expands(c, site.name) && !Repeats(site.name, m, Spelled(site.Call()))
    requires site.name.depth >= c.maxDepth
    ensures var s := State(site.Toks(), |site.before|, out);
            && s.i < |s.toks|
            && var s' := Step(c, s);
               s'.i == s.i + 1 && |s'.toks| == |s.toks| && s'.out == out.(truncated := true)
  {
    hide Step, NamesMacro, Holds, Spelled, Params, AdjustedTokens, FrontWord, Repeats, AllWhole, Separated;
    CallSteps(c, site, word, m, args, out);
  }

  // Writing adds the token's text to the output, behind a blank if there is text before it, as long
  // as the limit is not reached; then output ends.
  lemma Writes(c: Config, out: Output, t: Ptok)
    requires !out.truncated
    ensures var out' := Emit(c, out, t);
            if out.attempts >= c.maxOutput then out'.truncated && out'.tokens == out.tokens && out'.buffer == out.buffer
            else
              && !out'.truncated && out'.attempts == out.attempts + 1
              && out'.buffer == out.buffer + (if |out.buffer| > 0 then " " else "") + t.text
              && out'.tokens == out.tokens + [OutToken(t.text, |out'.buffer| - |t.text|, |out'.buffer|)]
  {
  }

  // Tokens enter the loop with what is hidden from all of them, and no less deep than the run.
  lemma EntersRaised(toks: seq<Ptok>, hide_: set<string>, depth: nat, k: nat)
    requires k < |toks|
    ensures var t := Raised(toks, hide_, depth)[k];
            && t.hidden == toks[k].hidden + hide_ && t.depth >= depth && t.depth >= toks[k].depth
            && (t.depth == depth || t.depth == toks[k].depth)
            && t.(hidden := {}, depth := 0) == toks[k].(hidden := {}, depth := 0)
  {
  }

  // ----- pasting, and what passes unexpanded ---------------------------------------------------------------

  // Two tokens that touch and make a word together become one, in the place of both.
  lemma TouchingPasted(c: Config, s: State)
    requires s.i + 1 < |s.toks| && Expands(c, s.toks[s.i])
    requires s.toks[s.i].text != "" && s.toks[s.i + 1].text != ""
    requires s.toks[s.i].trailing == "" && s.toks[s.i + 1].leading == ""
    requires FrontWord(s.toks[s.i].text + s.toks[s.i + 1].text, s.toks[s.i].text + s.toks[s.i + 1].text)
    ensures var l, r := s.toks[s.i], s.toks[s.i + 1];
            var depth := if l.depth < r.depth then r.depth else l.depth;
            Step(c, s) == s.(toks := s.toks[..s.i]
                                     + [Ptok(l.kind, l.text + r.text, l.leading, r.trailing, l.hidden + r.hidden,
                                             l.seen, depth)]
                                     + s.toks[s.i + 2..])
  {
    hide UseAt, UseStep, DefinedStep;
  }

  // No others are: they touch, and make a word together.
  lemma PastedTouch(l: Ptok, r: Ptok)
    ensures Pastes(l, r) ==>
              l.trailing == "" && r.leading == "" && FrontWord(l.text + r.text, l.text + r.text)
  {
    assert l.text + r.text <= l.text + r.text;
  }

  // In a condition `defined`, a parenthesis behind it and the name it asks for are written; the
  // name is hidden in its token, so that it is not expanded.
  lemma DefinedPassed(c: Config, s: State, paren: bool, word: string)
    requires c.conditionMode && s.i < |s.toks| && s.toks[s.i].kind == KwDefined
    requires paren <==> s.i + 1 < |s.toks| && s.toks[s.i + 1].kind == LParen
    requires var j := if paren then s.i + 2 else s.i + 1;
             j < |s.toks| && s.toks[j].kind == Identifier && FrontWord(s.toks[j].text, word)
    ensures var j := if paren then s.i + 2 else s.i + 1;
            var name := s.toks[j].(hidden := s.toks[j].hidden + {word});
            var out := Emit(c, s.out, s.toks[s.i]);
            var s1 := State(s.toks[j := name], j, if paren then Emit(c, out, s.toks[s.i + 1]) else out);
            && Step(c, s) == s1
            && ((j + 1 < |s.toks| ==> !Pastes(name, s.toks[j + 1])) ==>
                  Step(c, s1) == s1.(i := j + 1, out := Emit(c, s1.out, name)))
  {
    hide Emit, Pastes, UseAt, MacroPrefix;
    var j := if paren then s.i + 2 else s.i + 1;
    FrontWordIs(s.toks[j].text, word);
    var name := s.toks[j].(hidden := s.toks[j].hidden + {word});
    var out := Emit(c, s.out, s.toks[s.i]);
    var s1 := State(s.toks[j := name], j, if paren then Emit(c, out, s.toks[s.i + 1]) else out);
    hide Step, DefinedStep;
    DefinedIsStep(c, s);
    if j + 1 < |s.toks| ==> !Pastes(name, s.toks[j + 1]) { HiddenPassed(c, s1, word); }
  }

  lemma DefinedIsStep(c: Config, s: State)
    requires c.conditionMode && s.i < |s.toks| && s.toks[s.i].kind == KwDefined
    ensures var paren := s.i + 1 < |s.toks| && s.toks[s.i + 1].kind == LParen;
            var j := if paren then s.i + 2 else s.i + 1;
            var out := Emit(c, s.out, s.toks[s.i]);
            var named := j < |s.toks| && s.toks[j].kind == Identifier && MacroPrefix(s.toks[j].text) != "";
            Step(c, s) ==
            State(if named then s.toks[j := s.toks[j].(hidden := s.toks[j].hidden + {MacroPrefix(s.toks[j].text)})]
                  else s.toks, j, if paren then Emit(c, out, s.toks[s.i + 1]) else out)
  {
    hide Emit, MacroPrefix, UseAt, UseStep, Pastes;
  }
}
