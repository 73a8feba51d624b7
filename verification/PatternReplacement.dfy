// What one step of rescanning puts in the place of a macro used by its pattern
// (preprocess/pattern.go, expandPatternSlice; preprocess/expand.go, expandRun).
module PatternReplacement {
  import opened Chars
  import opened Tokens
  import opened PatternMatch
  import opened PatternInput
  import opened MacroBody
  import opened Expansion
  import opened Replacement
  import Patterns = PatternLanguage
  import Body = BodyLanguage

  // No parenthesis stands where the arguments of the macro would begin.
  ghost predicate NoCall(toks: seq<Ptok>, i: nat, m: Macro) {
    m.namedParams == map[] || i + 1 >= |toks| || toks[i + 1].kind != LParen
  }

  // The tokens from i to next spell the matched text and then what is left over: the end of the last
  // token, which becomes a token of its own, and the trivia behind it.
  ghost predicate Consumes(toks: seq<Ptok>, i: nat, next: nat, matched: string, suffix: seq<Ptok>, behind: string) {
    && i < next <= |toks|
    && Spelling(toks, i, next - i) == matched + (if suffix == [] then "" else suffix[0].text) + behind
    && var last := toks[next - 1];
       && |behind| <= |last.trailing| && last.trailing[|last.trailing| - |behind|..] == behind
       && (suffix != [] ==>
             && behind == last.trailing && |suffix[0].text| <= |last.text|
             && suffix == [last.(text := last.text[|last.text| - |suffix[0].text|..], leading := "", trailing := "")])
  }

  lemma PatternIsUse(c: Config, toks: seq<Ptok>, i: nat, m: Macro, end: nat, args: Captures)
    returns (next: nat, suffix: seq<Ptok>, behind: string)
    requires i < |toks| && 0 < end
    requires MatchPattern(MakeInput(toks, i).text, m.pattern, c.semicolons, c.control) == Matched(end, args)
    ensures end <= |MakeInput(toks, i).text|
    ensures Consumes(toks, i, next, MakeInput(toks, i).text[..end], suffix, behind)
    ensures PatternUse(c, toks, i, m)
         == Some(Use(m, c.lex(Substituted(m.bodyText, 0, false, MakeInput(toks, i).text, args)) + suffix, next, behind,
                     ""))
  {
    hide MatchPattern, MakeInput, ConsumedFrom, Substituted, Spelling;
    SpellingConserved(toks, i, end);
    var input := MakeInput(toks, i);
    var used := ConsumedFrom(input, end, 0, 0);
    var last := toks[i + used.count - 1];
    next, behind := i + used.count, last.trailing[used.trailing..];
    suffix := if used.suffixOffset >= 0 then [SplitSuffix(last, used.suffixOffset)] else [];
    var items := c.lex(Substituted(m.bodyText, 0, false, input.text, args));
    assert items + [] == items;
    CutHasNoTrivia(input, end, 0, 0);
    LeftIs(toks, i, used, input.text[..end], suffix, behind);
  }

  lemma {:induction false} CutHasNoTrivia(input: Input, end: nat, index: nat, consumed: nat)
    requires |input.starts| == |input.ends| == |input.trailingEnds|
    ensures var r := ConsumedFrom(input, end, index, consumed); r.suffixOffset >= 0 ==> r.trailing == 0
    decreases |input.ends| - index
  {
    if index < |input.ends| { CutHasNoTrivia(input, end, index + 1, index + 1); }
  }

  lemma LeftIs(toks: seq<Ptok>, i: nat, used: Consumed, matched: string, suffix: seq<Ptok>, behind: string)
    requires 0 < used.count && i + used.count <= |toks|
    requires var last := toks[i + used.count - 1];
             && used.suffixOffset <= |last.text| && used.trailing <= |last.trailing|
             && behind == last.trailing[used.trailing..] && (used.suffixOffset >= 0 ==> used.trailing == 0)
             && suffix == if used.suffixOffset >= 0 then [SplitSuffix(last, used.suffixOffset)] else []
    requires Spelling(toks, i, used.count) == matched + LeftOver(toks, i, used)
    ensures Consumes(toks, i, i + used.count, matched, suffix, behind)
  {
    hide Spelling;
    var last := toks[i + used.count - 1];
    var cut := if suffix == [] then "" else suffix[0].text;
    assert LeftOver(toks, i, used) == cut + behind;
    Reassociate(matched, cut, behind);
    assert last.trailing[0..] == last.trailing;
  }

  lemma PatternSteps(c: Config, s: State, word: string, m: Macro, u: Use)
    requires s.i < |s.toks| && NamesMacro(c, s.toks[s.i], word, m) && word !in s.toks[s.i].hidden
    requires NoCall(s.toks, s.i, m) && Expands(c, s.toks[s.i])
    requires s.i + 1 < |s.toks| ==> !Pastes(s.toks[s.i], s.toks[s.i + 1])
    requires PatternUse(c, s.toks, s.i, m) == Some(u) && u.macro == m && u.signature == ""
    requires s.i < u.next <= |s.toks|
    ensures var text := Spelled(s.toks[s.i..u.next]);
            Step(c, s) == if Repeats(s.toks[s.i], m, text) then s.(i := s.i + 1, out := Emit(c, s.out, s.toks[s.i]))
                          else UseStep(c, s, u.(signature := Remembered(m, text)))
  {
    NamedIsLookedUp(c, s.toks[s.i], word, m);
    SignatureIs(s.toks[s.i..u.next]);
    assert m.namedParams != map[] <==> |m.namedParams| != 0;
    hide Pastes, PatternUse, CollectArgs, Params, Emit, MacroPrefix, Lookup, UseStep, DefinedStep, Signature, Spelled,
        NamesMacro;
  }

  // Where the shown text is an instance of a macro's pattern, the tokens it takes up are replaced by
  // the macro's body, each parameter of which has become what filled the pattern's parameter with
  // its digit, tokenized anew.
  lemma InstanceReplaced(c: Config, s: State, word: string, m: Macro, steps: Patterns.Steps, pieces: seq<Body.Piece>)
    returns (next: nat, suffix: seq<Ptok>, behind: string)
    requires s.i < |s.toks| && NamesMacro(c, s.toks[s.i], word, m) && word !in s.toks[s.i].hidden
    requires NoCall(s.toks, s.i, m) && Expands(c, s.toks[s.i]) && s.toks[s.i].depth < c.maxDepth
    requires s.i + 1 < |s.toks| ==> !Pastes(s.toks[s.i], s.toks[s.i + 1])
    requires Patterns.MatchesAs(MakeInput(s.toks, s.i).text, m.pattern, steps, c.semicolons, c.control)
    requires Body.Fits(pieces) && Body.Spelled(pieces) == m.bodyText
    ensures Consumes(s.toks, s.i, next,
                     m.pattern[..PrefixLength(m.pattern, 0)] + Patterns.StepsText(steps, c.control), suffix, behind)
    ensures var text := Spelled(s.toks[s.i..next]);
            var items := c.lex(Body.Filled(pieces, Body.Written(steps, c.control))) + suffix;
            var s' := Step(c, s);
            if Repeats(s.toks[s.i], m, text) then s' == s.(i := s.i + 1, out := Emit(c, s.out, s.toks[s.i]))
            else
              && s'.i == s.i && s'.out == s.out
              && Replaced(s.toks, s.i, next, items, m, Remembered(m, text), behind, s'.toks)
  {
    hide Step, UseStep, NamesMacro, Spelled, Replaced, Consumes, MakeInput, MatchPattern, Patterns.MatchesAs,
        PatternUse, Repeats;
    var input := MakeInput(s.toks, s.i).text;
    Body.InstanceSubstituted(input, m.pattern, steps, c.semicolons, c.control, pieces);
    var found := MatchPattern(input, m.pattern, c.semicolons, c.control);
    MatchedText(input, m.pattern, steps, c.semicolons, c.control);
    next, suffix, behind := PatternIsUse(c, s.toks, s.i, m, found.end, found.args);
    var items := c.lex(Body.Filled(pieces, Body.Written(steps, c.control))) + suffix;
    var u := Use(m, items, next, behind, "");
    UseEnds(s.toks, s.i, next, input[..found.end], suffix, behind);
    PatternSteps(c, s, word, m, u);
    var text := Spelled(s.toks[s.i..next]);
    if !Repeats(s.toks[s.i], m, text) { StepReplaces(c, s, u.(signature := Remembered(m, text))); }
  }

  lemma UseEnds(toks: seq<Ptok>, i: nat, next: nat, matched: string, suffix: seq<Ptok>, behind: string)
    requires Consumes(toks, i, next, matched, suffix, behind)
    ensures i < next <= |toks|
  {
  }

  lemma MatchedText(s: string, p: string, steps: Patterns.Steps, semis: bool, control: char)
    requires Patterns.MatchesAs(s, p, steps, semis, control)
    ensures var m := MatchPattern(s, p, semis, control);
            var text := p[..PrefixLength(p, 0)] + Patterns.StepsText(steps, control);
            m.Matched? && 0 < m.end <= |s| && s[..m.end] == text
  {
    hide Patterns.Instance, Patterns.StepsText, Patterns.StepsArgs;
    Patterns.InstanceMatches(s, p, steps, semis, control);
    hide MatchPattern;
    AtJoin(s, 0, p[..PrefixLength(p, 0)], Patterns.StepsText(steps, control));
    var text := p[..PrefixLength(p, 0)] + Patterns.StepsText(steps, control);
    assert s[..|text|] == s[0..|text|];
  }
}
