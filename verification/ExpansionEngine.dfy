// The engine that runs the rescanning loop in place (preprocess/expand.go,
// expandRun and appendOut). Its loop performs exactly the steps of Expansion.Step
// and ends because the depth measure cannot fall for ever.
module ExpansionEngine {
  import opened Chars
  import opened Tokens
  import opened PatternMatch
  import opened PatternInput
  import opened MacroBody
  import opened Expansion
  import opened DepthOrder
  import opened Rescan

  class Engine {
    const config: Config
    var out: seq<OutToken>
    var expandedBuf: string
    var outputTokens: nat
    var truncated: bool

    constructor (config: Config)
      ensures this.config == config && Out() == Output([], "", 0, false)
    {
      this.config := config;
      out, expandedBuf, outputTokens, truncated := [], "", 0, false;
    }

    function Out(): Output
      reads this
    {
      Output(out, expandedBuf, outputTokens, truncated)
    }

    method AppendOut(t: Ptok)
      modifies this
      ensures Out() == Emit(config, old(Out()), t)
    {
      if truncated { return; }
      outputTokens := outputTokens + 1;
      if outputTokens > config.maxOutput {
        truncated := true;
        return;
      }
      if |expandedBuf| > 0 {
        expandedBuf := expandedBuf + [' '];
      }
      var start := |expandedBuf|;
      expandedBuf := expandedBuf + t.text;
      out := out + [OutToken(t.text, start, start + |t.text|)];
    }

    method ExpandPatternSlice(toks: seq<Ptok>, i: nat, m: Macro) returns (r: Option<Use>)
      requires i < |toks|
      ensures r == PatternUse(config, toks, i, m)
    {
      var input := MakePatternTokenInput(toks, i);
      var found := MatchPawnPattern(input.text, m.pattern, config.semicolons, config.control);
      if found.NoMatch? { return None; }
      ConsumedInBounds(toks, i, found.end);
      var used := ConsumedTokens(input, found.end);
      if !used.aligned || used.count == 0 || i + used.count > |toks| { return None; }
      var text, segments := SubstituteMacroBody(m.bodyText, input.text, found.args);
      var items := config.lex(text);
      var last := toks[i + used.count - 1];
      if used.suffixOffset >= 0 {
        items := items + [SplitSuffix(last, used.suffixOffset)];
      }
      return Some(Use(m, items, i + used.count, last.trailing[used.trailing..], ""));
    }

    method FindUse(toks: seq<Ptok>, i: nat) returns (r: Option<Use>)
      requires i < |toks|
      ensures r == UseAt(config, toks, i)
    {
      hide MacroPrefix, Lookup, PatternUse, CollectArgs, Params, Signature, SeenSignature;
      var t := toks[i];
      var name := MacroPrefix(t.text);
      if name == "" || name in t.hidden || Lookup(config, name).None? { return None; }
      var m := Lookup(config, name).value;
      r := None;
      var args: Option<Args> := None;
      if |m.namedParams| != 0 && i + 1 < |toks| && toks[i + 1].kind == LParen {
        args := CollectArgsSlice(toks, i + 2);
      }
      if args.Some? {
        var items := SubstituteParams(m, args.value.args);
        r := Some(Use(m, items, args.value.next, toks[args.value.next - 1].trailing, ""));
      } else {
        r := ExpandPatternSlice(toks, i, m);
      }
      if r.Some? && m.pattern != m.name {
        var signature := Signature(toks[i..r.value.next]);
        if SeenSignature(t.seen, m.name) == signature { return None; }
        r := Some(r.value.(signature := signature));
      }
    }

    // `defined`, an opening parenthesis and a name are passed through.
    method PassDefined(toks: seq<Ptok>, i: nat) returns (toks': seq<Ptok>, i': nat)
      requires i < |toks|
      modifies this
      ensures State(toks', i', Out()) == DefinedStep(config, State(toks, i, old(Out())))
    {
      hide MacroPrefix, Emit;
      toks', i' := toks, i;
      AppendOut(toks[i]);
      i' := i' + 1;
      if i' < |toks| && toks[i'].kind == LParen {
        AppendOut(toks[i']);
        i' := i' + 1;
      }
      if i' < |toks| && toks[i'].kind == Identifier {
        var name := MacroPrefix(toks[i'].text);
        if name != "" {
          toks' := toks[i' := toks[i'].(hidden := toks[i'].hidden + {name})];
        }
      }
    }

    // Splices a replacement in, or stops the run at the depth limit.
    method ApplyUse(toks: seq<Ptok>, i: nat, u: Use) returns (toks': seq<Ptok>, i': nat)
      requires i < u.next <= |toks|
      modifies this
      ensures State(toks', i', Out()) == UseStep(config, State(toks, i, old(Out())), u)
    {
      var t := toks[i];
      toks', i' := AdjustedTokens(toks, i, u), i;
      if t.depth + 1 > config.maxDepth {
        truncated := true;
        AppendOut(t);
        i' := i + 1;
      } else {
        toks' := Splice(toks', i, u.next, Marked(AdjustedItems(t, u), t, u));
      }
    }

    // One round of the loop on the live token list.
    method Round(toks: seq<Ptok>, i: nat) returns (toks': seq<Ptok>, i': nat)
      requires i < |toks|
      modifies this
      ensures State(toks', i', Out()) == Step(config, State(toks, i, old(Out())))
    {
      hide UseAt, UseStep, DefinedStep, Emit, Pastes;
      if config.conditionMode && toks[i].kind == KwDefined {
        toks', i' := PassDefined(toks, i);
        return;
      }
      toks', i' := toks, i;
      if i + 1 < |toks| {
        var pasted, ok := PasteAdjacentAlphanum(toks[i], toks[i + 1]);
        if ok {
          toks' := Splice(toks, i, i + 2, [pasted]);
          return;
        }
      }
      var found := FindUse(toks, i);
      if found.Some? {
        toks', i' := ApplyUse(toks, i, found.value);
        return;
      }
      AppendOut(toks[i]);
      i' := i + 1;
    }

    method ExpandRun(input: seq<Ptok>, hide_: set<string>, depth: nat)
      modifies this
      ensures exists n :: var s := Iterate(config, State(Raised(input, hide_, depth), 0, old(Out())), n);
                          Halted(s) && Out() == s.out
    {
      var toks, i := Raised(input, hide_, depth), 0;
      ghost var start, n, top := State(toks, 0, Out()), 0, Top(config, toks);
      AllTerminate(Measure(top, start));
      ghost var k: ORDINAL :| Terminates#[k](Measure(top, start));
      while i < |toks| && !truncated
        invariant 0 <= i <= |toks| && Bounded(top, toks)
        invariant State(toks, i, Out()) == Iterate(config, start, n)
        invariant Terminates#[k](Measure(top, State(toks, i, Out())))
        decreases k
      {
        ghost var s := State(toks, i, Out());
        toks, i := Round(toks, i);
        StepDescends(config, top, s);
        k := Descend(k, Measure(top, s), Measure(top, Step(config, s)));
        IterateMore(config, start, n);
        n := n + 1;
      }
    }
  }

  // A run that starts with no output and is not cut short: its tokens are within
  // the limit and mark their own spelling; without macros nothing is lost.
  lemma RunFromNothing(c: Config, toks: seq<Ptok>, n: nat)
    ensures var s := Iterate(c, State(toks, 0, Output([], "", 0, false)), n);
      && OutputOk(c, s.out)
      && (Halted(s) && !s.out.truncated && c.macros == map[] ==> OutputTexts(s.out.tokens) == TokenTexts(toks))
  {
    var start := State(toks, 0, Output([], "", 0, false));
    RunKeepsOutput(c, start, n);
    DepthStaysBounded(c, Top(c, toks), start, n);
    if c.macros == map[] {
      NoMacrosNoChange(c, start, n);
      var s := Iterate(c, start, n);
      assert AllText(start) == TokenTexts(toks) by { assert toks[0..] == toks; }
      if Halted(s) && !s.out.truncated {
        assert s.toks[s.i..] == [];
        assert AllText(s) == OutputTexts(s.out.tokens) + "";
      }
    }
  }
}
