// Expansion always ends, stays within its depth limit, and keeps its output in
// step with the spelled buffer; the loop is proved to perform exactly these steps.
module Rescan {
  import opened Chars
  import opened Tokens
  import opened PatternInput
  import opened Expansion
  import opened DepthOrder

  // No token is deeper than `top`.
  ghost predicate Bounded(top: nat, toks: seq<Ptok>) {
    forall k | 0 <= k < |toks| :: toks[k].depth <= top
  }

  // The depth limit, or the depth of the deepest token beyond it.
  function Top(c: Config, toks: seq<Ptok>): (top: nat)
    ensures c.maxDepth <= top && forall k | 0 <= k < |toks| :: toks[k].depth <= top
  {
    if toks == [] then c.maxDepth
    else
      var before := Top(c, toks[..|toks| - 1]);
      var d := toks[|toks| - 1].depth;
      assert forall k | 0 <= k < |toks| - 1 :: toks[k] == toks[..|toks| - 1][k];
      if d > before then d else before
  }

  // ----- the measure ----------------------------------------------------------------

  function Depths(toks: seq<Ptok>): (r: seq<nat>)
    ensures |r| == |toks| && forall k | 0 <= k < |r| :: r[k] == toks[k].depth
  {
    seq(|toks|, k requires 0 <= k < |toks| => toks[k].depth)
  }

  function Count(ds: seq<nat>, d: nat): nat {
    if ds == [] then 0 else (if ds[0] == d then 1 else 0) + Count(ds[1..], d)
  }

  // The unprocessed tokens by depth, shallowest first.
  function Measure(top: nat, s: State): seq<nat> {
    seq(top + 1, d requires 0 <= d => Count(Depths(s.toks)[if s.i <= |s.toks| then s.i else |s.toks|..], d))
  }

  lemma {:induction false} CountConcat(a: seq<nat>, b: seq<nat>, d: nat)
    ensures Count(a + b, d) == Count(a, d) + Count(b, d)
    decreases |a|
  {
    if a == [] {
      assert a + b == b;
    } else {
      assert (a + b)[1..] == a[1..] + b;
      CountConcat(a[1..], b, d);
    }
  }

  lemma {:induction false} CountZero(ds: seq<nat>, d: nat)
    requires forall k | 0 <= k < |ds| :: ds[k] > d
    ensures Count(ds, d) == 0
    decreases |ds|
  {
    if ds != [] {
      CountZero(ds[1..], d);
    }
  }

  // Replacing a token of depth d0 and what follows it by deeper tokens.
  lemma ReplaceDescends(ds: seq<nat>, ds': seq<nat>, d0: nat, consumed: seq<nat>, fresh_: seq<nat>, tail: seq<nat>,
                        d: nat)
    requires ds == [d0] + consumed + tail && ds' == fresh_ + tail
    requires forall k | 0 <= k < |fresh_| :: fresh_[k] > d0
    requires d <= d0
    ensures Count(ds', d) <= Count(ds, d) && (d == d0 ==> Count(ds', d) < Count(ds, d))
  {
    CountConcat([d0] + consumed, tail, d);
    CountConcat([d0], consumed, d);
    CountConcat(fresh_, tail, d);
    CountZero(fresh_, d);
  }

  lemma PasteDescends(a: nat, b: nat, tail: seq<nat>, d: nat)
    ensures var kept, gone := if a < b then b else a, if a < b then a else b;
      && Count([kept] + tail, d) <= Count([a, b] + tail, d)
      && (d == gone ==> Count([kept] + tail, d) < Count([a, b] + tail, d))
  {
    var kept := if a < b then b else a;
    CountConcat([a, b], tail, d);
    CountConcat([kept], tail, d);
    assert [a, b][1..] == [b] && [b][1..] == [];
  }

  // The rest of the tokens after a step, by depth.
  ghost predicate Descent(ds: seq<nat>, ds': seq<nat>, d0: nat) {
    && (forall d | 0 <= d < d0 :: Count(ds', d) <= Count(ds, d))
    && Count(ds', d0) < Count(ds, d0)
  }

  lemma DescentIsLess(top: nat, s: State, s': State, d0: nat)
    requires s.i <= |s.toks| && s'.i <= |s'.toks| && d0 <= top
    requires Descent(Depths(s.toks)[s.i..], Depths(s'.toks)[s'.i..], d0)
    ensures Less(Measure(top, s'), Measure(top, s))
  {
    SmallerAt(Measure(top, s'), Measure(top, s), d0);
  }

  // ds loses the token at its head, and perhaps more behind it, for deeper ones.
  lemma ReplaceIsDescent(ds: seq<nat>, ds': seq<nat>, n: nat, fresh_: seq<nat>)
    requires 0 < n <= |ds| && ds' == fresh_ + ds[n..]
    requires forall k | 0 <= k < |fresh_| :: fresh_[k] > ds[0]
    ensures Descent(ds, ds', ds[0])
  {
    assert ds == [ds[0]] + ds[1..n] + ds[n..];
    forall d | 0 <= d <= ds[0] ensures Count(ds', d) <= Count(ds, d) && (d == ds[0] ==> Count(ds', d) < Count(ds, d)) {
      ReplaceDescends(ds, ds', ds[0], ds[1..n], fresh_, ds[n..], d);
    }
  }

  // ----- what every step keeps ---------------------------------------------------------

  lemma SpliceDescends(c: Config, top: nat, s: State, toks: seq<Ptok>, next: nat, items: seq<Ptok>)
    requires c.maxDepth <= top
    requires s.i < next <= |s.toks| && Bounded(top, s.toks) && Depths(toks) == Depths(s.toks)
    requires forall k | 0 <= k < |items| :: s.toks[s.i].depth < items[k].depth <= c.maxDepth
    ensures var s' := State(Splice(toks, s.i, next, items), s.i, s.out);
      s'.i <= |s'.toks| && Bounded(top, s'.toks) && Less(Measure(top, s'), Measure(top, s))
  {
    var ds := Depths(s.toks)[s.i..];
    var s' := State(Splice(toks, s.i, next, items), s.i, s.out);
    forall k | 0 <= k < |s'.toks| ensures s'.toks[k].depth <= top {
      if k < s.i {
        assert Depths(toks)[k] == Depths(s.toks)[k];
      } else if k >= s.i + |items| {
        assert s'.toks[k] == toks[next..][k - s.i - |items|];
        assert Depths(toks)[next + k - s.i - |items|] == Depths(s.toks)[next + k - s.i - |items|];
      }
    }
    assert Depths(s'.toks)[s.i..] == Depths(items) + Depths(toks)[next..];
    ReplaceIsDescent(ds, Depths(s'.toks)[s.i..], next - s.i, Depths(items));
    DescentIsLess(top, s, s', ds[0]);
  }

  lemma UseDescends(c: Config, top: nat, s: State, u: Use)
    requires c.maxDepth <= top
    requires s.i < u.next <= |s.toks| && Bounded(top, s.toks)
    ensures var s' := UseStep(c, s, u);
      s'.i <= |s'.toks| && Bounded(top, s'.toks) && Less(Measure(top, s'), Measure(top, s))
  {
    var t := s.toks[s.i];
    var toks := AdjustedTokens(s.toks, s.i, u);
    hide Measure, Less, AdjustedTokens, AdjustedItems;
    assert Depths(toks) == Depths(s.toks);
    if t.depth + 1 > c.maxDepth {
      AdvanceDescends(c, top, s, UseStep(c, s, u));
    } else {
      SpliceDescends(c, top, s, toks, u.next, Marked(AdjustedItems(t, u), t, u));
    }
  }

  lemma PasteStepDescends(c: Config, top: nat, s: State)
    requires c.maxDepth <= top
    requires s.i + 1 < |s.toks| && Bounded(top, s.toks)
    ensures var s' := s.(toks := Splice(s.toks, s.i, s.i + 2, [Pasted(s.toks[s.i], s.toks[s.i + 1])]));
      s'.i <= |s'.toks| && Bounded(top, s'.toks) && Less(Measure(top, s'), Measure(top, s))
  {
    var l, r := s.toks[s.i], s.toks[s.i + 1];
    var s' := s.(toks := Splice(s.toks, s.i, s.i + 2, [Pasted(l, r)]));
    var ds, tail := Depths(s.toks)[s.i..], Depths(s.toks)[s.i + 2..];
    var kept, gone := if l.depth < r.depth then r.depth else l.depth, if l.depth < r.depth then l.depth else r.depth;
    assert ds == [l.depth, r.depth] + tail;
    assert Depths(s'.toks)[s.i..] == [kept] + tail;
    forall d | 0 <= d <= gone
      ensures Count([kept] + tail, d) <= Count(ds, d) && (d == gone ==> Count([kept] + tail, d) < Count(ds, d))
    {
      PasteDescends(l.depth, r.depth, tail, d);
    }
    DescentIsLess(top, s, s', gone);
  }

  // Moving on by one or two tokens without changing any depth.
  lemma AdvanceDescends(c: Config, top: nat, s: State, s': State)
    requires c.maxDepth <= top
    requires s.i < s'.i <= |s.toks| && Bounded(top, s.toks) && Depths(s'.toks) == Depths(s.toks)
    ensures s'.i <= |s'.toks| && Bounded(top, s'.toks) && Less(Measure(top, s'), Measure(top, s))
  {
    var ds := Depths(s.toks)[s.i..];
    forall k | 0 <= k < |s'.toks| ensures s'.toks[k].depth <= top {
      assert Depths(s'.toks)[k] == Depths(s.toks)[k];
    }
    assert Depths(s'.toks)[s'.i..] == [] + ds[s'.i - s.i..];
    ReplaceIsDescent(ds, Depths(s'.toks)[s'.i..], s'.i - s.i, []);
    DescentIsLess(top, s, s', ds[0]);
  }

  // Every step lowers the measure and makes no token deeper than the limit.
  lemma StepDescends(c: Config, top: nat, s: State)
    requires c.maxDepth <= top
    requires s.i < |s.toks| && Bounded(top, s.toks)
    ensures var s' := Step(c, s);
      s'.i <= |s'.toks| && Bounded(top, s'.toks) && Less(Measure(top, s'), Measure(top, s))
  {
    hide Measure, Less, UseAt, UseStep, Pastes;
    var t := s.toks[s.i];
    if c.conditionMode && t.kind == KwDefined {
      AdvanceDescends(c, top, s, DefinedStep(c, s));
    } else if s.i + 1 < |s.toks| && Pastes(t, s.toks[s.i + 1]) {
      PasteStepDescends(c, top, s);
    } else if UseAt(c, s.toks, s.i).Some? {
      UseDescends(c, top, s, UseAt(c, s.toks, s.i).value);
    } else {
      AdvanceDescends(c, top, s, s.(i := s.i + 1, out := Emit(c, s.out, t)));
    }
  }

  // ----- termination -----------------------------------------------------------------------

  lemma {:induction false} HaltsWithin(c: Config, top: nat, s: State, k: ORDINAL) returns (n: nat)
    requires c.maxDepth <= top
    requires s.i <= |s.toks| && Bounded(top, s.toks) && Terminates#[k](Measure(top, s))
    ensures Halted(Iterate(c, s, n))
    decreases k
  {
    if Halted(s) {
      n := 0;
    } else {
      StepDescends(c, top, s);
      var k' := Descend(k, Measure(top, s), Measure(top, Step(c, s)));
      hide Step, Measure;
      var rest := HaltsWithin(c, top, Step(c, s), k');
      n := rest + 1;
    }
  }

  // Expansion ends for every macro table, tokenizer and token list.
  lemma ExpansionTerminates(c: Config, s: State)
    requires s.i <= |s.toks|
    ensures exists n :: Halted(Iterate(c, s, n))
  {
    var top := Top(c, s.toks);
    AllTerminate(Measure(top, s));
    var k :| Terminates#[k](Measure(top, s));
    var n := HaltsWithin(c, top, s, k);
  }

  // No token ever goes past the depth limit, unless it came in deeper.
  lemma {:induction false} DepthStaysBounded(c: Config, top: nat, s: State, n: nat)
    requires c.maxDepth <= top
    requires s.i <= |s.toks| && Bounded(top, s.toks)
    ensures var r := Iterate(c, s, n); r.i <= |r.toks| && Bounded(top, r.toks)
    decreases n
  {
    if n > 0 && !Halted(s) {
      StepDescends(c, top, s);
      hide Step;
      DepthStaysBounded(c, top, Step(c, s), n - 1);
    }
  }

  // ----- output ------------------------------------------------------------------------------

  ghost predicate SpelledAt(out: Output, k: nat)
    requires k < |out.tokens|
  {
    var t, from := out.tokens[k], if k == 0 then 0 else out.tokens[k - 1].end;
    && t.start <= t.end <= |out.buffer| && out.buffer[t.start..t.end] == t.text
    && t.start == (if from == 0 then 0 else from + 1) && (from > 0 ==> from < |out.buffer| && out.buffer[from] == ' ')
  }

  // Output stays within its limit; each token marks its own spelling, one blank behind the text
  // before it.
  ghost predicate OutputOk(c: Config, out: Output) {
    && |out.tokens| <= c.maxOutput
    && (!out.truncated ==> out.attempts == |out.tokens|)
    && (out.tokens == [] ==> out.buffer == "")
    && (out.tokens != [] ==> out.tokens[|out.tokens| - 1].end == |out.buffer|)
    && forall k | 0 <= k < |out.tokens| :: SpelledAt(out, k)
  }

  lemma EmitKeepsOutput(c: Config, out: Output, t: Ptok)
    requires OutputOk(c, out)
    ensures OutputOk(c, Emit(c, out, t))
  {
    var out' := Emit(c, out, t);
    if out'.tokens != out.tokens {
      var n := |out.tokens|;
      forall k | 0 <= k < |out'.tokens| ensures SpelledAt(out', k) {
        if k < n {
          assert SpelledAt(out, k);
          assert out'.buffer[out.tokens[k].start..out.tokens[k].end]
                 == out.buffer[out.tokens[k].start..out.tokens[k].end];
        } else {
          assert out'.buffer[out'.tokens[n].start..out'.tokens[n].end] == t.text;
        }
      }
    } else {
      assert forall k | 0 <= k < |out'.tokens| :: SpelledAt(out, k) ==> SpelledAt(out', k);
    }
  }

  lemma StepKeepsOutput(c: Config, s: State)
    requires s.i < |s.toks| && OutputOk(c, s.out)
    ensures OutputOk(c, Step(c, s).out)
  {
    var t := s.toks[s.i];
    EmitKeepsOutput(c, s.out, t);
    if s.i + 1 < |s.toks| {
      EmitKeepsOutput(c, Emit(c, s.out, t), s.toks[s.i + 1]);
    }
    var out := s.out.(truncated := true);
    assert OutputOk(c, out) by {
      assert forall k | 0 <= k < |out.tokens| :: SpelledAt(s.out, k) ==> SpelledAt(out, k);
    }
    hide Emit, UseAt, Pastes, OutputOk;
  }

  lemma {:induction false} RunKeepsOutput(c: Config, s: State, n: nat)
    requires OutputOk(c, s.out)
    ensures OutputOk(c, Iterate(c, s, n).out)
    decreases n
  {
    if n > 0 && !Halted(s) {
      StepKeepsOutput(c, s);
      hide Step, OutputOk;
      RunKeepsOutput(c, Step(c, s), n - 1);
    }
  }

  // ----- nothing but macros changes the text ----------------------------------------------------

  function TokenTexts(toks: seq<Ptok>): string {
    if toks == [] then "" else toks[0].text + TokenTexts(toks[1..])
  }

  function OutputTexts(tokens: seq<OutToken>): string {
    if tokens == [] then "" else OutputTexts(tokens[..|tokens| - 1]) + tokens[|tokens| - 1].text
  }

  // The text written so far and the text still to come.
  function AllText(s: State): string {
    OutputTexts(s.out.tokens) + TokenTexts(s.toks[if s.i <= |s.toks| then s.i else |s.toks|..])
  }

  lemma EmitText(c: Config, out: Output, t: Ptok)
    ensures var out' := Emit(c, out, t);
            !out'.truncated ==> OutputTexts(out'.tokens) == OutputTexts(out.tokens) + t.text
  {
    var out' := Emit(c, out, t);
    if !out'.truncated {
      assert out'.tokens[..|out'.tokens| - 1] == out.tokens;
    }
  }

  lemma TextsAfterHead(toks: seq<Ptok>, i: nat)
    requires i < |toks|
    ensures TokenTexts(toks[i..]) == toks[i].text + TokenTexts(toks[i + 1..])
  {
    assert toks[i..][1..] == toks[i + 1..];
  }

  lemma EmitMovesText(c: Config, s: State)
    requires s.i < |s.toks|
    ensures var s' := s.(i := s.i + 1, out := Emit(c, s.out, s.toks[s.i]));
            !s'.out.truncated ==> AllText(s') == AllText(s)
  {
    TextsAfterHead(s.toks, s.i);
    EmitText(c, s.out, s.toks[s.i]);
    hide TokenTexts, OutputTexts;
    Reassociate(OutputTexts(s.out.tokens), s.toks[s.i].text, TokenTexts(s.toks[s.i + 1..]));
  }

  lemma {:induction false} SameTexts(a: seq<Ptok>, b: seq<Ptok>)
    requires |a| == |b| && forall k | 0 <= k < |a| :: a[k].text == b[k].text
    ensures TokenTexts(a) == TokenTexts(b)
    decreases |a|
  {
    if a != [] {
      SameTexts(a[1..], b[1..]);
    }
  }

  lemma DefinedMovesText(c: Config, s: State)
    requires s.i < |s.toks|
    ensures var s' := DefinedStep(c, s); !s'.out.truncated ==> AllText(s') == AllText(s)
  {
    EmitMovesText(c, s);
    var s1 := s.(i := s.i + 1, out := Emit(c, s.out, s.toks[s.i]));
    var s2 := s1;
    if s1.i < |s1.toks| && s1.toks[s1.i].kind == LParen {
      EmitMovesText(c, s1);
      s2 := s1.(i := s1.i + 1, out := Emit(c, s1.out, s1.toks[s1.i]));
    }
    var s' := DefinedStep(c, s);
    SameTexts(s2.toks[s2.i..], s'.toks[s'.i..]);
  }

  lemma PasteKeepsText(s: State)
    requires s.i + 1 < |s.toks|
    ensures AllText(s.(toks := Splice(s.toks, s.i, s.i + 2, [Pasted(s.toks[s.i], s.toks[s.i + 1])]))) == AllText(s)
  {
    var toks := Splice(s.toks, s.i, s.i + 2, [Pasted(s.toks[s.i], s.toks[s.i + 1])]);
    TextsAfterHead(s.toks, s.i);
    TextsAfterHead(s.toks, s.i + 1);
    TextsAfterHead(toks, s.i);
    assert toks[s.i + 1..] == s.toks[s.i + 2..];
    Reassociate(s.toks[s.i].text, s.toks[s.i + 1].text, TokenTexts(s.toks[s.i + 2..]));
  }

  // With no macro defined, what comes out spells what went in.
  lemma {:induction false} NoMacrosNoChange(c: Config, s: State, n: nat)
    requires c.macros == map[] && s.i <= |s.toks|
    ensures !Iterate(c, s, n).out.truncated ==> AllText(Iterate(c, s, n)) == AllText(s)
    decreases n
  {
    if n > 0 && !Halted(s) {
      var t := s.toks[s.i];
      if c.conditionMode && t.kind == KwDefined {
        DefinedMovesText(c, s);
      } else if s.i + 1 < |s.toks| && Pastes(t, s.toks[s.i + 1]) {
        PasteKeepsText(s);
      } else {
        EmitMovesText(c, s);
      }
      hide AllText, Emit, DefinedStep;
      NoMacrosNoChange(c, Step(c, s), n - 1);
      TruncationIsFinal(c, Step(c, s), n - 1);
    }
  }

  lemma {:induction false} TruncationIsFinal(c: Config, s: State, n: nat)
    ensures s.out.truncated ==> Iterate(c, s, n).out.truncated
  {
  }
}
