// A file's tokens driven through the directives (preprocess/engine.go, runContents;
// preprocess/directives.go, handleDirectiveLine; preprocess/expand.go, emitActive): where the
// lines of Conditionals come from, and that the loop over tokens does what they say.
module Frames {
  import opened Chars
  import opened Tokens
  import opened Conditionals

  // A token of a file. `ends` says that a line end follows it, `joined` that the text in front
  // of that line end ends in a backslash, blanks skipped.
  datatype Item = Item(tok: Tok, ends: bool, joined: bool)

  datatype Keyword = IfWord | ElseIfWord | ElseWord | EndIfWord | DefineWord | OtherWord

  function Classify(text: string): Keyword {
    if text == "if" then IfWord else if text == "elseif" then ElseIfWord else if text == "else" then ElseWord
    else if text == "endif" then EndIfWord else if text == "define" then DefineWord else OtherWord
  }

  predicate NamesMacro(text: string) { text != "" && PawnAlpha(text[0]) }

  function Toks(items: seq<Item>): (r: seq<Tok>)
    ensures |r| == |items| && forall k | 0 <= k < |r| :: r[k] == items[k].tok
  {
    seq(|items|, k requires 0 <= k < |items| => items[k].tok)
  }

  // Behind the line that pos is on.
  function LineEnd(items: seq<Item>, pos: nat): (end: nat)
    requires pos <= |items|
    ensures pos <= end <= |items| && (pos < |items| ==> pos < end)
    ensures end < |items| ==> 0 < end && items[end - 1].ends
    decreases |items| - pos
  {
    if pos == |items| then pos else if items[pos].ends then pos + 1 else LineEnd(items, pos + 1)
  }

  // ----- the lines of a file ------------------------------------------------------------------------

  // A line, where it ends, and where what follows a directive's keyword starts.
  datatype Cut = Cut(line: Line, end: nat)

  function PlainCut(items: seq<Item>, pos: nat, end: nat): (c: Cut)
    requires pos < end <= |items|
    ensures c.line.Other? && c.end == end
  {
    Cut(Other(PlainText(Toks(items[pos..end]), items[end - 1].joined)), end)
  }

  // Where a directive whose keyword is at `word` goes on, if it does: behind the keyword, and
  // at the keyword where that is a #.
  function Body(items: seq<Item>, word: nat): (body: nat)
    requires word < |items|
    ensures word <= body <= word + 1
  {
    if items[word].tok.kind.Hash? then word else word + 1
  }

  // Where it ends: with the line of its keyword. But a # for a keyword is not seen as one that
  // ends its line, and #define takes its name from the next line.
  function DirectiveEnd(items: seq<Item>, word: nat): (end: nat)
    requires word < |items|
    ensures word < end <= |items|
  {
    var t := items[word];
    var body := Body(items, word);
    if !t.tok.kind.Hash? && t.ends
       && !(Classify(t.tok.text).DefineWord? && body < |items| && NamesMacro(items[body].tok.text)) then body
    else LineEnd(items, body)
  }

  // A directive; its keyword may stand on the line behind the #.
  function DirectiveCut(items: seq<Item>, pos: nat): (c: Cut)
    requires pos < |items|
    ensures pos < c.end <= |items|
  {
    var word := pos + 1;
    if word == |items| then PlainCut(items, pos, word)
    else
      var body, end := Body(items, word), DirectiveEnd(items, word);
      var cond := if body <= end then Toks(items[body..end]) else [];
      Cut(DirectiveLine(Classify(items[word].tok.text), cond, PlainCut(items, pos, end).line.text), end)
  }

  function DirectiveLine(d: Keyword, cond: seq<Tok>, text: PlainText): Line {
    match d
    case IfWord => If(cond)
    case ElseIfWord => ElseIf(cond)
    case ElseWord => Else
    case EndIfWord => EndIf
    case _ => Other(text)
  }

  function LineCut(items: seq<Item>, pos: nat): (c: Cut)
    requires pos < |items|
    ensures pos < c.end <= |items|
  {
    if items[pos].tok.kind.Hash? then DirectiveCut(items, pos) else PlainCut(items, pos, LineEnd(items, pos))
  }

  function Lines(items: seq<Item>, pos: nat): (lines: seq<Line>)
    requires pos <= |items|
    decreases |items| - pos
  {
    if pos == |items| then [] else [LineCut(items, pos).line] + Lines(items, LineCut(items, pos).end)
  }

  // Behind n more lines.
  function Skip(items: seq<Item>, pos: nat, n: nat): (end: nat)
    requires pos <= |items|
    ensures pos <= end <= |items|
    decreases n
  {
    if n == 0 || pos == |items| then pos else Skip(items, LineCut(items, pos).end, n - 1)
  }

  lemma {:induction false} LinesBehind(items: seq<Item>, pos: nat, n: nat)
    requires pos <= |items| && n <= |Lines(items, pos)|
    ensures Lines(items, Skip(items, pos, n)) == Lines(items, pos)[n..]
    decreases n
  {
    hide LineCut;
    if n > 0 && pos < |items| { LinesBehind(items, LineCut(items, pos).end, n - 1); }
  }

  // Lines end where a line end follows, or with the file.
  lemma CutEnds(items: seq<Item>, pos: nat)
    requires pos < |items|
    ensures var end := LineCut(items, pos).end; end < |items| ==> 0 < end && items[end - 1].ends
  {
  }

  lemma {:induction false} SkipEnds(items: seq<Item>, pos: nat, n: nat)
    requires pos <= |items| && (0 < pos < |items| ==> items[pos - 1].ends)
    ensures var end := Skip(items, pos, n); 0 < end < |items| ==> items[end - 1].ends
    decreases n
  {
    hide LineCut;
    if n > 0 && pos < |items| {
      CutEnds(items, pos);
      SkipEnds(items, LineCut(items, pos).end, n - 1);
    }
  }

  // A # alone on its line takes the # of the next one for its keyword, and so all of the
  // directive there.
  lemma LoneHashTakesDirective()
    ensures var sharp, word := Tok(Hash, "#", false), Tok(Identifier, "endif", false);
            Lines([Item(sharp, true, false), Item(sharp, false, false), Item(word, true, false)], 0)
            == [Other(PlainText([sharp, sharp, word], false))]
  {
    var sharp, word := Tok(Hash, "#", false), Tok(Identifier, "endif", false);
    var items := [Item(sharp, true, false), Item(sharp, false, false), Item(word, true, false)];
    assert LineEnd(items, 2) == 3;
    assert LineEnd(items, 1) == 3;
    assert DirectiveCut(items, 0) == PlainCut(items, 0, 3);
    assert Toks(items[0..3]) == [sharp, sharp, word];
    assert Lines(items, 3) == [];
  }

  // ----- what the tokens of a line do -----------------------------------------------------------------

  // What an active token leads to. Some(n): a macro use that takes the rest of its line and n
  // more lines.
  datatype Emission<S> = Emission(state: S, truncated: bool, more: Option<nat>)

  // What the loop only passes along: what a token does that may start a macro use, in view of
  // the rest of its line and the lines behind it; what a directive other than a conditional
  // does; conditions; and whether input has ended.
  datatype Actions<!S> = Actions(eval: (S, seq<Tok>) -> Option<int>, direct: (S, bool, PlainText) -> S,
                                 emit: (S, bool, PlainText, seq<Line>) -> Emission<S>, ended: S -> bool, maxDepth: nat)

  // The tokens of a plain line from the k-th on, up to a macro use that takes the rest.
  function Emit<S>(acts: Actions<S>, s: S, truncated: bool, text: PlainText, k: nat, rest: seq<Line>): Outcome<S>
    requires k <= |text.toks|
    decreases |text.toks| - k
  {
    if k == |text.toks| || acts.ended(s) then Outcome(s, truncated, 0)
    else
      var e := acts.emit(s, truncated, PlainText(text.toks[k..], text.joined), rest);
      if e.more.Some? then Outcome(e.state, truncated || e.truncated, e.more.value)
      else Emit(acts, e.state, truncated || e.truncated, text, k + 1, rest)
  }

  // A plain line does what its tokens do, or what its directive does.
  function RunLine<S>(acts: Actions<S>, s: S, truncated: bool, text: PlainText, rest: seq<Line>): Outcome<S> {
    if text.toks != [] && text.toks[0].kind.Hash? then Outcome(acts.direct(s, truncated, text), truncated, 0)
    else Emit(acts, s, truncated, text, 0, rest)
  }

  function LineRules<S>(acts: Actions<S>): Rules<S> {
    Rules(acts.eval, (s, b, text, rest) => RunLine(acts, s, b, text, rest), acts.ended, acts.maxDepth)
  }

  // ----- what is left to do at a token -----------------------------------------------------------------

  // The rest of the run from pos on, at the start of a line or inside of a plain one.
  ghost function Ahead<S>(acts: Actions<S>, items: seq<Item>, m: Machine<S>, pos: nat, lineStart: bool): Machine<S>
    requires pos <= |items|
  {
    if lineStart || pos == |items| then Run(LineRules(acts), m, Lines(items, pos))
    else Inside(acts, items, m, pos)
  }

  ghost function Inside<S>(acts: Actions<S>, items: seq<Item>, m: Machine<S>, pos: nat): Machine<S>
    requires pos < |items|
  {
    var end := LineEnd(items, pos);
    var rest := Lines(items, end);
    if acts.ended(m.world.state) then m
    else if !CurrentActive(m.stack) then Run(LineRules(acts), m, rest)
    else
      var o := Emit(acts, m.world.state, m.world.truncated, PlainCut(items, pos, end).line.text, 0, rest);
      Run(LineRules(acts), m.(world := m.world.After(o)), rest[Taken(o, rest)..])
  }

  lemma AtLineStart<S>(acts: Actions<S>, items: seq<Item>, m: Machine<S>, pos: nat)
    requires pos < |items| && !acts.ended(m.world.state)
    ensures var rules, cut := LineRules(acts), LineCut(items, pos);
            var rest := Lines(items, cut.end);
            var t := Conditionals.Advance(rules, m, cut.line, rest);
            Run(rules, m, Lines(items, pos)) == Run(rules, t.machine, rest[t.used..])
  {
    hide Run, Conditionals.Advance;
    RunJoins(LineRules(acts), m, LineCut(items, pos).line, Lines(items, LineCut(items, pos).end));
  }

  // At the start of a plain line as much is left to do as inside of it.
  lemma StartIsInside<S>(acts: Actions<S>, items: seq<Item>, m: Machine<S>, pos: nat)
    requires pos < |items| && !items[pos].tok.kind.Hash?
    ensures Run(LineRules(acts), m, Lines(items, pos)) == Inside(acts, items, m, pos)
  {
    if acts.ended(m.world.state) { return; }
    AtLineStart(acts, items, m, pos);
    hide Run, LineEnd, Emit;
    var rest := Lines(items, LineEnd(items, pos));
    assert rest[0..] == rest;
  }

  // What the token at pos does.
  ghost function TokenEmits<S>(acts: Actions<S>, items: seq<Item>, m: Machine<S>, pos: nat): Emission<S>
    requires pos < |items|
  {
    var end := LineEnd(items, pos);
    acts.emit(m.world.state, m.world.truncated, PlainCut(items, pos, end).line.text, Lines(items, end))
  }

  ghost function Emitted<S>(m: Machine<S>, e: Emission<S>): Machine<S> {
    m.(world := m.world.After(Outcome(e.state, e.truncated, 0)))
  }

  // A token that takes lines ends its line, and they are behind it.
  lemma TakingStep<S>(acts: Actions<S>, items: seq<Item>, m: Machine<S>, pos: nat)
    requires pos < |items| && CurrentActive(m.stack) && !acts.ended(m.world.state)
    requires TokenEmits(acts, items, m, pos).more.Some?
    ensures var e, rest := TokenEmits(acts, items, m, pos), Lines(items, LineEnd(items, pos));
            var n := if e.more.value <= |rest| then e.more.value else |rest|;
            Inside(acts, items, m, pos) == Run(LineRules(acts), Emitted(m, e), rest[n..])
  {
    hide Run, LineEnd, Lines, CurrentActive;
    var text := PlainCut(items, pos, LineEnd(items, pos)).line.text;
    assert text.toks[0..] == text.toks;
  }

  // Any other leaves the rest of its line to do.
  lemma TokenStep<S>(acts: Actions<S>, items: seq<Item>, m: Machine<S>, pos: nat)
    requires pos < |items| && CurrentActive(m.stack) && !acts.ended(m.world.state)
    requires TokenEmits(acts, items, m, pos).more.None?
    ensures Inside(acts, items, m, pos)
         == Ahead(acts, items, Emitted(m, TokenEmits(acts, items, m, pos)), pos + 1, items[pos].ends)
  {
    hide Run, Lines, CurrentActive, PlainCut, LineEnd, Emit, Inside, TokenEmits;
    if items[pos].ends || pos + 1 == |items| {
      LastToken(acts, items, m, pos);
    } else {
      MiddleToken(acts, items, m, pos);
    }
  }

  lemma EmitsFirst<S>(acts: Actions<S>, s: S, truncated: bool, text: PlainText, rest: seq<Line>)
    requires text.toks != [] && !acts.ended(s)
    ensures var e := acts.emit(s, truncated, text, rest);
            e.more.None? ==>
              Emit(acts, s, truncated, text, 0, rest) == Emit(acts, e.state, truncated || e.truncated, text, 1, rest)
  {
    assert text.toks[0..] == text.toks;
  }

  // The rest of a line's text.
  lemma TextBehind(items: seq<Item>, pos: nat)
    requires pos < |items|
    ensures var end := LineEnd(items, pos);
            var text := PlainCut(items, pos, end).line.text;
            && text.toks != []
            && if items[pos].ends || pos + 1 == |items| then end == pos + 1 && |text.toks| == 1
               else
                 && LineEnd(items, pos + 1) == end
                 && PlainCut(items, pos + 1, end).line.text == PlainText(text.toks[1..], text.joined)
  {
  }

  lemma LastToken<S>(acts: Actions<S>, items: seq<Item>, m: Machine<S>, pos: nat)
    requires pos < |items| && CurrentActive(m.stack) && !acts.ended(m.world.state)
    requires TokenEmits(acts, items, m, pos).more.None? && (items[pos].ends || pos + 1 == |items|)
    ensures Inside(acts, items, m, pos)
         == Ahead(acts, items, Emitted(m, TokenEmits(acts, items, m, pos)), pos + 1, items[pos].ends)
  {
    hide Run, Lines, CurrentActive, PlainCut;
    TextBehind(items, pos);
    var text, rest := PlainCut(items, pos, pos + 1).line.text, Lines(items, pos + 1);
    EmitsFirst(acts, m.world.state, m.world.truncated, text, rest);
    assert rest[0..] == rest;
  }

  lemma MiddleToken<S>(acts: Actions<S>, items: seq<Item>, m: Machine<S>, pos: nat)
    requires pos + 1 < |items| && CurrentActive(m.stack) && !acts.ended(m.world.state)
    requires TokenEmits(acts, items, m, pos).more.None? && !items[pos].ends
    ensures Inside(acts, items, m, pos)
         == Inside(acts, items, Emitted(m, TokenEmits(acts, items, m, pos)), pos + 1)
  {
    hide Run, Lines, CurrentActive, PlainCut, LineEnd, Emit;
    TextBehind(items, pos);
    var end := LineEnd(items, pos);
    var text, rest := PlainCut(items, pos, end).line.text, Lines(items, end);
    var e := TokenEmits(acts, items, m, pos);
    EmitsFirst(acts, m.world.state, m.world.truncated, text, rest);
    LaterTokens(acts, e.state, m.world.truncated || e.truncated, text, 1, rest);
    EndedEmits(acts, e.state, m.world.truncated || e.truncated, text, 1, rest);
    NothingRuns(acts, Emitted(m, e), rest);
    var o := Emit(acts, e.state, m.world.truncated || e.truncated, text, 1, rest);
    StaysTruncated(acts, e.state, m.world.truncated || e.truncated, text, 1, rest);
    assert m.(world := m.world.After(o)) == Emitted(m, e).(world := Emitted(m, e).world.After(o));
    assert Inside(acts, items, m, pos) == Run(LineRules(acts), m.(world := m.world.After(o)), rest[Taken(o, rest)..]);
  }

  lemma {:induction false} StaysTruncated<S>(acts: Actions<S>, s: S, truncated: bool, text: PlainText, k: nat,
                                             rest: seq<Line>)
    requires k <= |text.toks|
    ensures truncated ==> Emit(acts, s, truncated, text, k, rest).truncated
    decreases |text.toks| - k
  {
    if k < |text.toks| && !acts.ended(s) {
      var e := acts.emit(s, truncated, PlainText(text.toks[k..], text.joined), rest);
      StaysTruncated(acts, e.state, truncated || e.truncated, text, k + 1, rest);
    }
  }

  // Once input has ended, nothing more happens.
  lemma EndedEmits<S>(acts: Actions<S>, s: S, truncated: bool, text: PlainText, k: nat, rest: seq<Line>)
    requires k <= |text.toks|
    ensures acts.ended(s) ==> Emit(acts, s, truncated, text, k, rest) == Outcome(s, truncated, 0)
  {
  }

  lemma NothingRuns<S>(acts: Actions<S>, m: Machine<S>, lines: seq<Line>)
    ensures acts.ended(m.world.state) ==> Run(LineRules(acts), m, lines[0..]) == m
  {
  }

  // Tokens do the same in what is left of their line.
  lemma {:induction false} LaterTokens<S>(acts: Actions<S>, s: S, truncated: bool, text: PlainText, k: nat,
                                          rest: seq<Line>)
    requires k <= |text.toks|
    ensures Emit(acts, s, truncated, text, k, rest)
         == Emit(acts, s, truncated, PlainText(text.toks[k..], text.joined), 0, rest)
  {
    LaterFrom(acts, s, truncated, text, k, k, rest);
  }

  lemma {:induction false} LaterFrom<S>(acts: Actions<S>, s: S, truncated: bool, text: PlainText, from: nat, k: nat,
                                        rest: seq<Line>)
    requires from <= k <= |text.toks|
    ensures Emit(acts, s, truncated, text, k, rest)
         == Emit(acts, s, truncated, PlainText(text.toks[from..], text.joined), k - from, rest)
    decreases |text.toks| - k
  {
    if k < |text.toks| && !acts.ended(s) {
      assert text.toks[from..][k - from..] == text.toks[k..];
      var e := acts.emit(s, truncated, PlainText(text.toks[k..], text.joined), rest);
      if e.more.None? { LaterFrom(acts, e.state, truncated || e.truncated, text, from, k + 1, rest); }
    }
  }

  // ----- the loop ---------------------------------------------------------------------------------------

  class Frame<S> {
    const items: seq<Item>
    const acts: Actions<S>
    const conditionals: Preprocessor<S>
    var pos: nat
    var lineStart: bool

    constructor (items: seq<Item>, acts: Actions<S>, state: S)
      ensures this.items == items && this.acts == acts && fresh(conditionals) && Ready() && pos == 0 && lineStart
      ensures conditionals.State() == Machine(World(state, [], false, false), [])
    {
      this.items, this.acts := items, acts;
      conditionals := new Preprocessor(LineRules(acts), state);
      pos, lineStart := 0, true;
    }

    ghost predicate Ready()
      reads this
    {
      pos <= |items| && conditionals.rules == LineRules(acts)
    }

    // What the rest of the run leads to.
    ghost function Outlook(): Machine<S>
      requires Ready()
      reads this, conditionals
    {
      Ahead(acts, items, conditionals.State(), pos, lineStart)
    }

    method Advance() returns (t: Item)
      requires pos < |items|
      modifies this
      ensures t == items[old(pos)] && pos == old(pos) + 1 && lineStart == t.ends
    {
      t := items[pos];
      pos, lineStart := pos + 1, t.ends;
    }

    method CollectRestOfLine() returns (out: seq<Tok>)
      requires pos <= |items|
      modifies this
      ensures pos == LineEnd(items, old(pos)) && out == Toks(items[old(pos)..pos])
      ensures old(pos) < pos ==> lineStart == items[pos - 1].ends
    {
      ghost var start := pos;
      out := [];
      while pos < |items|
        invariant start <= pos <= |items| && out == Toks(items[start..pos])
        invariant LineEnd(items, pos) == LineEnd(items, start)
        invariant start < pos ==> lineStart == items[pos - 1].ends
        decreases |items| - pos
      {
        var t := Advance();
        out := out + [t.tok];
        assert items[start..pos] == items[start..pos - 1] + [t];
        if t.ends { break; }
      }
    }

    // The keyword of a directive and the rest of its line.
    method ReadDirective() returns (d: Keyword, cond: seq<Tok>)
      requires pos < |items|
      modifies this
      ensures pos == DirectiveEnd(items, old(pos)) && (pos < |items| ==> lineStart)
      ensures d == Classify(items[old(pos)].tok.text)
      ensures var body := Body(items, old(pos)); cond == if body <= pos then Toks(items[body..pos]) else []
    {
      hide Classify, NamesMacro, LineEnd;
      var word, named := items[pos], false;
      if word.tok.kind != Hash {
        var _ := Advance();
        named := word.ends;
      }
      cond, d := [], Classify(word.tok.text);
      if !named || (d == DefineWord && pos < |items| && NamesMacro(items[pos].tok.text)) {
        cond := CollectRestOfLine();
      }
    }

    // The directive at pos.
    method HandleDirectiveLine()
      requires Ready() && pos < |items| && items[pos].tok.kind.Hash? && !acts.ended(conditionals.world.state)
      modifies this, conditionals
      ensures Ready() && pos == DirectiveCut(items, old(pos)).end && (pos < |items| ==> lineStart)
      ensures var cut := DirectiveCut(items, old(pos));
              conditionals.State() == Conditionals.Advance(LineRules(acts), old(conditionals.State()), cut.line,
                                                           Lines(items, cut.end)).machine
    {
      hide Classify, Lines, LineRules, Conditionals.Advance, DirectiveEnd, Body, DirectiveLine;
      var start := pos;
      var hash := Advance();
      if pos == |items| {
        Direct(PlainCut(items, start, pos).line.text, Lines(items, pos));
        return;
      }
      var d, cond := ReadDirective();
      Handle(d, cond, PlainCut(items, start, pos).line.text, Lines(items, pos));
    }

    method Handle(d: Keyword, cond: seq<Tok>, text: PlainText, ghost rest: seq<Line>)
      requires Ready() && text.toks != [] && text.toks[0].kind.Hash?
      modifies conditionals
      ensures conditionals.State() == Conditionals.Advance(LineRules(acts), old(conditionals.State()),
                                                           DirectiveLine(d, cond, text), rest).machine
    {
      match d
      case IfWord => conditionals.HandleIf(cond);
      case ElseIfWord => conditionals.HandleElseIf(cond);
      case ElseWord => conditionals.HandleElse();
      case EndIfWord => conditionals.HandleEndIf();
      case _ => Direct(text, rest);
    }

    // A directive that is no conditional.
    method Direct(text: PlainText, ghost rest: seq<Line>)
      requires Ready() && text.toks != [] && text.toks[0].kind.Hash?
      modifies conditionals
      ensures conditionals.State()
           == Conditionals.Advance(LineRules(acts), old(conditionals.State()), Other(text), rest).machine
    {
      if conditionals.Active() {
        var w := conditionals.world;
        conditionals.world := w.(state := acts.direct(w.state, w.truncated, text));
      }
    }

    // A token of a plain line; in an active place a macro use may take what follows it.
    method EmitActive()
      requires Ready() && pos < |items| && !(lineStart && items[pos].tok.kind.Hash?)
      requires !acts.ended(conditionals.world.state)
      modifies this, conditionals`world
      ensures Ready() && old(pos) < pos && Outlook() == old(Outlook())
    {
      hide Run, Lines, LineEnd, Inside, CurrentActive, Skip;
      ghost var m := conditionals.State();
      if lineStart { StartIsInside(acts, items, m, pos); }
      if !conditionals.Active() {
        InactiveStep(acts, items, m, pos);
        var _ := Advance();
        return;
      }
      var end := LineEnd(items, pos);
      var rest := Lines(items, end);
      var w := conditionals.world;
      var e := acts.emit(w.state, w.truncated, PlainCut(items, pos, end).line.text, rest);
      conditionals.world := w.After(Outcome(e.state, e.truncated, 0));
      if e.more.None? {
        TokenStep(acts, items, m, pos);
        var _ := Advance();
      } else {
        TakingStep(acts, items, m, pos);
        var n := if e.more.value <= |rest| then e.more.value else |rest|;
        LinesBehind(items, end, n);
        pos, lineStart := Skip(items, end, n), true;
      }
    }

    // A whole file does what its lines say. If they are well nested and no directive is taken,
    // it is read as its tree.
    method RunContents()
      requires Ready() && pos == 0 && lineStart && conditionals.Valid() && conditionals.condStack == []
      modifies this, conditionals
      ensures conditionals.world ==
              Finish(LineRules(acts), Run(LineRules(acts), old(conditionals.State()), Lines(items, 0)))
      ensures Tidy(LineRules(acts), old(conditionals.State()), Lines(items, 0)) ==>
                forall t | Flatten(t) == Lines(items, 0) ::
                  conditionals.world == Read(LineRules(acts), t, [], old(conditionals.world), true, 0)
    {
      ghost var start, lines := conditionals.State(), Lines(items, 0);
      while pos < |items| && !acts.ended(conditionals.world.state)
        invariant Ready() && Outlook() == old(Outlook())
        decreases |items| - pos
      {
        if lineStart && items[pos].tok.kind.Hash? {
          DirectiveAhead(acts, items, conditionals.State(), pos);
          HandleDirectiveLine();
        } else {
          EmitActive();
        }
      }
      if |conditionals.condStack| > 0 && !acts.ended(conditionals.world.state) {
        conditionals.world := conditionals.world.Report(Unterminated);
      }
      if Tidy(LineRules(acts), start, lines) {
        forall t | Flatten(t) == lines
          ensures conditionals.world == Read(LineRules(acts), t, [], old(conditionals.world), true, 0)
        {
          assert Flatten(t) + [] == Flatten(t);
          MachineReads(LineRules(acts), t, start, []);
        }
      }
    }
  }

  lemma InactiveStep<S>(acts: Actions<S>, items: seq<Item>, m: Machine<S>, pos: nat)
    requires pos < |items| && !CurrentActive(m.stack) && !acts.ended(m.world.state)
    ensures Inside(acts, items, m, pos) == Ahead(acts, items, m, pos + 1, items[pos].ends)
  {
  }

  lemma DirectiveAhead<S>(acts: Actions<S>, items: seq<Item>, m: Machine<S>, pos: nat)
    requires pos < |items| && items[pos].tok.kind.Hash? && !acts.ended(m.world.state)
    ensures var cut := DirectiveCut(items, pos);
            var next := Conditionals.Advance(LineRules(acts), m, cut.line, Lines(items, cut.end)).machine;
            Ahead(acts, items, m, pos, true) == Run(LineRules(acts), next, Lines(items, cut.end))
  {
    AtLineStart(acts, items, m, pos);
    NothingTaken(acts, items, m, pos);
    hide Run;
    var rest := Lines(items, DirectiveCut(items, pos).end);
    assert rest[0..] == rest;
  }

  // A directive takes no more than its own line.
  lemma NothingTaken<S>(acts: Actions<S>, items: seq<Item>, m: Machine<S>, pos: nat)
    requires pos < |items| && items[pos].tok.kind.Hash?
    ensures var cut := DirectiveCut(items, pos);
            Conditionals.Advance(LineRules(acts), m, cut.line, Lines(items, cut.end)).used == 0
  {
    hide DirectiveCut, Lines, Step, CurrentActive;
    DirectiveStarts(items, pos);
  }

  // A directive's text starts with its #.
  lemma DirectiveStarts(items: seq<Item>, pos: nat)
    requires pos < |items| && items[pos].tok.kind.Hash?
    ensures var line := DirectiveCut(items, pos).line;
            line.Other? ==> line.text.toks != [] && line.text.toks[0].kind.Hash?
  {
    hide Classify, Body, DirectiveEnd;
  }
}
