// What a macro use takes from a file (preprocess/expand.go, emitActive; preprocess/pattern.go,
// expandPatternAt), token by token, and what that makes of a whole file.
module MacroUses {
  import opened Chars
  import opened Tokens
  import opened Conditionals
  import opened MacroArguments
  import opened TakenLines
  import opened Frames

  // The lines that the use of a macro takes, in view of the line from its name on: those of the
  // arguments behind it, which may start on the next line, or some that its pattern reaches.
  // What it leads to is expanded together with the rest of the line it ends on, and takes no more.
  ghost predicate UseTakes(n: nat, text: PlainText, rest: seq<Line>) {
    if Whole(text.joined, rest) then
      || (|text.toks| > 1 && OpenAt(text, 2) && n == Reach(text, 2, rest))
      || (|text.toks| == 1 && rest != [] && rest[0].Other? && OpenAt(rest[0].text, 1)
          && n == 1 + Reach(rest[0].text, 1, rest[1..]))
      || n <= Chain(text.joined, rest)
    else n <= |rest|
  }

  ghost predicate EmissionTakes<S>(e: Emission<S>, text: PlainText, rest: seq<Line>) {
    e.more.Some? ==> UseTakes(e.more.value, text, rest)
  }

  // Whatever macros there are, their uses take only that.
  ghost predicate UsesTake<S(!new)>(acts: Actions<S>) {
    forall s: S, b: bool, text: PlainText, rest: seq<Line> :: EmissionTakes(acts.emit(s, b, text, rest), text, rest)
  }

  // Arguments do not depend on what stands in front of them.
  lemma {:induction false} ArgumentsBehind(line: seq<Tok>, from: nat, k: nat, depth: int, rest: seq<Line>)
    requires from <= k <= |line|
    ensures ArgumentsFrom(line[from..], k - from, depth, rest) == ArgumentsFrom(line, k, depth, rest)
    decreases |line| - k
  {
    hide ArgumentsFrom;
    if k == |line| {
      AtEndAlike(line[from..], line, depth, rest);
    } else {
      ArgumentsBehind(line, from, k + 1, Deeper(line[k].kind, depth), rest);
      ArgumentsStep(line, k, depth, rest);
      ArgumentsStep(line[from..], k - from, depth, rest);
      assert line[from..][k - from + 1..] == line[k + 1..];
    }
  }

  lemma AtEndAlike(a: seq<Tok>, b: seq<Tok>, depth: int, rest: seq<Line>)
    ensures ArgumentsFrom(a, |a|, depth, rest) == ArgumentsFrom(b, |b|, depth, rest)
  {
  }

  // What a use inside of a line takes, the line may take.
  lemma UseInLine(n: nat, text: PlainText, k: nat, rest: seq<Line>)
    requires k < |text.toks| && UseTakes(n, PlainText(text.toks[k..], text.joined), rest) && !Hashed(text)
    ensures MayTake(n, text, rest)
  {
    hide ArgumentsFrom, Chain, Whole;
    var behind := PlainText(text.toks[k..], text.joined);
    if |behind.toks| > 1 && OpenAt(behind, 2) && n == Reach(behind, 2, rest) {
      ArgumentsBehind(text.toks, k, k + 2, 0, rest);
      assert OpenAt(text, k + 2);
    }
  }

  lemma {:induction false} EmitTakes<S(!new)>(acts: Actions<S>, s: S, b: bool, text: PlainText, k: nat,
                                              rest: seq<Line>)
    requires UsesTake(acts) && k <= |text.toks| && !Hashed(text)
    ensures MayTake(Emit(acts, s, b, text, k, rest).taken, text, rest)
    decreases |text.toks| - k
  {
    hide MayTake, UseTakes, Hashed;
    NothingMayBeTaken(text, rest);
    if k < |text.toks| && !acts.ended(s) {
      var behind := PlainText(text.toks[k..], text.joined);
      var e := acts.emit(s, b, behind, rest);
      assert EmissionTakes(e, behind, rest);
      if e.more.Some? {
        UseInLine(e.more.value, text, k, rest);
      } else {
        EmitTakes(acts, e.state, b || e.truncated, text, k + 1, rest);
      }
    }
  }

  lemma NothingMayBeTaken(text: PlainText, rest: seq<Line>)
    ensures MayTake(0, text, rest)
  {
  }

  // So lines are taken by a file as the condition on its lines supposes.
  lemma LinesTake<S(!new)>(acts: Actions<S>)
    requires UsesTake(acts)
    ensures TakesLines(LineRules(acts))
  {
    hide UsesTake, MayTake, Emit;
    forall s: S, b: bool, text: PlainText, rest: seq<Line>
      ensures MayTake(LineRules(acts).run(s, b, text, rest).taken, text, rest)
    {
      if Hashed(text) {
        NothingMayBeTaken(text, rest);
      } else {
        EmitTakes(acts, s, b, text, 0, rest);
      }
    }
  }

  // A whole file, from its tokens: it does what its lines say. If they are closed and well
  // nested, that is what its tree says, whatever macros there are.
  method ReadFile<S(!new)>(items: seq<Item>, acts: Actions<S>, state: S) returns (w: World<S>)
    ensures var start := Machine(World(state, [], false, false), []);
            w == Finish(LineRules(acts), Run(LineRules(acts), start, Lines(items, 0)))
    ensures UsesTake(acts) && AllClosed(Lines(items, 0)) ==>
              forall t | Flatten(t) == Lines(items, 0) ::
                w == Read(LineRules(acts), t, [], World(state, [], false, false), true, 0)
  {
    hide Lines, LineRules, AllClosed, UsesTake, Run, Tidy;
    var frame := new Frame(items, acts, state);
    frame.RunContents();
    w := frame.conditionals.world;
    if UsesTake(acts) && AllClosed(Lines(items, 0)) {
      LinesTake(acts);
      ClosedIsTidy(LineRules(acts), Machine(World(state, [], false, false), []), Lines(items, 0));
    }
  }
}
