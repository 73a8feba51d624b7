// Files included in files (preprocess/includes.go, preprocess/engine.go): whatever the
// resolver answers, processing ends, at bounded depth, with no file included more than twice
// at a time; the file the run starts from may be read once more than that.
module Includes {
  import opened Chars

  datatype Line = Include(path: string, angle: bool, optional: bool) | Other(text: string)

  datatype Target = Target(content: string, uri: string)

  // What any other line leads to: new states, whether output is cut short now, and how many
  // of the lines behind it were taken as well, as arguments of a macro.
  datatype Outcome<S, F> = Outcome(state: S, local: F, truncated: bool, taken: nat)

  // What the includes are embedded in: the preprocessor's state S and a frame's own state F
  // (its conditionals), what any other line does to them, the resolver, and the options.
  datatype Rules<!S, !F> = Rules(
    step: (S, F, bool, string, seq<Line>) -> Outcome<S, F>, start: F, active: F -> bool, endsFrame: (S, F) -> bool,
        stopped: S -> bool,
    resolve: (string, string, bool) -> Option<Target>, hasResolver: bool, lines: string -> seq<Line>,
    hasSymbol: (S, string) -> bool, setSymbol: (S, string) -> S, compatibility: bool, maxNameLength: nat,
    maxDepth: nat)

  datatype Problem = NotFound(path: string) | Cycle(uri: string) | DepthLimit

  datatype FileInfo = FileInfo(uri: string, depth: nat, content: string)

  datatype Record = Record(path: string, uri: Option<string>, child: Option<nat>)

  // `entered` logs, for every included frame, the files live while it ran, itself last.
  datatype World<S> = World(state: S, files: seq<FileInfo>, includes: seq<Record>, includeStack: map<string, nat>,
                            problems: seq<Problem>, truncated: bool, entered: seq<seq<string>>)

  function Get(m: map<string, nat>, u: string): nat { if u in m then m[u] else 0 }

  function Count(stack: seq<string>, u: string): nat {
    if stack == [] then 0 else Count(stack[..|stack| - 1], u) + if stack[|stack| - 1] == u then 1 else 0
  }

  // The table counts the live frames of each file, and holds no zeros.
  ghost predicate Tracks(m: map<string, nat>, stack: seq<string>) {
    (forall u :: Get(m, u) == Count(stack, u)) && forall u | u in m :: m[u] > 0
  }

  ghost predicate Bounded(stack: seq<string>, maxDepth: nat) {
    |stack| <= maxDepth && forall u :: Count(stack, u) <= 2
  }

  function LastPart(path: string): string
    decreases |path|
  {
    if '\\' in path then
      assert path != [];
      LastPart(path[1..])
    else path
  }

  function CompatName<S, F>(rules: Rules<S, F>, path: string): string {
    CutName("_inc_" + LastPart(path), rules.maxNameLength)
  }

  // ----- processing by definition ------------------------------------------------------------

  datatype Frame<F> = Frame(uri: string, depth: nat, local: F)

  function Stepped<S, F>(rules: Rules<S, F>, w: World<S>, f: Frame<F>, text: string, rest: seq<Line>):
    (o: Outcome<S, F>)
    ensures o.taken <= |rest|
  {
    var o := rules.step(w.state, f.local, w.truncated, text, rest);
    if o.taken <= |rest| then o else o.(taken := |rest|)
  }

  function After<S, F>(w: World<S>, o: Outcome<S, F>): World<S> {
    w.(state := o.state, truncated := w.truncated || o.truncated)
  }

  ghost function Contents<S, F>(rules: Rules<S, F>, w: World<S>, f: Frame<F>, lines: seq<Line>, stack: seq<string>):
    (r: World<S>)
    requires Tracks(w.includeStack, stack) && Bounded(stack, rules.maxDepth) && |stack| == f.depth
    ensures r.includeStack == w.includeStack
    decreases rules.maxDepth - f.depth, |lines| + 1
  {
    if lines == [] || rules.stopped(w.state) || rules.endsFrame(w.state, f.local) then w
    else if lines[0].Other? then
      var o := Stepped(rules, w, f, lines[0].text, lines[1..]);
      Contents(rules, After(w, o), f.(local := o.local), lines[1 + o.taken..], stack)
    else
      var next := if rules.active(f.local) then Included(rules, w, f, lines[0], stack) else w;
      Contents(rules, next, f, lines[1..], stack)
  }

  // An #include in an active place.
  ghost function Included<S, F>(rules: Rules<S, F>, w: World<S>, f: Frame<F>, line: Line, stack: seq<string>):
    (r: World<S>)
    requires line.Include?
    requires Tracks(w.includeStack, stack) && Bounded(stack, rules.maxDepth) && |stack| == f.depth
    ensures r.includeStack == w.includeStack
    decreases rules.maxDepth - f.depth, 0
  {
    var compat := CompatName(rules, line.path);
    var missing := Record(line.path, None, None);
    if (rules.compatibility && rules.hasSymbol(w.state, compat)) || !rules.hasResolver then
      w.(includes := w.includes + [missing])
    else
      var target := rules.resolve(f.uri, line.path, line.angle);
      if target.None? then
        w.(problems := if line.optional then w.problems else w.problems + [NotFound(line.path)],
           includes := w.includes + [missing])
      else
        var uri := target.value.uri;
        var refused := Record(line.path, Some(uri), None);
        if Get(w.includeStack, uri) >= 2 then
          w.(problems := w.problems + [Cycle(uri)], includes := w.includes + [refused])
        else if f.depth + 1 > rules.maxDepth then
          w.(problems := w.problems + [DepthLimit], truncated := true, includes := w.includes + [refused])
        else
          var marked := if rules.compatibility then w.(state := rules.setSymbol(w.state, compat)) else w;
          var child := |w.files|;
          var after := Spliced(rules, marked, f, target.value, stack);
          after.(includes := after.includes + [Record(line.path, Some(uri), Some(child))])
  }

  lemma PushTracks(m: map<string, nat>, stack: seq<string>, u: string, maxDepth: nat)
    requires Tracks(m, stack) && Bounded(stack, maxDepth) && |stack| < maxDepth && Get(m, u) < 2
    ensures Tracks(m[u := Get(m, u) + 1], stack + [u]) && Bounded(stack + [u], maxDepth)
  {
    var more := stack + [u];
    assert more[..|stack|] == stack;
    forall v ensures Count(more, v) == Count(stack, v) + (if v == u then 1 else 0) {}
    forall v ensures Count(more, v) <= 2 {
      assert Get(m, v) == Count(stack, v);
    }
    forall v ensures Get(m[u := Get(m, u) + 1], v) == Count(more, v) {
      assert Get(m, v) == Count(stack, v);
    }
  }

  // Taking a frame's count back, and its entry away with the last.
  function Leave(m: map<string, nat>, u: string): map<string, nat> {
    if Get(m, u) <= 1 then m - {u} else m[u := m[u] - 1]
  }

  lemma LeaveUndoes(m: map<string, nat>, u: string)
    requires forall v | v in m :: m[v] > 0
    ensures Leave(m[u := Get(m, u) + 1], u) == m
  {
  }

  ghost function Spliced<S, F>(rules: Rules<S, F>, w: World<S>, parent: Frame<F>, target: Target, stack: seq<string>):
    (r: World<S>)
    requires Tracks(w.includeStack, stack) && Bounded(stack, rules.maxDepth) && |stack| == parent.depth < rules.maxDepth
    requires Get(w.includeStack, target.uri) < 2
    ensures r.includeStack == w.includeStack
    decreases rules.maxDepth - parent.depth - 1, |rules.lines(target.content)| + 2
  {
    var live := stack + [target.uri];
    var entering := w.(files := w.files + [FileInfo(target.uri, parent.depth + 1, target.content)],
                       includeStack := w.includeStack[target.uri := Get(w.includeStack, target.uri) + 1],
                       entered := w.entered + [live]);
    PushTracks(w.includeStack, stack, target.uri, rules.maxDepth);
    var after := Contents(rules, entering, Frame(target.uri, parent.depth + 1, rules.start),
                             rules.lines(target.content), live);
    LeaveUndoes(w.includeStack, target.uri);
    after.(includeStack := Leave(after.includeStack, target.uri))
  }

  // The whole run, with a prefix file first if there is one.
  ghost function Run<S, F>(rules: Rules<S, F>, state: S, root: Target, prefix: Option<string>, optional: bool):
    World<S> {
    var w := World(state, [FileInfo(root.uri, 0, root.content)], [], map[], [], false, []);
    var f := Frame(root.uri, 0, rules.start);
    var w2 := if prefix.Some? && rules.hasResolver then Prefixed(rules, w, f, prefix.value, optional) else w;
    Contents(rules, w2, f, rules.lines(root.content), [])
  }

  ghost function Prefixed<S, F>(rules: Rules<S, F>, w: World<S>, f: Frame<F>, path: string, optional: bool):
    (r: World<S>)
    requires w.includeStack == map[] && f.depth == 0
    ensures r.includeStack == map[]
  {
    var target := rules.resolve(f.uri, path, true);
    if target.None? then
      w.(problems := if optional then w.problems else w.problems + [NotFound(path)],
         includes := w.includes + [Record(path, None, None)])
    else if 1 > rules.maxDepth then
      w.(problems := w.problems + [DepthLimit], truncated := true, includes := w.includes + [Record(path, None, None)])
    else
      var child := |w.files|;
      var after := Spliced(rules, w, f, target.value, []);
      after.(includes := after.includes + [Record(path, Some(target.value.uri), Some(child))])
  }

  // ----- what holds of every run ----------------------------------------------------------------

  // New files lie deeper than `depth` and no deeper than the limit, and the frames they ran
  // in were bounded.
  ghost predicate GrowsWithin<S>(w: World<S>, r: World<S>, depth: nat, maxDepth: nat) {
    && w.files <= r.files && w.entered <= r.entered && w.includes <= r.includes
    && (forall k | |w.files| <= k < |r.files| :: depth < r.files[k].depth <= maxDepth)
    && (forall k | |w.entered| <= k < |r.entered| :: Bounded(r.entered[k], maxDepth))
    && |r.files| - |w.files| == |r.entered| - |w.entered|
  }

  lemma GrowsOn<S>(a: World<S>, b: World<S>, c: World<S>, depth: nat, inner: nat, maxDepth: nat)
    requires GrowsWithin(a, b, depth, maxDepth) && GrowsWithin(b, c, inner, maxDepth) && depth <= inner
    ensures GrowsWithin(a, c, depth, maxDepth)
  {
    hide Bounded;
    forall k | |a.files| <= k < |c.files| ensures depth < c.files[k].depth <= maxDepth {
      if k < |b.files| { assert c.files[k] == b.files[k]; }
    }
    forall k | |a.entered| <= k < |c.entered| ensures Bounded(c.entered[k], maxDepth) {
      if k < |b.entered| { assert c.entered[k] == b.entered[k]; }
    }
  }

  lemma {:induction false} RunGrows<S, F>(rules: Rules<S, F>, w: World<S>, f: Frame<F>, lines: seq<Line>,
                                          stack: seq<string>)
    requires Tracks(w.includeStack, stack) && Bounded(stack, rules.maxDepth) && |stack| == f.depth
    ensures GrowsWithin(w, Contents(rules, w, f, lines, stack), f.depth, rules.maxDepth)
    decreases rules.maxDepth - f.depth, |lines| + 1
  {
    if lines == [] || rules.stopped(w.state) || rules.endsFrame(w.state, f.local) { return; }
    if lines[0].Other? {
      var o := Stepped(rules, w, f, lines[0].text, lines[1..]);
      RunGrows(rules, After(w, o), f.(local := o.local), lines[1 + o.taken..], stack);
      return;
    }
    if rules.active(f.local) {
      IncludeGrows(rules, w, f, lines[0], stack);
      var next := Included(rules, w, f, lines[0], stack);
      RunGrows(rules, next, f, lines[1..], stack);
      GrowsOn(w, next, Contents(rules, next, f, lines[1..], stack), f.depth, f.depth, rules.maxDepth);
    } else {
      RunGrows(rules, w, f, lines[1..], stack);
    }
  }

  lemma {:induction false} IncludeGrows<S, F>(rules: Rules<S, F>, w: World<S>, f: Frame<F>, line: Line,
                                              stack: seq<string>)
    requires line.Include?
    requires Tracks(w.includeStack, stack) && Bounded(stack, rules.maxDepth) && |stack| == f.depth
    ensures GrowsWithin(w, Included(rules, w, f, line, stack), f.depth, rules.maxDepth)
    decreases rules.maxDepth - f.depth, 0
  {
    var compat := CompatName(rules, line.path);
    if (rules.compatibility && rules.hasSymbol(w.state, compat)) || !rules.hasResolver { return; }
    var target := rules.resolve(f.uri, line.path, line.angle);
    if target.None? || Get(w.includeStack, target.value.uri) >= 2 || f.depth + 1 > rules.maxDepth { return; }
    var marked := if rules.compatibility then w.(state := rules.setSymbol(w.state, compat)) else w;
    SpliceGrows(rules, marked, f, target.value, stack);
  }

  lemma {:induction false} SpliceGrows<S, F>(rules: Rules<S, F>, w: World<S>, parent: Frame<F>, target: Target,
                                             stack: seq<string>)
    requires Tracks(w.includeStack, stack) && Bounded(stack, rules.maxDepth) && |stack| == parent.depth < rules.maxDepth
    requires Get(w.includeStack, target.uri) < 2
    ensures GrowsWithin(w, Spliced(rules, w, parent, target, stack), parent.depth, rules.maxDepth)
    decreases rules.maxDepth - parent.depth - 1, |rules.lines(target.content)| + 2
  {
    var live := stack + [target.uri];
    var entering := w.(files := w.files + [FileInfo(target.uri, parent.depth + 1, target.content)],
                       includeStack := w.includeStack[target.uri := Get(w.includeStack, target.uri) + 1],
                       entered := w.entered + [live]);
    PushTracks(w.includeStack, stack, target.uri, rules.maxDepth);
    assert GrowsWithin(w, entering, parent.depth, rules.maxDepth);
    RunGrows(rules, entering, Frame(target.uri, parent.depth + 1, rules.start), rules.lines(target.content), live);
    var after := Contents(rules, entering, Frame(target.uri, parent.depth + 1, rules.start),
                             rules.lines(target.content), live);
    GrowsOn(w, entering, after, parent.depth, parent.depth + 1, rules.maxDepth);
  }

  lemma CountFirst(first: string, stack: seq<string>, u: string)
    ensures Count([first] + stack, u) == Count(stack, u) + if first == u then 1 else 0
  {
    var all := [first] + stack;
    if stack == [] {
      assert all[..0] == [];
    } else {
      CountFirst(first, stack[..|stack| - 1], u);
      assert all[..|all| - 1] == [first] + stack[..|stack| - 1];
    }
  }

  // No file is being read more than twice, the first one of the run at most three times.
  ghost predicate ReadWithin(root: string, stack: seq<string>, maxDepth: nat) {
    && |stack| <= maxDepth
    && forall u :: Count([root] + stack, u) <= if u == root then 3 else 2
  }

  lemma BoundedIsWithin(root: string, stack: seq<string>, maxDepth: nat)
    requires Bounded(stack, maxDepth)
    ensures ReadWithin(root, stack, maxDepth)
  {
    forall u ensures Count([root] + stack, u) <= if u == root then 3 else 2 {
      CountFirst(root, stack, u);
    }
  }

  // For every resolver: each included file is at most maxDepth deep, and while it is read no
  // file is included more than twice at a time, so that with the first file of the run no
  // other is being read more than twice. Afterwards no file counts as live.
  lemma EveryRunIsBounded<S, F>(rules: Rules<S, F>, state: S, root: Target, prefix: Option<string>, optional: bool)
    ensures var r := Run(rules, state, root, prefix, optional);
            && (forall k | 0 <= k < |r.files| :: r.files[k].depth <= rules.maxDepth)
            && (forall k | 0 <= k < |r.entered| :: Bounded(r.entered[k], rules.maxDepth))
            && (forall k | 0 <= k < |r.entered| :: ReadWithin(root.uri, r.entered[k], rules.maxDepth))
            && |r.files| == |r.entered| + 1 && r.includeStack == map[]
  {
    hide Bounded;
    var w := World(state, [FileInfo(root.uri, 0, root.content)], [], map[], [], false, []);
    var f := Frame(root.uri, 0, rules.start);
    NothingLive(rules.maxDepth);
    var w2 := w;
    if prefix.Some? && rules.hasResolver {
      PrefixGrows(rules, w, f, prefix.value, optional);
      w2 := Prefixed(rules, w, f, prefix.value, optional);
    }
    RunGrows(rules, w2, f, rules.lines(root.content), []);
    var r := Contents(rules, w2, f, rules.lines(root.content), []);
    GrowsOn(w, w2, r, 0, 0, rules.maxDepth);
    forall k | 0 <= k < |r.entered| ensures ReadWithin(root.uri, r.entered[k], rules.maxDepth) {
      BoundedIsWithin(root.uri, r.entered[k], rules.maxDepth);
    }
  }

  // ----- the first file, three times ---------------------------------------------------------

  // Every file is `r`, and holds nothing but an include of it.
  function Reread(maxDepth: nat): Rules<int, int> {
    Rules((s, f, cut, text, rest) => Outcome(s, f, cut, 0), 0, f => true, (s, f) => false, s => false,
          (from, path, angle) => Some(Target("", "r")), true, text => [Include("r", false, false)],
          (s, name) => false, (s, name) => s, false, 0, maxDepth)
  }

  // The first file of a run is not counted: included twice more, it is read three times at once.
  lemma FirstFileThrice(maxDepth: nat)
    requires maxDepth >= 2
    ensures var w := Run(Reread(maxDepth), 0, Target("", "r"), None, false);
            && w.entered == [["r"], ["r", "r"]] && Count(["r"] + w.entered[1], "r") == 3
            && w.problems == [Cycle("r")]
  {
    var w: World<int> := World(0, [FileInfo("r", 0, "")], [], map[], [], false, []);
    var rules, line := Reread(maxDepth), Include("r", false, false);
    NothingLive(maxDepth);
    RereadContents(maxDepth, w, []);
    RereadSplice(maxDepth, w, []);
    var w1 := RereadEntered(w, []);
    assert [] + ["r"] == ["r"];
    RereadSplice(maxDepth, w1, ["r"]);
    var w2 := RereadEntered(w1, ["r"]);
    assert ["r"] + ["r"] == ["r", "r"];
    assert ["r", "r"][..1] == ["r"] && ["r"][..0] == [];
    assert Count(["r", "r"], "r") == 2;
    var innermost := Included(rules, w2, Frame("r", 2, 0), line, ["r", "r"]);
    assert innermost.problems == [Cycle("r")] && innermost.entered == [["r"], ["r", "r"]];
    CountFirst("r", ["r", "r"], "r");
  }

  lemma RereadContents(maxDepth: nat, w: World<int>, stack: seq<string>)
    requires Tracks(w.includeStack, stack) && Bounded(stack, maxDepth)
    ensures var rules, line := Reread(maxDepth), Include("r", false, false);
            Contents(rules, w, Frame("r", |stack|, 0), [line], stack)
            == Included(rules, w, Frame("r", |stack|, 0), line, stack)
  {
    hide Included, Tracks, Bounded;
    assert [Include("r", false, false)][1..] == [];
  }

  function RereadEntered(w: World<int>, stack: seq<string>): World<int> {
    w.(files := w.files + [FileInfo("r", |stack| + 1, "")],
       includeStack := w.includeStack["r" := Get(w.includeStack, "r") + 1], entered := w.entered + [stack + ["r"]])
  }

  lemma RereadSplice(maxDepth: nat, w: World<int>, stack: seq<string>)
    requires Tracks(w.includeStack, stack) && Bounded(stack, maxDepth)
    requires |stack| < maxDepth && Count(stack, "r") < 2
    ensures var rules, line := Reread(maxDepth), Include("r", false, false);
            var next := RereadEntered(w, stack);
            && Tracks(next.includeStack, stack + ["r"]) && Bounded(stack + ["r"], maxDepth)
            && var inner := Included(rules, next, Frame("r", |stack| + 1, 0), line, stack + ["r"]);
               var r := Included(rules, w, Frame("r", |stack|, 0), line, stack);
               r.entered == inner.entered && r.problems == inner.problems
  {
    var next := RereadEntered(w, stack);
    assert Get(w.includeStack, "r") == Count(stack, "r");
    PushTracks(w.includeStack, stack, "r", maxDepth);
    RereadContents(maxDepth, next, stack + ["r"]);
  }

  // When an active #include is entered, and what then is on record: the target is the next
  // file, one deeper than its parent, read among its parent's live files and itself, and the
  // include that names it is recorded behind the ones inside it.
  lemma EnteredExactly<S, F>(rules: Rules<S, F>, w: World<S>, f: Frame<F>, line: Line, stack: seq<string>)
    requires line.Include?
    requires Tracks(w.includeStack, stack) && Bounded(stack, rules.maxDepth) && |stack| == f.depth
    ensures var r := Included(rules, w, f, line, stack);
            var target := rules.resolve(f.uri, line.path, line.angle);
            var enters := rules.hasResolver && target.Some? && Count(stack, target.value.uri) < 2
                && f.depth < rules.maxDepth
                          && !(rules.compatibility && rules.hasSymbol(w.state, CompatName(rules, line.path)));
            && (|w.files| < |r.files| <==> enters)
            && (enters ==>
                  && r.files[|w.files|] == FileInfo(target.value.uri, f.depth + 1, target.value.content)
                  && |w.entered| < |r.entered| && r.entered[|w.entered|] == stack + [target.value.uri])
            && |w.includes| < |r.includes|
            && r.includes[|r.includes| - 1]
               == Record(line.path, if rules.hasResolver && target.Some?
                                       && !(rules.compatibility
                                           && rules.hasSymbol(w.state, CompatName(rules, line.path)))
                                    then Some(target.value.uri) else None,
                         if enters then Some(|w.files|) else None)
  {
    var target := rules.resolve(f.uri, line.path, line.angle);
    if rules.hasResolver && target.Some? && Get(w.includeStack, target.value.uri) < 2 && f.depth < rules.maxDepth
       && !(rules.compatibility && rules.hasSymbol(w.state, CompatName(rules, line.path))) {
      var marked := if rules.compatibility then w.(state := rules.setSymbol(w.state, CompatName(rules, line.path)))
          else w;
      SpliceFirst(rules, marked, f, target.value, stack);
    }
  }

  lemma SpliceFirst<S, F>(rules: Rules<S, F>, w: World<S>, parent: Frame<F>, target: Target, stack: seq<string>)
    requires Tracks(w.includeStack, stack) && Bounded(stack, rules.maxDepth) && |stack| == parent.depth < rules.maxDepth
    requires Get(w.includeStack, target.uri) < 2
    ensures var r := Spliced(rules, w, parent, target, stack);
            && |w.files| < |r.files| && r.files[|w.files|] == FileInfo(target.uri, parent.depth + 1, target.content)
            && |w.entered| < |r.entered| && r.entered[|w.entered|] == stack + [target.uri]
            && w.includes <= r.includes
  {
    var live := stack + [target.uri];
    var entering := w.(files := w.files + [FileInfo(target.uri, parent.depth + 1, target.content)],
                       includeStack := w.includeStack[target.uri := Get(w.includeStack, target.uri) + 1],
                       entered := w.entered + [live]);
    PushTracks(w.includeStack, stack, target.uri, rules.maxDepth);
    RunGrows(rules, entering, Frame(target.uri, parent.depth + 1, rules.start), rules.lines(target.content), live);
    assert entering.files[|w.files|] == FileInfo(target.uri, parent.depth + 1, target.content);
    assert entering.entered[|w.entered|] == live;
  }

  lemma NothingLive(maxDepth: nat)
    ensures Tracks(map[], []) && Bounded([], maxDepth)
  {
  }

  lemma PrefixGrows<S, F>(rules: Rules<S, F>, w: World<S>, f: Frame<F>, path: string, optional: bool)
    requires w.includeStack == map[] && f.depth == 0
    ensures GrowsWithin(w, Prefixed(rules, w, f, path, optional), 0, rules.maxDepth)
  {
    var target := rules.resolve(f.uri, path, true);
    if target.Some? && 1 <= rules.maxDepth { SpliceGrows(rules, w, f, target.value, []); }
  }

  // ----- the engine's methods ---------------------------------------------------------------------

  class Engine<S, F> {
    const rules: Rules<S, F>
    var world: World<S>

    constructor (rules: Rules<S, F>, state: S, root: Target)
      ensures this.rules == rules
      ensures world == World(state, [FileInfo(root.uri, 0, root.content)], [], map[], [], false, [])
    {
      this.rules := rules;
      world := World(state, [FileInfo(root.uri, 0, root.content)], [], map[], [], false, []);
    }

    // The live files below the frame.
    ghost predicate Ready(f: Frame<F>, stack: seq<string>)
      reads this
    {
      Tracks(world.includeStack, stack) && Bounded(stack, rules.maxDepth) && |stack| == f.depth
    }

    method RunContents(start: Frame<F>, lines: seq<Line>, stack: seq<string>)
      requires Ready(start, stack)
      modifies this
      ensures world == old(Contents(rules, world, start, lines, stack))
      decreases rules.maxDepth - start.depth, |lines| + 1
    {
      var f, pos := start, 0;
      ghost var all := Contents(rules, world, start, lines, stack);
      while pos < |lines| && !rules.stopped(world.state) && !rules.endsFrame(world.state, f.local)
        invariant pos <= |lines| && f.depth == start.depth && Ready(f, stack)
        invariant Contents(rules, world, f, lines[pos..], stack) == all
      {
        assert lines[pos..][1..] == lines[pos + 1..];
        var line := lines[pos];
        pos := pos + 1;
        if line.Other? {
          var o := Stepped(rules, world, f, line.text, lines[pos..]);
          assert lines[pos..][o.taken..] == lines[pos + o.taken..];
          world, f, pos := After(world, o), f.(local := o.local), pos + o.taken;
        } else if rules.active(f.local) {
          HandleInclude(f, line, stack);
        }
      }
    }

    method HandleInclude(f: Frame<F>, line: Line, stack: seq<string>)
      requires Ready(f, stack) && line.Include?
      modifies this
      ensures world == old(Included(rules, world, f, line, stack))
      ensures Ready(f, stack)
      decreases rules.maxDepth - f.depth, 0
    {
      var record := Record(line.path, None, None);
      var compat := CompatName(rules, line.path);
      if rules.compatibility && rules.hasSymbol(world.state, compat) {
        world := world.(includes := world.includes + [record]);
        return;
      }
      if rules.hasResolver {
        var target := rules.resolve(f.uri, line.path, line.angle);
        if target.None? {
          if !line.optional { world := world.(problems := world.problems + [NotFound(line.path)]); }
        } else if Get(world.includeStack, target.value.uri) >= 2 {
          world := world.(problems := world.problems + [Cycle(target.value.uri)]);
          record := record.(uri := Some(target.value.uri));
        } else if f.depth + 1 > rules.maxDepth {
          world := world.(truncated := true, problems := world.problems + [DepthLimit]);
          record := record.(uri := Some(target.value.uri));
        } else {
          if rules.compatibility { world := world.(state := rules.setSymbol(world.state, compat)); }
          var child := SpliceInclude(f, target.value, stack);
          record := record.(uri := Some(target.value.uri), child := Some(child));
        }
      }
      world := world.(includes := world.includes + [record]);
    }

    method SpliceInclude(parent: Frame<F>, target: Target, stack: seq<string>) returns (child: nat)
      requires Ready(parent, stack) && parent.depth < rules.maxDepth && Get(world.includeStack, target.uri) < 2
      modifies this
      ensures world == old(Spliced(rules, world, parent, target, stack))
      ensures child == |old(world).files| && Ready(parent, stack)
      decreases rules.maxDepth - parent.depth - 1, |rules.lines(target.content)| + 2
    {
      child := |world.files|;
      PushTracks(world.includeStack, stack, target.uri, rules.maxDepth);
      LeaveUndoes(world.includeStack, target.uri);
      var live := stack + [target.uri];
      world := world.(files := world.files + [FileInfo(target.uri, parent.depth + 1, target.content)],
                      includeStack := world.includeStack[target.uri := Get(world.includeStack, target.uri) + 1],
                      entered := world.entered + [live]);
      RunContents(Frame(target.uri, parent.depth + 1, rules.start), rules.lines(target.content), live);
      var count := Get(world.includeStack, target.uri);
      if count <= 1 {
        world := world.(includeStack := world.includeStack - {target.uri});
      } else {
        world := world.(includeStack := world.includeStack[target.uri := count - 1]);
      }
    }

    method HandleImplicitPrefix(f: Frame<F>, path: string, optional: bool)
      requires world.includeStack == map[] && f.depth == 0 && rules.hasResolver
      modifies this
      ensures world == old(Prefixed(rules, world, f, path, optional))
    {
      var record := Record(path, None, None);
      var target := rules.resolve(f.uri, path, true);
      if target.None? {
        if !optional { world := world.(problems := world.problems + [NotFound(path)]); }
      } else if f.depth + 1 > rules.maxDepth {
        world := world.(truncated := true, problems := world.problems + [DepthLimit]);
      } else {
        NothingLive(rules.maxDepth);
        var child := SpliceInclude(f, target.value, []);
        record := record.(uri := Some(target.value.uri), child := Some(child));
      }
      world := world.(includes := world.includes + [record]);
    }
  }

  // The whole run ends, and is bounded, for every resolver.
  method Preprocess<S, F>(rules: Rules<S, F>, state: S, root: Target, prefix: Option<string>, optional: bool)
    returns (w: World<S>)
    ensures w == Run(rules, state, root, prefix, optional)
    ensures forall k | 0 <= k < |w.entered| :: ReadWithin(root.uri, w.entered[k], rules.maxDepth)
    ensures w.includeStack == map[]
  {
    var e := new Engine(rules, state, root);
    var f := Frame(root.uri, 0, rules.start);
    NothingLive(rules.maxDepth);
    if prefix.Some? && rules.hasResolver { e.HandleImplicitPrefix(f, prefix.value, optional); }
    e.RunContents(f, rules.lines(root.content), []);
    EveryRunIsBounded(rules, state, root, prefix, optional);
    w := e.world;
  }
}
