// Where the files of a run come from (preprocess/includes.go): each is included by a line of a
// file read before it, and resolved against that file's own uri.
module IncludeOrigins {
  import opened Chars
  import opened Includes

  // The line asks for this file, one level deeper.
  predicate AsksFor<S, F>(rules: Rules<S, F>, parent: FileInfo, line: Line, child: FileInfo) {
    && line.Include? && child.depth == parent.depth + 1
    && rules.resolve(parent.uri, line.path, line.angle) == Some(Target(child.content, child.uri))
  }

  // The k-th file comes from the n-th line of the p-th.
  predicate ComesFrom<S, F>(rules: Rules<S, F>, files: seq<FileInfo>, k: nat, p: nat, n: nat)
    requires k < |files|
  {
    && p < k && n < |rules.lines(files[p].content)|
    && AsksFor(rules, files[p], rules.lines(files[p].content)[n], files[k])
  }

  ghost predicate Comes<S, F>(rules: Rules<S, F>, files: seq<FileInfo>, k: nat)
    requires k < |files|
  {
    exists p: nat, n: nat :: ComesFrom(rules, files, k, p, n)
  }

  ghost predicate AllCome<S, F>(rules: Rules<S, F>, files: seq<FileInfo>, from: nat) {
    forall k: nat | from <= k < |files| :: Comes(rules, files, k)
  }

  lemma ComesStill<S, F>(rules: Rules<S, F>, files: seq<FileInfo>, more: seq<FileInfo>, k: nat)
    requires files <= more && k < |files| && Comes(rules, files, k)
    ensures Comes(rules, more, k)
  {
    var p: nat, n: nat :| ComesFrom(rules, files, k, p, n);
    assert ComesFrom(rules, more, k, p, n);
  }

  lemma AllComeOn<S, F>(rules: Rules<S, F>, a: seq<FileInfo>, b: seq<FileInfo>, from: nat)
    requires a <= b && AllCome(rules, a, from) && AllCome(rules, b, |a|)
    ensures AllCome(rules, b, from)
  {
    forall k: nat | from <= k < |b| ensures Comes(rules, b, k) {
      if k < |a| { ComesStill(rules, a, b, k); }
    }
  }

  // The frame reads the p-th file, from its n-th line on.
  predicate Reads<S, F>(rules: Rules<S, F>, w: World<S>, f: Frame<F>, lines: seq<Line>, p: nat, n: nat) {
    && p < |w.files| && w.files[p].uri == f.uri && w.files[p].depth == f.depth
    && n <= |rules.lines(w.files[p].content)| && lines == rules.lines(w.files[p].content)[n..]
  }

  lemma {:induction false} ContentsCome<S, F>(rules: Rules<S, F>, w: World<S>, f: Frame<F>, lines: seq<Line>,
                                              stack: seq<string>, p: nat, n: nat)
    requires Tracks(w.includeStack, stack) && Bounded(stack, rules.maxDepth) && |stack| == f.depth
    requires Reads(rules, w, f, lines, p, n)
    ensures AllCome(rules, Contents(rules, w, f, lines, stack).files, |w.files|)
    ensures w.files <= Contents(rules, w, f, lines, stack).files
    decreases rules.maxDepth - f.depth, |lines| + 1
  {
    hide Tracks, Bounded;
    if lines == [] || rules.stopped(w.state) || rules.endsFrame(w.state, f.local) { return; }
    var all := rules.lines(w.files[p].content);
    assert all[n..][1..] == all[n + 1..];
    if lines[0].Other? {
      var o := Stepped(rules, w, f, lines[0].text, lines[1..]);
      assert lines[1 + o.taken..] == all[n + 1 + o.taken..];
      ContentsCome(rules, After(w, o), f.(local := o.local), lines[1 + o.taken..], stack, p, n + 1 + o.taken);
    } else if rules.active(f.local) {
      IncludedComes(rules, w, f, lines[0], stack, p, n);
      var next := Included(rules, w, f, lines[0], stack);
      ContentsCome(rules, next, f, lines[1..], stack, p, n + 1);
      AllComeOn(rules, next.files, Contents(rules, next, f, lines[1..], stack).files, |w.files|);
    } else {
      ContentsCome(rules, w, f, lines[1..], stack, p, n + 1);
    }
  }

  lemma {:induction false} IncludedComes<S, F>(rules: Rules<S, F>, w: World<S>, f: Frame<F>, line: Line,
                                               stack: seq<string>, p: nat, n: nat)
    requires line.Include?
    requires Tracks(w.includeStack, stack) && Bounded(stack, rules.maxDepth) && |stack| == f.depth
    requires p < |w.files| && w.files[p].uri == f.uri && w.files[p].depth == f.depth
    requires n < |rules.lines(w.files[p].content)| && rules.lines(w.files[p].content)[n] == line
    ensures AllCome(rules, Included(rules, w, f, line, stack).files, |w.files|)
    ensures w.files <= Included(rules, w, f, line, stack).files
    decreases rules.maxDepth - f.depth, 0
  {
    hide Tracks, Bounded, AllCome;
    NoneNew(rules, w.files);
    var compat := CompatName(rules, line.path);
    if (rules.compatibility && rules.hasSymbol(w.state, compat)) || !rules.hasResolver { return; }
    var target := rules.resolve(f.uri, line.path, line.angle);
    if target.None? || Get(w.includeStack, target.value.uri) >= 2 || f.depth + 1 > rules.maxDepth { return; }
    var marked := if rules.compatibility then w.(state := rules.setSymbol(w.state, compat)) else w;
    var more := w.files + [FileInfo(target.value.uri, f.depth + 1, target.value.content)];
    assert ComesFrom(rules, more, |w.files|, p, n);
    SplicedComes(rules, marked, f, target.value, stack);
  }

  lemma NoneNew<S, F>(rules: Rules<S, F>, files: seq<FileInfo>)
    ensures AllCome(rules, files, |files|)
  {
  }

  lemma {:induction false} SplicedComes<S, F>(rules: Rules<S, F>, w: World<S>, parent: Frame<F>, target: Target,
                                              stack: seq<string>)
    requires Tracks(w.includeStack, stack) && Bounded(stack, rules.maxDepth) && |stack| == parent.depth < rules.maxDepth
    requires Get(w.includeStack, target.uri) < 2
    ensures var more := w.files + [FileInfo(target.uri, parent.depth + 1, target.content)];
            var r := Spliced(rules, w, parent, target, stack);
            && more <= r.files && AllCome(rules, r.files, |more|)
            && (Comes(rules, more, |w.files|) ==> AllCome(rules, r.files, |w.files|))
    decreases rules.maxDepth - parent.depth - 1, |rules.lines(target.content)| + 2
  {
    var more := w.files + [FileInfo(target.uri, parent.depth + 1, target.content)];
    var live := stack + [target.uri];
    var entering := w.(files := more,
                       includeStack := w.includeStack[target.uri := Get(w.includeStack, target.uri) + 1],
                       entered := w.entered + [live]);
    PushTracks(w.includeStack, stack, target.uri, rules.maxDepth);
    var child := Frame(target.uri, parent.depth + 1, rules.start);
    var lines := rules.lines(target.content);
    assert lines[0..] == lines && more[|w.files|] == FileInfo(target.uri, parent.depth + 1, target.content);
    ContentsCome(rules, entering, child, lines, live, |w.files|, 0);
    var r := Spliced(rules, w, parent, target, stack);
    assert r.files == Contents(rules, entering, child, lines, live).files;
    if Comes(rules, more, |w.files|) { ComesStill(rules, more, r.files, |w.files|); }
  }

  // Every file of a run but the first comes from an include of a file read before it, or is the
  // prefix file.
  lemma FilesCome<S, F>(rules: Rules<S, F>, state: S, root: Target, prefix: Option<string>, optional: bool)
    ensures var files := Run(rules, state, root, prefix, optional).files;
            && files != [] && files[0] == FileInfo(root.uri, 0, root.content)
            && forall k: nat | 0 < k < |files| ::
                 || Comes(rules, files, k)
                 || (k == 1 && prefix.Some? && files[1].depth == 1
                     && rules.resolve(root.uri, prefix.value, true) == Some(Target(files[1].content, files[1].uri)))
  {
    var w := World(state, [FileInfo(root.uri, 0, root.content)], [], map[], [], false, []);
    var f := Frame(root.uri, 0, rules.start);
    NothingLive(rules.maxDepth);
    hide Tracks, Bounded, AllCome, Comes;
    var w2 := w;
    NoneNew(rules, w.files);
    var first := 1;
    if prefix.Some? && rules.hasResolver {
      w2 := Prefixed(rules, w, f, prefix.value, optional);
      var target := rules.resolve(f.uri, prefix.value, true);
      if target.Some? && 1 <= rules.maxDepth {
        SplicedComes(rules, w, f, target.value, []);
        first := 2;
      }
    }
    var lines := rules.lines(root.content);
    assert lines[0..] == lines && w2.files[0] == w.files[0];
    ContentsCome(rules, w2, f, lines, [], 0, 0);
    var r := Contents(rules, w2, f, lines, []);
    AllComeOn(rules, w2.files, r.files, first);
    AllComeMeans(rules, r.files, first);
  }

  lemma AllComeMeans<S, F>(rules: Rules<S, F>, files: seq<FileInfo>, from: nat)
    requires AllCome(rules, files, from)
    ensures forall k: nat | from <= k < |files| :: Comes(rules, files, k)
  {
  }

  // What a compatible include is remembered by: the part of the path behind its last backslash.
  lemma {:induction false} LastPartIs(path: string)
    ensures var part := LastPart(path);
            && |part| <= |path| && path[|path| - |part|..] == part && '\\' !in part
            && (|part| < |path| ==> path[|path| - |part| - 1] == '\\')
    decreases |path|
  {
    if '\\' in path { LastPartIs(path[1..]); }
  }

  // ----- includes that are not entered --------------------------------------------------------------

  // What is reported of an include that enters no file, and whether output is cut short.
  lemma RefusedReports<S, F>(rules: Rules<S, F>, w: World<S>, f: Frame<F>, line: Line, stack: seq<string>)
    requires line.Include? && rules.hasResolver
    requires Tracks(w.includeStack, stack) && Bounded(stack, rules.maxDepth) && |stack| == f.depth
    requires !(rules.compatibility && rules.hasSymbol(w.state, CompatName(rules, line.path)))
    ensures var r, target := Included(rules, w, f, line, stack), rules.resolve(f.uri, line.path, line.angle);
            && (target.None? ==>
                  r.truncated == w.truncated && r.state == w.state
                  && r.problems == w.problems + if line.optional then [] else [NotFound(line.path)])
            && (target.Some? && Count(stack, target.value.uri) >= 2 ==>
                  r.truncated == w.truncated && r.state == w.state
                  && r.problems == w.problems + [Cycle(target.value.uri)])
            && (target.Some? && Count(stack, target.value.uri) < 2 && f.depth >= rules.maxDepth ==>
                  r.truncated && r.state == w.state && r.problems == w.problems + [DepthLimit])
  {
    hide Bounded, Count;
    var target := rules.resolve(f.uri, line.path, line.angle);
    if target.Some? { assert Get(w.includeStack, target.value.uri) == Count(stack, target.value.uri); }
  }

  // An include that compatibility mode remembers, or one with no resolver, is recorded only.
  lemma SkippedIsRecorded<S, F>(rules: Rules<S, F>, w: World<S>, f: Frame<F>, line: Line, stack: seq<string>)
    requires line.Include?
    requires Tracks(w.includeStack, stack) && Bounded(stack, rules.maxDepth) && |stack| == f.depth
    requires !rules.hasResolver || (rules.compatibility && rules.hasSymbol(w.state, CompatName(rules, line.path)))
    ensures Included(rules, w, f, line, stack) == w.(includes := w.includes + [Record(line.path, None, None)])
  {
  }

  // The name it is remembered by.
  lemma CompatNameIs<S, F>(rules: Rules<S, F>, path: string)
    ensures var whole := "_inc_" + LastPart(path);
            CompatName(rules, path)
            == if 0 < rules.maxNameLength < |whole| then whole[..rules.maxNameLength] else whole
  {
  }
}
