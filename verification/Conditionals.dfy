// Conditional compilation (preprocess/directives.go, preprocess/engine.go): a stack of
// frames driven line by line selects what a recursive reading of the #if tree selects, as
// long as no macro use takes a directive line.
module Conditionals {
  import opened Chars
  import opened Tokens

  // The tokens of a line that is no conditional directive. It is joined if its text ends in a
  // backslash, blanks behind it skipped, be that in a comment or not.
  datatype PlainText = PlainText(toks: seq<Tok>, joined: bool)

  datatype Line =
    | If(cond: seq<Tok>)
    | ElseIf(cond: seq<Tok>)
    | Else
    | EndIf
    | Other(text: PlainText)

  datatype Problem = UnmatchedElseIf | UnmatchedElse | UnmatchedEndIf | Unresolvable | DepthLimit | Unterminated

  // What an active plain line leads to: the new state, whether output is cut short now, and
  // how many of the lines behind it were taken as well, by a macro.
  datatype Outcome<S> = Outcome(state: S, truncated: bool, taken: nat)

  // Everything the conditionals only pass along: the preprocessor state S, what an active
  // line does to it in view of the lines behind it and of output being cut short, what a
  // condition evaluates to, and whether input has ended.
  datatype Rules<!S> = Rules(eval: (S, seq<Tok>) -> Option<int>,
                             run: (S, bool, PlainText, seq<Line>) -> Outcome<S>,
                             ended: S -> bool, maxDepth: nat)

  datatype World<S> = World(state: S, problems: seq<Problem>, truncated: bool, warned: bool)
  {
    function Report(p: Problem): World<S> { this.(problems := problems + [p]) }

    function ReportDepth(): World<S> {
      var w := this.(truncated := true);
      if warned then w else w.Report(DepthLimit).(warned := true)
    }

    function After(o: Outcome<S>): World<S> {
      this.(state := o.state, truncated := truncated || o.truncated)
    }
  }

  datatype CondFrame = CondFrame(parentActive: bool, branchActive: bool, taken: bool, overflow: bool)

  predicate CurrentActive(stack: seq<CondFrame>) {
    stack == [] || stack[|stack| - 1].branchActive
  }

  // What every reachable stack satisfies.
  ghost predicate Consistent(stack: seq<CondFrame>, maxDepth: nat) {
    forall k | 0 <= k < |stack| :: ConsistentAt(stack, k, maxDepth)
  }

  ghost predicate ConsistentAt(stack: seq<CondFrame>, k: nat, maxDepth: nat)
    requires k < |stack|
  {
    var f := stack[k];
    && f.parentActive == CurrentActive(stack[..k])
    && (f.branchActive ==> f.parentActive && f.taken)
    && (f.overflow <==> maxDepth <= k)
    && (f.overflow ==> f.taken && !f.branchActive)
  }

  // ----- the machine, line by line ---------------------------------------------------------

  datatype Branch<S> = Branch(active: bool, world: World<S>)

  function EvaluateBranch<S>(rules: Rules<S>, w: World<S>, cond: seq<Tok>, parentActive: bool): Branch<S> {
    if !parentActive then Branch(false, w)
    else
      var v := rules.eval(w.state, cond);
      if v.None? then Branch(false, w.Report(Unresolvable)) else Branch(v.value != 0, w)
  }

  datatype Machine<S> = Machine(world: World<S>, stack: seq<CondFrame>)

  // A directive line.
  function Step<S>(rules: Rules<S>, m: Machine<S>, line: Line): Machine<S>
    requires !line.Other?
  {
    match line
    case If(cond) => StepIf(rules, m, cond)
    case ElseIf(cond) => StepElseIf(rules, m, cond)
    case Else => StepElse(m)
    case EndIf =>
      if m.stack == [] then m.(world := m.world.Report(UnmatchedEndIf))
      else m.(stack := m.stack[..|m.stack| - 1])
  }

  // An active plain line, and how many of the lines behind it go with it.
  function Plain<S>(rules: Rules<S>, w: World<S>, text: PlainText, rest: seq<Line>): Outcome<S> {
    rules.run(w.state, w.truncated, text, rest)
  }

  function Taken<S>(o: Outcome<S>, rest: seq<Line>): (n: nat)
    ensures n <= |rest|
  {
    if o.taken <= |rest| then o.taken else |rest|
  }

  datatype Turn<S> = Turn(machine: Machine<S>, used: nat)

  function Advance<S>(rules: Rules<S>, m: Machine<S>, first: Line, rest: seq<Line>): (r: Turn<S>)
    ensures r.used <= |rest|
  {
    if !first.Other? then Turn(Step(rules, m, first), 0)
    else if !CurrentActive(m.stack) then Turn(m, 0)
    else
      var o := Plain(rules, m.world, first.text, rest);
      Turn(m.(world := m.world.After(o)), Taken(o, rest))
  }

  function StepIf<S>(rules: Rules<S>, m: Machine<S>, cond: seq<Tok>): Machine<S> {
    var parentActive := CurrentActive(m.stack);
    if |m.stack| >= rules.maxDepth then
      Machine(m.world.ReportDepth(), m.stack + [CondFrame(parentActive, false, true, true)])
    else
      var b := EvaluateBranch(rules, m.world, cond, parentActive);
      Machine(b.world, m.stack + [CondFrame(parentActive, b.active, b.active, false)])
  }

  function StepElseIf<S>(rules: Rules<S>, m: Machine<S>, cond: seq<Tok>): Machine<S> {
    if m.stack == [] then m.(world := m.world.Report(UnmatchedElseIf))
    else
      var below := m.stack[..|m.stack| - 1];
      var top := m.stack[|m.stack| - 1];
      if top.overflow then m
      else if top.taken then m.(stack := below + [top.(branchActive := false)])
      else
        var b := EvaluateBranch(rules, m.world, cond, top.parentActive);
        Machine(b.world, below + [top.(branchActive := b.active, taken := b.active)])
  }

  function StepElse<S>(m: Machine<S>): Machine<S> {
    if m.stack == [] then m.(world := m.world.Report(UnmatchedElse))
    else
      var below := m.stack[..|m.stack| - 1];
      var top := m.stack[|m.stack| - 1];
      if top.overflow then m
      else
        var active := top.parentActive && !top.taken;
        m.(stack := below + [top.(branchActive := active, taken := top.taken || active)])
  }

  // All lines, until input ends.
  function Run<S>(rules: Rules<S>, m: Machine<S>, lines: seq<Line>): Machine<S>
    decreases |lines|
  {
    if lines == [] || rules.ended(m.world.state) then m
    else
      var t := Advance(rules, m, lines[0], lines[1..]);
      Run(rules, t.machine, lines[1 + t.used..])
  }

  function Finish<S>(rules: Rules<S>, m: Machine<S>): World<S> {
    if m.stack != [] && !rules.ended(m.world.state) then m.world.Report(Unterminated) else m.world
  }

  lemma StepConsistent<S>(rules: Rules<S>, m: Machine<S>, line: Line)
    requires Consistent(m.stack, rules.maxDepth) && !line.Other?
    ensures Consistent(Step(rules, m, line).stack, rules.maxDepth)
  {
    var s, t := m.stack, Step(rules, m, line).stack;
    forall k | 0 <= k < |t| ensures ConsistentAt(t, k, rules.maxDepth) {
      assert k < |s| ==> ConsistentAt(s, k, rules.maxDepth) && s[..k] == t[..k];
      assert k == |s| ==> t[..k] == s;
    }
  }

  lemma {:induction false} RunConsistent<S>(rules: Rules<S>, m: Machine<S>, lines: seq<Line>)
    requires Consistent(m.stack, rules.maxDepth)
    ensures Consistent(Run(rules, m, lines).stack, rules.maxDepth)
    decreases |lines|
  {
    if lines != [] && !rules.ended(m.world.state) {
      if !lines[0].Other? { StepConsistent(rules, m, lines[0]); }
      var t := Advance(rules, m, lines[0], lines[1..]);
      RunConsistent(rules, t.machine, lines[1 + t.used..]);
    }
  }

  // ----- lines that are taken ----------------------------------------------------------------

  ghost predicate AllPlain(lines: seq<Line>) {
    forall k | 0 <= k < |lines| :: lines[k].Other?
  }

  // No active plain line takes a directive line with it.
  ghost predicate Tidy<S>(rules: Rules<S>, m: Machine<S>, lines: seq<Line>)
    decreases |lines|
  {
    lines == [] || rules.ended(m.world.state) ||
    var t := Advance(rules, m, lines[0], lines[1..]);
    AllPlain(lines[1..][..t.used]) && Tidy(rules, t.machine, lines[1 + t.used..])
  }

  // The lines handled as directives, and those that are directives.
  ghost function Handled<S>(rules: Rules<S>, m: Machine<S>, lines: seq<Line>): seq<Line>
    decreases |lines|
  {
    if lines == [] || rules.ended(m.world.state) then []
    else
      var t := Advance(rules, m, lines[0], lines[1..]);
      (if lines[0].Other? then [] else [lines[0]]) + Handled(rules, t.machine, lines[1 + t.used..])
  }

  function Directives(lines: seq<Line>): seq<Line> {
    if lines == [] then []
    else (if lines[0].Other? then [] else [lines[0]]) + Directives(lines[1..])
  }

  lemma {:induction false} DirectivesJoin(a: seq<Line>, b: seq<Line>)
    ensures Directives(a + b) == Directives(a) + Directives(b)
  {
    if a == [] {
      assert a + b == b;
    } else {
      DirectivesJoin(a[1..], b);
      assert (a + b)[1..] == a[1..] + b && (a + b)[0] == a[0];
      var first: seq<Line> := if a[0].Other? then [] else [a[0]];
      assert first + (Directives(a[1..]) + Directives(b)) == (first + Directives(a[1..])) + Directives(b);
    }
  }

  lemma {:induction false} NoDirectives(lines: seq<Line>)
    ensures Directives(lines) == [] <==> AllPlain(lines)
  {
    if lines != [] {
      NoDirectives(lines[1..]);
      assert AllPlain(lines) <==> lines[0].Other? && AllPlain(lines[1..]) by {
        assert forall k | 0 < k < |lines| :: lines[k] == lines[1..][k - 1];
      }
    }
  }

  // In input that is read to its end, every directive is handled, in order, if and only if
  // none is taken; and none is handled that is not there.
  lemma {:induction false} HandledIfTidy<S>(rules: Rules<S>, m: Machine<S>, lines: seq<Line>)
    requires forall s :: !rules.ended(s)
    ensures Handled(rules, m, lines) == Directives(lines) <==> Tidy(rules, m, lines)
    ensures |Handled(rules, m, lines)| <= |Directives(lines)|
    decreases |lines|
  {
    if lines == [] { return; }
    var t := Advance(rules, m, lines[0], lines[1..]);
    var taken, rest := lines[1..][..t.used], lines[1 + t.used..];
    assert lines[1..] == taken + rest;
    DirectivesJoin(taken, rest);
    NoDirectives(taken);
    HandledIfTidy(rules, t.machine, rest);
    hide Advance, AllPlain;
    var first: seq<Line> := if lines[0].Other? then [] else [lines[0]];
    var x, y := Handled(rules, t.machine, rest), Directives(rest);
    Cancel(first, x, Directives(taken), y);
    assert Tidy(rules, m, lines) <==> AllPlain(taken) && Tidy(rules, t.machine, rest);
  }

  lemma Cancel<T>(a: seq<T>, x: seq<T>, b: seq<T>, y: seq<T>)
    requires |x| <= |y|
    ensures a + x == a + (b + y) <==> b == [] && x == y
  {
    if a + x == a + (b + y) {
      assert x == (a + x)[|a|..] && b + y == (a + (b + y))[|a|..];
    }
    assert b == [] ==> b + y == y;
  }

  // ----- the tree ----------------------------------------------------------------------------

  datatype Items =
    | Nil
    | Text(text: PlainText, rest: Items)
    | Group(cond: seq<Tok>, body: Items, arms: Arms, rest: Items)

  datatype Guard = When(cond: seq<Tok>) | Otherwise

  datatype Arms = End | Arm(guard: Guard, body: Items, rest: Arms)

  function Flatten(t: Items): seq<Line> {
    match t
    case Nil => []
    case Text(text, rest) => [Other(text)] + Flatten(rest)
    case Group(cond, body, arms, rest) => [If(cond)] + (Flatten(body) + (FlattenArms(arms) + Flatten(rest)))
  }

  function FlattenArms(a: Arms): seq<Line> {
    match a
    case End => [EndIf]
    case Arm(guard, body, rest) => [GuardLine(guard)] + (Flatten(body) + FlattenArms(rest))
  }

  function GuardLine(g: Guard): Line {
    match g
    case When(cond) => ElseIf(cond)
    case Otherwise => Else
  }

  // What is left of the items when plain lines were taken.
  function Drop(t: Items, n: nat): (r: Items)
    ensures |Flatten(r)| <= |Flatten(t)|
  {
    if n > 0 && t.Text? then Drop(t.rest, n - 1) else t
  }

  // Reading the tree: only the first arm whose condition is non-zero, or the first #else
  // before it, is read actively; conditions are evaluated only up to there. The lines `more`
  // follow the tree.
  function Read<S>(rules: Rules<S>, t: Items, more: seq<Line>, w: World<S>, active: bool, depth: nat): World<S>
    decreases |Flatten(t)|, 1
  {
    if rules.ended(w.state) then w
    else
      match t
      case Nil => w
      case Text(text, rest) =>
        if !active then Read(rules, rest, more, w, active, depth)
        else
          var o := Plain(rules, w, text, Flatten(rest) + more);
          Read(rules, Drop(rest, o.taken), more, w.After(o), active, depth)
      case Group(cond, body, arms, rest) =>
        var behind := Flatten(rest) + more;
        var inside := FlattenArms(arms) + behind;
        var after :=
          if depth >= rules.maxDepth then
            ReadArms(rules, arms, behind, Read(rules, body, inside, w.ReportDepth(), false, depth + 1), false, true,
                depth)
          else
            var b := EvaluateBranch(rules, w, cond, active);
            ReadArms(rules, arms, behind, Read(rules, body, inside, b.world, b.active, depth + 1), active, b.active,
                depth);
        Read(rules, rest, more, after, active, depth)
  }

  // The remaining arms of a group in an active or inactive place, an arm chosen or not.
  function ReadArms<S>(rules: Rules<S>, a: Arms, more: seq<Line>, w: World<S>, active: bool, taken: bool, depth: nat):
    World<S>
    decreases |FlattenArms(a)|, 0
  {
    if rules.ended(w.state) || a.End? then w
    else
      var b := if a.guard.Otherwise? then Branch(active && !taken, w)
               else EvaluateBranch(rules, w, a.guard.cond, active && !taken);
      var after := Read(rules, a.body, FlattenArms(a.rest) + more, b.world, b.active, depth + 1);
      ReadArms(rules, a.rest, more, after, active, taken || b.active, depth)
  }

  // ----- the machine reads the tree ------------------------------------------------------------

  // The frame of a group being read, and what the rest of its arms will see of it.
  ghost predicate FrameFor(stack: seq<CondFrame>, below: seq<CondFrame>, maxDepth: nat, active: bool, taken: bool) {
    && stack != [] && stack[..|stack| - 1] == below
    && var top := stack[|stack| - 1];
       if |below| >= maxDepth then top.overflow && !active && taken
       else !top.overflow && top.parentActive == active && top.taken == taken && (taken ==> active)
  }

  lemma RunJoins<S>(rules: Rules<S>, m: Machine<S>, first: Line, rest: seq<Line>)
    requires !rules.ended(m.world.state)
    ensures var t := Advance(rules, m, first, rest);
            && Run(rules, m, [first] + rest) == Run(rules, t.machine, rest[t.used..])
            && (Tidy(rules, m, [first] + rest) ==> AllPlain(rest[..t.used]) && Tidy(rules, t.machine, rest[t.used..]))
  {
    var t := Advance(rules, m, first, rest);
    assert ([first] + rest)[1..] == rest;
    assert ([first] + rest)[1 + t.used..] == rest[t.used..];
  }

  lemma DirectiveJoins<S>(rules: Rules<S>, m: Machine<S>, first: Line, rest: seq<Line>)
    requires !rules.ended(m.world.state) && !first.Other?
    ensures Run(rules, m, [first] + rest) == Run(rules, Step(rules, m, first), rest)
    ensures Tidy(rules, m, [first] + rest) ==> Tidy(rules, Step(rules, m, first), rest)
  {
    hide Run, Tidy, Step;
    RunJoins(rules, m, first, rest);
    assert rest[0..] == rest;
  }

  // Input that has ended stays as it is.
  lemma Ended<S>(rules: Rules<S>, m: Machine<S>, lines: seq<Line>)
    requires rules.ended(m.world.state)
    ensures Run(rules, m, lines) == m
  {
  }

  ghost predicate Same<S>(rules: Rules<S>, a: Machine<S>, b: Machine<S>) {
    a.world == b.world && (rules.ended(a.world.state) || a.stack == b.stack)
  }

  // The rest of the run from a state is tidy as well, unless input has ended.
  ghost predicate Onward<S>(rules: Rules<S>, m: Machine<S>, more: seq<Line>) {
    !rules.ended(m.world.state) ==> Tidy(rules, m, more)
  }

  // The lines behind a complete list of items start with a directive.
  ghost predicate Behind(more: seq<Line>) {
    more != [] ==> !more[0].Other?
  }

  // Plain lines that are taken from the front of the items are dropped from them.
  lemma {:induction false} DropTaken(t: Items, more: seq<Line>, n: nat)
    requires n <= |Flatten(t) + more| && AllPlain((Flatten(t) + more)[..n]) && Behind(more)
    ensures (Flatten(t) + more)[n..] == Flatten(Drop(t, n)) + more
    decreases n
  {
    var lines := Flatten(t) + more;
    assert n > 0 ==> lines[..n][0] == lines[0];
    if n > 0 && t.Text? {
      assert lines == [Other(t.text)] + (Flatten(t.rest) + more);
      assert lines[..n][1..] == (Flatten(t.rest) + more)[..n - 1];
      assert AllPlain(lines[..n][1..]);
      DropTaken(t.rest, more, n - 1);
      assert lines[n..] == (Flatten(t.rest) + more)[n - 1..];
    }
  }

  lemma FirstLine(t: Items)
    ensures t.Group? ==> Flatten(t) != [] && !Flatten(t)[0].Other?
  {
  }

  // Nothing is left of plain lines that are all taken.
  lemma {:induction false} DropAll(t: Items, n: nat)
    requires |Flatten(t)| <= n && AllPlain(Flatten(t))
    ensures Drop(t, n) == Nil
    decreases t
  {
    FirstLine(t);
    if t.Text? {
      assert Flatten(t)[1..] == Flatten(t.rest);
      assert forall k | 0 <= k < |Flatten(t.rest)| :: Flatten(t.rest)[k] == Flatten(t)[k + 1];
      DropAll(t.rest, n - 1);
    }
  }

  lemma {:induction false} MachineReads<S>(rules: Rules<S>, t: Items, m: Machine<S>, more: seq<Line>)
    requires Consistent(m.stack, rules.maxDepth) && Tidy(rules, m, Flatten(t) + more) && Behind(more)
    ensures var w := Read(rules, t, more, m.world, CurrentActive(m.stack), |m.stack|);
            && Same(rules, Run(rules, m, Flatten(t) + more), Run(rules, Machine(w, m.stack), more))
            && Onward(rules, Machine(w, m.stack), more)
    decreases |Flatten(t)|, 1
  {
    if rules.ended(m.world.state) { return; }
    match t
    case Nil =>
      assert Flatten(t) + more == more;
    case Text(text, rest) => TextRead(rules, t, m, more);
    case Group(cond, body, arms, rest) => GroupRead(rules, t, m, more);
  }

  lemma {:induction false} TextRead<S>(rules: Rules<S>, t: Items, m: Machine<S>, more: seq<Line>)
    requires Consistent(m.stack, rules.maxDepth) && Tidy(rules, m, Flatten(t) + more) && Behind(more)
    requires t.Text? && !rules.ended(m.world.state)
    ensures var w := Read(rules, t, more, m.world, CurrentActive(m.stack), |m.stack|);
            && Same(rules, Run(rules, m, Flatten(t) + more), Run(rules, Machine(w, m.stack), more))
            && Onward(rules, Machine(w, m.stack), more)
    decreases |Flatten(t)|, 0
  {
    var behind := Flatten(t.rest) + more;
    assert Flatten(t) + more == [Other(t.text)] + behind;
    RunJoins(rules, m, Other(t.text), behind);
    if !CurrentActive(m.stack) {
      assert behind[0..] == behind;
      MachineReads(rules, t.rest, m, more);
      return;
    }
    var o := Plain(rules, m.world, t.text, behind);
    var n := Taken(o, behind);
    DropTaken(t.rest, more, n);
    DropBeyond(t.rest, more, o.taken);
    var next := Machine(m.world.After(o), m.stack);
    if rules.ended(next.world.state) { return; }
    MachineReads(rules, Drop(t.rest, n), next, more);
  }

  // A count beyond all the lines takes all of them.
  lemma DropBeyond(t: Items, more: seq<Line>, n: nat)
    requires var all := Flatten(t) + more;
             n > |all| ==> AllPlain(all) && Behind(more)
    ensures var all := Flatten(t) + more;
            n > |all| ==> Drop(t, n) == Drop(t, |all|)
  {
    var all := Flatten(t) + more;
    if n > |all| {
      assert forall k | 0 <= k < |Flatten(t)| :: Flatten(t)[k] == all[k];
      DropAll(t, n);
      DropAll(t, |all|);
    }
  }

  lemma {:induction false} GroupRead<S>(rules: Rules<S>, t: Items, m: Machine<S>, more: seq<Line>)
    requires Consistent(m.stack, rules.maxDepth) && Tidy(rules, m, Flatten(t) + more) && Behind(more)
    requires t.Group? && !rules.ended(m.world.state)
    ensures var w := Read(rules, t, more, m.world, CurrentActive(m.stack), |m.stack|);
            && Same(rules, Run(rules, m, Flatten(t) + more), Run(rules, Machine(w, m.stack), more))
            && Onward(rules, Machine(w, m.stack), more)
    decreases |Flatten(t)|, 0
  {
    hide Run, Tidy, Consistent;
    var active := CurrentActive(m.stack);
    var behind := Flatten(t.rest) + more;
    var tail := FlattenArms(t.arms) + behind;
    assert Flatten(t) + more == [If(t.cond)] + (Flatten(t.body) + tail);
    DirectiveJoins(rules, m, If(t.cond), Flatten(t.body) + tail);
    var inside := Step(rules, m, If(t.cond));
    StepConsistent(rules, m, If(t.cond));
    MachineReads(rules, t.body, inside, tail);
    var w := Read(rules, t.body, tail, inside.world, CurrentActive(inside.stack), |inside.stack|);
    assert inside.stack[..|m.stack|] == m.stack;
    var over := |m.stack| >= rules.maxDepth;
    var taken := over || CurrentActive(inside.stack);
    var after := ReadArms(rules, t.arms, behind, w, active && !over, taken, |m.stack|);
    if rules.ended(w.state) {
      Ended(rules, Machine(w, inside.stack), tail);
      Ended(rules, Machine(w, m.stack), more);
      return;
    }
    ArmsRead(rules, t.arms, Machine(w, inside.stack), m.stack, active && !over, taken, behind);
    if rules.ended(after.state) {
      Ended(rules, Machine(after, m.stack), behind);
      Ended(rules, Machine(after, m.stack), more);
      return;
    }
    MachineReads(rules, t.rest, Machine(after, m.stack), more);
  }

  lemma {:induction false} ArmsRead<S>(rules: Rules<S>, a: Arms, m: Machine<S>, below: seq<CondFrame>, active: bool,
                                       taken: bool, more: seq<Line>)
    requires Consistent(m.stack, rules.maxDepth) && FrameFor(m.stack, below, rules.maxDepth, active, taken)
    requires Tidy(rules, m, FlattenArms(a) + more)
    ensures var w := ReadArms(rules, a, more, m.world, active, taken, |below|);
            && Same(rules, Run(rules, m, FlattenArms(a) + more), Run(rules, Machine(w, below), more))
            && Onward(rules, Machine(w, below), more)
    decreases |FlattenArms(a)|, 0
  {
    hide Run, Tidy, Consistent, FrameFor, EvaluateBranch;
    if rules.ended(m.world.state) {
      Ended(rules, m, FlattenArms(a) + more);
      Ended(rules, Machine(m.world, below), more);
      return;
    }
    match a
    case End =>
      DirectiveJoins(rules, m, EndIf, more);
      FrameBelow(rules, m, below, active, taken);
    case Arm(guard, body, rest) =>
      var line := GuardLine(guard);
      var tail := FlattenArms(rest) + more;
      assert FlattenArms(a) + more == [line] + (Flatten(body) + tail);
      DirectiveJoins(rules, m, line, Flatten(body) + tail);
      var inside := Step(rules, m, line);
      StepConsistent(rules, m, line);
      GuardSteps(rules, a, m, below, active, taken);
      MachineReads(rules, body, inside, tail);
      var chosen := CurrentActive(inside.stack);
      var w := Read(rules, body, tail, inside.world, chosen, |below| + 1);
      if rules.ended(w.state) {
        Ended(rules, Machine(w, inside.stack), tail);
        Ended(rules, Machine(w, below), more);
        return;
      }
      ArmsRead(rules, rest, Machine(w, inside.stack), below, active, taken || chosen, more);
  }

  lemma FrameBelow<S>(rules: Rules<S>, m: Machine<S>, below: seq<CondFrame>, active: bool, taken: bool)
    requires FrameFor(m.stack, below, rules.maxDepth, active, taken)
    ensures Step(rules, m, EndIf) == Machine(m.world, below)
  {
  }

  // What the line that opens an arm does to the frame.
  lemma GuardSteps<S>(rules: Rules<S>, a: Arms, m: Machine<S>, below: seq<CondFrame>, active: bool, taken: bool)
    requires a.Arm? && Consistent(m.stack, rules.maxDepth) && FrameFor(m.stack, below, rules.maxDepth, active, taken)
    ensures var inside := Step(rules, m, GuardLine(a.guard));
            var b := if a.guard.Otherwise? then Branch(active && !taken, m.world)
                     else EvaluateBranch(rules, m.world, a.guard.cond, active && !taken);
            && inside.world == b.world && CurrentActive(inside.stack) == b.active && |inside.stack| == |below| + 1
            && FrameFor(inside.stack, below, rules.maxDepth, active, taken || b.active)
  {
    assert ConsistentAt(m.stack, |below|, rules.maxDepth);
  }

  // From the start of a file, the lines of a tree do what reading the tree says, and
  // no frame is left over, if no directive line is taken.
  lemma FileIsTree<S>(rules: Rules<S>, t: Items, state: S)
    requires Tidy(rules, Machine(World(state, [], false, false), []), Flatten(t))
    ensures var w := World(state, [], false, false);
            Finish(rules, Run(rules, Machine(w, []), Flatten(t))) == Read(rules, t, [], w, true, 0)
  {
    var w := World(state, [], false, false);
    assert Flatten(t) + [] == Flatten(t);
    MachineReads(rules, t, Machine(w, []), []);
  }

  // ----- which line lists are trees ---------------------------------------------------------

  // Every line but the plain ones has its #if, and every #if its #endif.
  predicate Nested(lines: seq<Line>, depth: nat)
    decreases |lines|
  {
    if lines == [] then depth == 0
    else
      match lines[0]
      case Other(_) => Nested(lines[1..], depth)
      case If(_) => Nested(lines[1..], depth + 1)
      case EndIf => depth > 0 && Nested(lines[1..], depth - 1)
      case _ => depth > 0 && Nested(lines[1..], depth)
  }

  predicate Closer(line: Line) {
    line.ElseIf? || line.Else? || line.EndIf?
  }

  lemma {:induction false} TakeItems(lines: seq<Line>, depth: nat) returns (t: Items, rest: seq<Line>)
    requires Nested(lines, depth)
    ensures lines == Flatten(t) + rest && Nested(rest, depth) && |rest| <= |lines|
    ensures if depth == 0 then rest == [] else rest != [] && Closer(rest[0])
    decreases |lines|
  {
    if lines == [] || Closer(lines[0]) {
      t, rest := Nil, lines;
    } else if lines[0].Other? {
      var after;
      after, rest := TakeItems(lines[1..], depth);
      t := Text(lines[0].text, after);
      assert lines == [lines[0]] + lines[1..];
      assert Flatten(t) + rest == [lines[0]] + (Flatten(after) + rest);
    } else {
      var body, inside := TakeItems(lines[1..], depth + 1);
      var arms, outside := TakeArms(inside, depth + 1);
      var after;
      after, rest := TakeItems(outside, depth);
      t := Group(lines[0].cond, body, arms, after);
      assert lines == [lines[0]] + lines[1..];
      assert Flatten(t) + rest == [lines[0]] + (Flatten(body) + (FlattenArms(arms) + (Flatten(after) + rest)));
    }
  }

  lemma {:induction false} TakeArms(lines: seq<Line>, depth: nat) returns (a: Arms, rest: seq<Line>)
    requires depth > 0 && Nested(lines, depth) && lines != [] && Closer(lines[0])
    ensures lines == FlattenArms(a) + rest && Nested(rest, depth - 1) && |rest| < |lines|
    decreases |lines|
  {
    assert lines == [lines[0]] + lines[1..];
    if lines[0].EndIf? {
      a, rest := End, lines[1..];
    } else {
      var body, inside := TakeItems(lines[1..], depth);
      var arms;
      arms, rest := TakeArms(inside, depth);
      a := Arm(if lines[0].Else? then Otherwise else When(lines[0].cond), body, arms);
      assert FlattenArms(a) + rest == [lines[0]] + (Flatten(body) + (FlattenArms(arms) + rest));
    }
  }

  lemma NestedJoins(first: Line, rest: seq<Line>, depth: nat)
    ensures Nested([first] + rest, depth) <==>
            match first
            case Other(_) => Nested(rest, depth)
            case If(_) => Nested(rest, depth + 1)
            case EndIf => depth > 0 && Nested(rest, depth - 1)
            case _ => depth > 0 && Nested(rest, depth)
  {
    assert ([first] + rest)[1..] == rest;
  }

  lemma {:induction false} TreeNests(t: Items, more: seq<Line>, depth: nat)
    ensures Nested(Flatten(t) + more, depth) <==> Nested(more, depth)
    decreases t
  {
    match t
    case Nil =>
      assert Flatten(t) + more == more;
    case Text(text, rest) =>
      assert Flatten(t) + more == [Other(text)] + (Flatten(rest) + more);
      NestedJoins(Other(text), Flatten(rest) + more, depth);
      TreeNests(rest, more, depth);
    case Group(cond, body, arms, rest) =>
      var tail := FlattenArms(arms) + (Flatten(rest) + more);
      assert Flatten(t) + more == [If(cond)] + (Flatten(body) + tail);
      NestedJoins(If(cond), Flatten(body) + tail, depth);
      TreeNests(body, tail, depth + 1);
      ArmsNest(arms, Flatten(rest) + more, depth);
      TreeNests(rest, more, depth);
  }

  lemma {:induction false} ArmsNest(a: Arms, more: seq<Line>, depth: nat)
    ensures Nested(FlattenArms(a) + more, depth + 1) <==> Nested(more, depth)
    decreases a
  {
    match a
    case End =>
      NestedJoins(EndIf, more, depth + 1);
    case Arm(guard, body, rest) =>
      var tail := FlattenArms(rest) + more;
      assert FlattenArms(a) + more == [GuardLine(guard)] + (Flatten(body) + tail);
      NestedJoins(GuardLine(guard), Flatten(body) + tail, depth + 1);
      TreeNests(body, tail, depth + 1);
      ArmsNest(rest, more, depth);
  }

  // The well-nested line lists are exactly the ones that spell a tree.
  lemma NestedIsTree(lines: seq<Line>)
    ensures Nested(lines, 0) <==> exists t :: Flatten(t) == lines
  {
    if Nested(lines, 0) {
      var t, rest := TakeItems(lines, 0);
      assert Flatten(t) + rest == Flatten(t);
    }
    forall t | Flatten(t) == lines ensures Nested(lines, 0) {
      TreeNests(t, [], 0);
      assert Flatten(t) + [] == Flatten(t);
    }
  }

  // ----- what is reported ----------------------------------------------------------------------

  predicate Mismatch(p: Problem) {
    p == UnmatchedElseIf || p == UnmatchedElse || p == UnmatchedEndIf || p == Unterminated
  }

  predicate Mismatched(problems: seq<Problem>) {
    exists p | p in problems :: Mismatch(p)
  }

  lemma MismatchStays<S>(rules: Rules<S>, m: Machine<S>, line: Line)
    requires !line.Other?
    ensures var next := Step(rules, m, line);
            Mismatched(next.world.problems) <==>
            Mismatched(m.world.problems) || (m.stack == [] && Closer(line))
    ensures m.stack != [] || !Closer(line) ==>
      |Step(rules, m, line).stack| == if line.If? then |m.stack| + 1 else if line.EndIf? then |m.stack| - 1
          else |m.stack|
  {
    var next := Step(rules, m, line);
    forall p | p in m.world.problems ensures p in next.world.problems {}
    if m.stack == [] && Closer(line) {
      var last := next.world.problems[|next.world.problems| - 1];
      assert Mismatch(last) && last in next.world.problems;
    }
  }

  // Plain lines do not matter to nesting.
  lemma {:induction false} PlainNests(taken: seq<Line>, rest: seq<Line>, depth: nat)
    requires AllPlain(taken)
    ensures Nested(taken + rest, depth) <==> Nested(rest, depth)
    decreases |taken|
  {
    if taken == [] {
      assert taken + rest == rest;
    } else {
      assert taken + rest == [taken[0]] + (taken[1..] + rest);
      NestedJoins(taken[0], taken[1..] + rest, depth);
      PlainNests(taken[1..], rest, depth);
    }
  }

  // In input that is read to its end, if no directive line is taken, a missing or a stray
  // directive is reported exactly if the lines are not well nested.
  lemma {:induction false} ReportsMismatch<S>(rules: Rules<S>, m: Machine<S>, lines: seq<Line>)
    requires forall s :: !rules.ended(s)
    requires Tidy(rules, m, lines)
    ensures Mismatched(Finish(rules, Run(rules, m, lines)).problems) <==>
            Mismatched(m.world.problems) || !Nested(lines, |m.stack|)
    decreases |lines|
  {
    hide Mismatch, Mismatched, Step, Nested, Finish, AllPlain;
    if lines == [] {
      FinishReports(rules, m);
      NothingNests(|m.stack|);
      return;
    }
    var first, behind := lines[0], lines[1..];
    var t := Advance(rules, m, first, behind);
    ReportsMismatch(rules, t.machine, lines[1 + t.used..]);
    hide Run, Tidy;
    assert lines == [first] + behind;
    NestedJoins(first, behind, |m.stack|);
    if first.Other? {
      assert behind == behind[..t.used] + behind[t.used..] && behind[t.used..] == lines[1 + t.used..];
      PlainNests(behind[..t.used], behind[t.used..], |m.stack|);
    } else {
      MismatchStays(rules, m, first);
      assert lines[1 + t.used..] == behind;
    }
  }

  lemma NothingNests(depth: nat)
    ensures Nested([], depth) <==> depth == 0
  {
  }

  lemma FinishReports<S>(rules: Rules<S>, m: Machine<S>)
    ensures Mismatched(Finish(rules, m).problems) <==>
            Mismatched(m.world.problems) || (m.stack != [] && !rules.ended(m.world.state))
  {
    assert m.stack != [] && !rules.ended(m.world.state) ==>
             Unterminated in Finish(rules, m).problems && Mismatch(Unterminated);
    assert forall p | p in m.world.problems :: p in Finish(rules, m).problems;
  }

  // ----- the preprocessor's methods --------------------------------------------------------------

  class Preprocessor<S> {
    const rules: Rules<S>
    var world: World<S>
    var condStack: seq<CondFrame>

    constructor (rules: Rules<S>, state: S)
      ensures this.rules == rules && world == World(state, [], false, false) && condStack == []
    {
      this.rules := rules;
      world, condStack := World(state, [], false, false), [];
    }

    ghost predicate Valid()
      reads this
    {
      Consistent(condStack, rules.maxDepth)
    }

    ghost function State(): Machine<S>
      reads this
    {
      Machine(world, condStack)
    }

    predicate Active()
      reads this
    {
      CurrentActive(condStack)
    }

    method Evaluate(cond: seq<Tok>, parentActive: bool) returns (active: bool)
      modifies this`world
      ensures var b := EvaluateBranch(rules, old(world), cond, parentActive);
              active == b.active && world == b.world
    {
      if !parentActive { return false; }
      var v := rules.eval(world.state, cond);
      if v.None? {
        world := world.Report(Unresolvable);
        return false;
      }
      active := v.value != 0;
    }

    method HandleIf(cond: seq<Tok>)
      modifies this
      ensures State() == old(Step(rules, State(), If(cond)))
    {
      var parentActive := Active();
      if |condStack| >= rules.maxDepth {
        world := world.ReportDepth();
        condStack := condStack + [CondFrame(parentActive, false, true, true)];
        return;
      }
      var branchActive := Evaluate(cond, parentActive);
      condStack := condStack + [CondFrame(parentActive, branchActive, branchActive, false)];
    }

    method HandleElseIf(cond: seq<Tok>)
      modifies this
      ensures State() == old(Step(rules, State(), ElseIf(cond)))
    {
      if |condStack| == 0 {
        world := world.Report(UnmatchedElseIf);
        return;
      }
      var top := condStack[|condStack| - 1];
      if top.overflow { return; }
      if top.taken {
        SetTop(top.(branchActive := false));
        return;
      }
      var active := Evaluate(cond, top.parentActive);
      top := top.(branchActive := active);
      if active { top := top.(taken := true); }
      SetTop(top);
    }

    method HandleElse()
      modifies this
      ensures State() == old(Step(rules, State(), Else))
    {
      if |condStack| == 0 {
        world := world.Report(UnmatchedElse);
        return;
      }
      var top := condStack[|condStack| - 1];
      if top.overflow { return; }
      var active := top.parentActive && !top.taken;
      top := top.(branchActive := active);
      if active { top := top.(taken := true); }
      SetTop(top);
    }

    method HandleEndIf()
      modifies this
      ensures State() == old(Step(rules, State(), EndIf))
    {
      if |condStack| == 0 {
        world := world.Report(UnmatchedEndIf);
        return;
      }
      condStack := condStack[..|condStack| - 1];
    }

    method SetTop(top: CondFrame)
      requires condStack != []
      modifies this`condStack
      ensures condStack == old(condStack)[..|old(condStack)| - 1] + [top]
    {
      condStack := condStack[|condStack| - 1 := top];
    }

    // Handles a line and the ones it takes; tells how many those are.
    method HandleLine(line: Line, rest: seq<Line>) returns (taken: nat)
      modifies this
      ensures Turn(State(), taken) == old(Advance(rules, State(), line, rest))
    {
      taken := 0;
      match line
      case If(cond) => HandleIf(cond);
      case ElseIf(cond) => HandleElseIf(cond);
      case Else => HandleElse();
      case EndIf => HandleEndIf();
      case Other(text) =>
        if Active() {
          var o := rules.run(world.state, world.truncated, text, rest);
          world := world.After(o);
          taken := Taken(o, rest);
        }
    }

    // A whole file. If it is well nested and none of its directives is taken by a macro, it
    // is read as its tree says.
    method RunContents(lines: seq<Line>)
      requires Valid() && condStack == []
      modifies this
      ensures Valid()
      ensures world == Finish(rules, Run(rules, old(State()), lines))
      ensures old(Tidy(rules, State(), lines)) ==>
                forall t | Flatten(t) == lines :: world == Read(rules, t, [], old(world), true, 0)
    {
      ghost var start := State();
      var i := 0;
      while i < |lines| && !rules.ended(world.state)
        invariant i <= |lines| && Valid()
        invariant Run(rules, State(), lines[i..]) == Run(rules, start, lines)
      {
        assert lines[i..][1..] == lines[i + 1..];
        if !lines[i].Other? { StepConsistent(rules, State(), lines[i]); }
        var taken := HandleLine(lines[i], lines[i + 1..]);
        assert lines[i..][1 + taken..] == lines[i + 1 + taken..];
        i := i + 1 + taken;
      }
      if |condStack| > 0 && !rules.ended(world.state) {
        world := world.Report(Unterminated);
      }
      if Tidy(rules, start, lines) {
        forall t | Flatten(t) == lines ensures world == Read(rules, t, [], old(world), true, 0) {
          assert Flatten(t) + [] == Flatten(t);
          MachineReads(rules, t, start, []);
        }
      }
    }
  }
}
