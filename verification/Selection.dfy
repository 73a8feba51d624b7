// Which lines conditional compilation selects (preprocess/directives.go): a plain line is
// processed if and only if each group around it chose the arm it stands in, and a group
// chooses its first arm that is an #else or whose condition is not zero.
module Selection {
  import opened Chars
  import opened Tokens
  import opened Conditionals
  import opened TakenLines

  // The machine when it comes to the k-th line; None if input ends before, or a line in front
  // takes it.
  function StopsAt<S>(rules: Rules<S>, m: Machine<S>, lines: seq<Line>, k: nat): Option<Machine<S>>
    decreases |lines|
  {
    if k >= |lines| || rules.ended(m.world.state) then None
    else if k == 0 then Some(m)
    else
      var t := Advance(rules, m, lines[0], lines[1..]);
      if t.used < k then StopsAt(rules, t.machine, lines[1 + t.used..], k - 1 - t.used) else None
  }

  // ----- groups and their arms -------------------------------------------------------------------

  // The #if lines that are open in front of the k-th line, outermost first.
  function Enclosing(lines: seq<Line>, k: nat): (r: seq<nat>)
    requires k <= |lines|
    ensures forall p | 0 <= p < |r| :: r[p] < k
  {
    if k == 0 then []
    else
      var before := Enclosing(lines, k - 1);
      match lines[k - 1]
      case If(_) => before + [k - 1]
      case EndIf => if before == [] then [] else before[..|before| - 1]
      case _ => before
  }

  // The j-th line starts an arm of the group that line i opens.
  predicate StartsArm(lines: seq<Line>, i: nat, j: nat)
    requires j < |lines|
  {
    j == i || ((lines[j].ElseIf? || lines[j].Else?)
               && var around := Enclosing(lines, j); around != [] && around[|around| - 1] == i)
  }

  // The arms of that group that start in front of the k-th line.
  function Arms(lines: seq<Line>, i: nat, k: nat): seq<Line>
    requires k <= |lines|
  {
    if k == 0 then [] else Arms(lines, i, k - 1) + (if StartsArm(lines, i, k - 1) then [lines[k - 1]] else [])
  }

  // The arm is an #else, or its condition has a value that is not zero.
  predicate Holds<S>(rules: Rules<S>, s: S, arm: Line) {
    match arm
    case If(cond) => rules.eval(s, cond).Some? && rules.eval(s, cond).value != 0
    case ElseIf(cond) => rules.eval(s, cond).Some? && rules.eval(s, cond).value != 0
    case Else => true
    case _ => false
  }

  ghost predicate NoneHolds<S>(rules: Rules<S>, s: S, arms: seq<Line>) {
    forall j | 0 <= j < |arms| :: !Holds(rules, s, arms[j])
  }

  // The last of these arms is the first to hold.
  ghost predicate Chosen<S>(rules: Rules<S>, s: S, arms: seq<Line>) {
    arms != [] && Holds(rules, s, arms[|arms| - 1]) && NoneHolds(rules, s, arms[..|arms| - 1])
  }

  lemma OneMoreArm<S>(rules: Rules<S>, s: S, arms: seq<Line>, arm: Line)
    ensures Chosen(rules, s, arms + [arm]) <==> Holds(rules, s, arm) && NoneHolds(rules, s, arms)
    ensures NoneHolds(rules, s, arms + [arm]) <==> !Holds(rules, s, arm) && NoneHolds(rules, s, arms)
  {
    hide Holds;
    var all := arms + [arm];
    assert all[..|arms|] == arms && all[|arms|] == arm;
    assert forall j | 0 <= j < |arms| :: all[j] == arms[j];
  }

  lemma {:induction false} EnclosingInOrder(lines: seq<Line>, k: nat, p: nat)
    requires k <= |lines| && p < |Enclosing(lines, k)|
    ensures var i := Enclosing(lines, k)[p];
            && i < k && lines[i].If? && Enclosing(lines, i) == Enclosing(lines, k)[..p]
            && forall q | p < q < |Enclosing(lines, k)| :: i < Enclosing(lines, k)[q]
    decreases k
  {
    var before, after := Enclosing(lines, k - 1), Enclosing(lines, k);
    if p < |before| {
      EnclosingInOrder(lines, k - 1, p);
      assert after[..p] == before[..p];
    } else {
      assert after[..p] == before;
    }
  }

  // Plain lines change neither.
  lemma {:induction false} PlainBetween(lines: seq<Line>, a: nat, b: nat, i: nat)
    requires a <= b <= |lines| && AllPlain(lines[a..b])
    ensures Enclosing(lines, b) == Enclosing(lines, a)
    ensures i < a ==> Arms(lines, i, b) == Arms(lines, i, a)
    decreases b
  {
    if a < b {
      assert lines[a..b][b - 1 - a] == lines[b - 1];
      assert lines[a..b - 1] == lines[a..b][..b - 1 - a];
      PlainBetween(lines, a, b - 1, i);
    }
  }

  lemma {:induction false} NoArmsBefore(lines: seq<Line>, i: nat, k: nat)
    requires k <= i < |lines|
    ensures Arms(lines, i, k) == []
  {
    if k > 0 { NoArmsBefore(lines, i, k - 1); }
  }

  // ----- the frames of the machine follow the groups --------------------------------------------------

  // A run of the rules from the start of a file.
  datatype File<!S> = File(rules: Rules<S>, state: S, lines: seq<Line>)
  {
    function Start(): Machine<S> { Machine(World(state, [], false, false), []) }

    function At(k: nat): Option<Machine<S>> { StopsAt(rules, Start(), lines, k) }
  }

  // The frame says whether the group's place is active, whether its arm at k was chosen, and
  // whether any was. Until one is, the state is the one in which the group was come to.
  ghost predicate FrameTracks<S>(f: File<S>, k: nat, m: Machine<S>, p: nat, i: nat)
    requires k <= |f.lines| && p < |m.stack|
  {
    var frame, arms := m.stack[p], Arms(f.lines, i, k);
    && f.At(i).Some?
    && var s := f.At(i).value.world.state;
    && frame.parentActive == CurrentActive(m.stack[..p])
    && frame.overflow == (f.rules.maxDepth <= p)
    && frame.branchActive == (frame.parentActive && !frame.overflow && Chosen(f.rules, s, arms))
    && frame.taken == (frame.overflow || (frame.parentActive && !NoneHolds(f.rules, s, arms)))
    && (frame.parentActive && !frame.taken ==> m.world.state == s)
  }

  ghost predicate Tracks<S>(f: File<S>, k: nat, m: Machine<S>)
    requires k <= |f.lines|
  {
    && |m.stack| == |Enclosing(f.lines, k)|
    && forall p | 0 <= p < |m.stack| :: FrameTracks(f, k, m, p, Enclosing(f.lines, k)[p])
  }

  // An active place is active all the way down.
  lemma {:induction false} ActiveBelow<S>(f: File<S>, k: nat, m: Machine<S>, p: nat, q: nat)
    requires k <= |f.lines| && Tracks(f, k, m) && p < q <= |m.stack| && CurrentActive(m.stack[..q])
    ensures m.stack[p].branchActive && m.stack[p].parentActive && m.stack[p].taken
    decreases q
  {
    hide Chosen, NoneHolds, StopsAt, Arms, Enclosing;
    assert FrameTracks(f, k, m, q - 1, Enclosing(f.lines, k)[q - 1]);
    assert m.stack[..q][|m.stack[..q]| - 1] == m.stack[q - 1];
    ChosenHolds(f, k, m, q - 1);
    if p < q - 1 { ActiveBelow(f, k, m, p, q - 1); }
  }

  lemma ChosenHolds<S>(f: File<S>, k: nat, m: Machine<S>, p: nat)
    requires k <= |f.lines| && Tracks(f, k, m) && p < |m.stack| && m.stack[p].branchActive
    ensures m.stack[p].taken && m.stack[p].parentActive
  {
    hide Holds, StopsAt, Arms, Enclosing;
    assert FrameTracks(f, k, m, p, Enclosing(f.lines, k)[p]);
  }

  lemma IfTracks<S>(f: File<S>, k: nat, m: Machine<S>)
    requires k < |f.lines| && f.At(k) == Some(m) && Tracks(f, k, m) && f.lines[k].If?
    ensures Tracks(f, k + 1, Step(f.rules, m, f.lines[k]))
  {
    hide StopsAt, Chosen, NoneHolds, Holds, Arms, Enclosing;
    var next, around := Step(f.rules, m, f.lines[k]), Enclosing(f.lines, k);
    IfOpens(f.lines, k);
    var inside := Enclosing(f.lines, k + 1);
    forall p | 0 <= p < |next.stack| ensures FrameTracks(f, k + 1, next, p, inside[p]) {
      if p < |m.stack| {
        assert FrameTracks(f, k, m, p, around[p]);
        assert inside[p] == around[p] && next.stack[p] == m.stack[p];
        assert next.stack[..p] == m.stack[..p];
      } else {
        FirstArm(f, k, m);
      }
    }
  }

  lemma IfOpens(lines: seq<Line>, k: nat)
    requires k < |lines| && lines[k].If?
    ensures Enclosing(lines, k + 1) == Enclosing(lines, k) + [k]
    ensures forall i: nat | i < k :: Arms(lines, i, k + 1) == Arms(lines, i, k)
    ensures Arms(lines, k, k + 1) == [lines[k]]
  {
    NoArmsBefore(lines, k, k);
    assert StartsArm(lines, k, k);
  }

  lemma FirstArm<S>(f: File<S>, k: nat, m: Machine<S>)
    requires k < |f.lines| && f.At(k) == Some(m) && f.lines[k].If? && Arms(f.lines, k, k + 1) == [f.lines[k]]
    ensures FrameTracks(f, k + 1, Step(f.rules, m, f.lines[k]), |m.stack|, k)
  {
    hide StopsAt, Chosen, NoneHolds, Arms;
    OneMoreArm(f.rules, m.world.state, [], f.lines[k]);
    NoArmHolds(f.rules, m.world.state);
    assert [] + [f.lines[k]] == [f.lines[k]];
    assert Step(f.rules, m, f.lines[k]).stack[..|m.stack|] == m.stack;
  }

  lemma NoArmHolds<S>(rules: Rules<S>, s: S)
    ensures NoneHolds(rules, s, [])
  {
  }

  // The arms of the groups further out are as before.
  lemma OuterArms(lines: seq<Line>, k: nat, p: nat)
    requires k < |lines| && (lines[k].ElseIf? || lines[k].Else?) && p < |Enclosing(lines, k)|
    ensures var i, last := Enclosing(lines, k)[p], |Enclosing(lines, k)| - 1;
            Arms(lines, i, k + 1) == if p == last then Arms(lines, i, k) + [lines[k]] else Arms(lines, i, k)
  {
    EnclosingInOrder(lines, k, p);
  }

  lemma ArmTracks<S>(f: File<S>, k: nat, m: Machine<S>)
    requires k < |f.lines| && Tracks(f, k, m) && (f.lines[k].ElseIf? || f.lines[k].Else?) && m.stack != []
    ensures Tracks(f, k + 1, Step(f.rules, m, f.lines[k]))
  {
    hide StopsAt, Chosen, NoneHolds;
    var next, around := Step(f.rules, m, f.lines[k]), Enclosing(f.lines, k);
    var last := |around| - 1;
    forall p | 0 <= p < |next.stack| ensures FrameTracks(f, k + 1, next, p, around[p]) {
      assert FrameTracks(f, k, m, p, around[p]);
      assert next.stack[..p] == m.stack[..p];
      OuterArms(f.lines, k, p);
      if p == last {
        TopTracks(f, k, m, around[p]);
      } else {
        assert next.stack[p] == m.stack[p];
      }
    }
  }

  lemma TopTracks<S>(f: File<S>, k: nat, m: Machine<S>, i: nat)
    requires k < |f.lines| && (f.lines[k].ElseIf? || f.lines[k].Else?) && m.stack != []
    requires FrameTracks(f, k, m, |m.stack| - 1, i)
    requires Arms(f.lines, i, k + 1) == Arms(f.lines, i, k) + [f.lines[k]]
    ensures FrameTracks(f, k + 1, Step(f.rules, m, f.lines[k]), |m.stack| - 1, i)
  {
    hide StopsAt, Chosen, NoneHolds, Arms;
    OneMoreArm(f.rules, f.At(i).value.world.state, Arms(f.lines, i, k), f.lines[k]);
    var next, p := Step(f.rules, m, f.lines[k]), |m.stack| - 1;
    assert next.stack[..p] == m.stack[..p];
  }

  lemma EndIfTracks<S>(f: File<S>, k: nat, m: Machine<S>)
    requires k < |f.lines| && Tracks(f, k, m) && f.lines[k].EndIf?
    ensures Tracks(f, k + 1, Step(f.rules, m, f.lines[k]))
  {
    hide StopsAt, Chosen, NoneHolds;
    var next, around := Step(f.rules, m, f.lines[k]), Enclosing(f.lines, k);
    var inside := Enclosing(f.lines, k + 1);
    forall p | 0 <= p < |next.stack| ensures FrameTracks(f, k + 1, next, p, inside[p]) {
      assert FrameTracks(f, k, m, p, around[p]);
      assert next.stack[..p] == m.stack[..p];
      assert Arms(f.lines, around[p], k + 1) == Arms(f.lines, around[p], k);
    }
  }

  lemma PlainTracks<S>(f: File<S>, k: nat, n: nat, m: Machine<S>)
    requires k < n <= |f.lines| && Tracks(f, k, m) && AllPlain(f.lines[k..n])
    ensures var t := Advance(f.rules, m, f.lines[k], f.lines[k + 1..]);
            f.lines[k].Other? && Tracks(f, n, t.machine)
  {
    hide StopsAt, Chosen, NoneHolds;
    assert f.lines[k..n][0] == f.lines[k];
    var t, around := Advance(f.rules, m, f.lines[k], f.lines[k + 1..]), Enclosing(f.lines, k);
    PlainBetween(f.lines, k, n, 0);
    forall p | 0 <= p < |m.stack| ensures FrameTracks(f, n, t.machine, p, around[p]) {
      assert FrameTracks(f, k, m, p, around[p]);
      PlainBetween(f.lines, k, n, around[p]);
      assert m.stack[..|m.stack|] == m.stack;
      if CurrentActive(m.stack) { ActiveBelow(f, k, m, p, |m.stack|); }
    }
  }

  // ----- whole runs -----------------------------------------------------------------------------------

  lemma StopsStep<S>(rules: Rules<S>, m: Machine<S>, lines: seq<Line>, k: nat)
    ensures StopsAt(rules, m, lines, k).Some? ==> k < |lines| && !rules.ended(m.world.state)
    ensures StopsAt(rules, m, lines, 0) == if lines == [] || rules.ended(m.world.state) then None else Some(m)
    ensures k > 0 && lines != [] && !rules.ended(m.world.state) ==>
              var t := Advance(rules, m, lines[0], lines[1..]);
              StopsAt(rules, m, lines, k)
              == if t.used < k then StopsAt(rules, t.machine, lines[1 + t.used..], k - 1 - t.used) else None
  {
    hide Advance;
    if k > 0 && lines != [] && !rules.ended(m.world.state) {
      var t := Advance(rules, m, lines[0], lines[1..]);
      if t.used < k { StopsInside(rules, t.machine, lines[1 + t.used..], k - 1 - t.used); }
    }
  }

  lemma {:induction false} StopsInside<S>(rules: Rules<S>, m: Machine<S>, lines: seq<Line>, k: nat)
    ensures StopsAt(rules, m, lines, k).Some? ==> k < |lines|
  {
  }

  lemma {:induction false} StopsLater<S>(rules: Rules<S>, m: Machine<S>, lines: seq<Line>, b: nat, k: nat)
    requires b <= k && StopsAt(rules, m, lines, b).Some?
    ensures b < |lines|
    ensures StopsAt(rules, m, lines, k) == StopsAt(rules, StopsAt(rules, m, lines, b).value, lines[b..], k - b)
    decreases |lines|
  {
    hide StopsAt, Advance;
    StopsStep(rules, m, lines, b);
    StopsStep(rules, m, lines, k);
    if b == 0 {
      assert lines[0..] == lines;
    } else {
      var t := Advance(rules, m, lines[0], lines[1..]);
      var later := lines[1 + t.used..];
      StopsLater(rules, t.machine, later, b - 1 - t.used, k - 1 - t.used);
      assert later[b - 1 - t.used..] == lines[b..];
    }
  }

  // The line behind the b-th and what it takes, on the way to the k-th.
  lemma NextStop<S>(f: File<S>, b: nat, k: nat)
    requires b < k && f.At(b).Some? && f.At(k).Some?
    ensures b < |f.lines| && !f.rules.ended(f.At(b).value.world.state)
    ensures var t := Advance(f.rules, f.At(b).value, f.lines[b], f.lines[b + 1..]);
            b + 1 + t.used <= k && f.At(b + 1 + t.used) == Some(t.machine)
  {
    hide StopsAt, Advance;
    var m := f.At(b).value;
    StopsLater(f.rules, f.Start(), f.lines, b, k);
    var t, later := Advance(f.rules, m, f.lines[b], f.lines[b + 1..]), f.lines[b..];
    assert later[1..] == f.lines[b + 1..] && later[0] == f.lines[b];
    StopsStep(f.rules, m, later, k - b);
    StopsLater(f.rules, f.Start(), f.lines, b, b + 1 + t.used);
    StopsStep(f.rules, m, later, 1 + t.used);
    StopsStep(f.rules, t.machine, later[1 + t.used..], k - b - 1 - t.used);
  }

  lemma {:induction false} TracksFrom<S>(f: File<S>, b: nat, k: nat)
    requires b <= k && f.At(b).Some? && f.At(k).Some? && b <= |f.lines| && k <= |f.lines|
    requires Tracks(f, b, f.At(b).value) && Tidy(f.rules, f.At(b).value, f.lines[b..])
    ensures Tracks(f, k, f.At(k).value)
    decreases k - b
  {
    hide StopsAt, Tracks, Step, Tidy, Enclosing, AllPlain;
    if b == k { return; }
    NextStop(f, b, k);
    var m, line := f.At(b).value, f.lines[b];
    var t := Advance(f.rules, m, line, f.lines[b + 1..]);
    var next := b + 1 + t.used;
    TidyNext(f, b, m);
    match line {
      case If(_) => IfTracks(f, b, m);
      case EndIf => EndIfTracks(f, b, m);
      case Other(_) => PlainTracks(f, b, next, m);
      case _ => if m.stack == [] { NoGroup(f, b, m); } else { ArmTracks(f, b, m); }
    }
    TracksFrom(f, next, k);
  }

  lemma TidyNext<S>(f: File<S>, b: nat, m: Machine<S>)
    requires b < |f.lines| && !f.rules.ended(m.world.state) && Tidy(f.rules, m, f.lines[b..])
    ensures var t := Advance(f.rules, m, f.lines[b], f.lines[b + 1..]);
            && Tidy(f.rules, t.machine, f.lines[b + 1 + t.used..])
            && (f.lines[b].Other? ==> AllPlain(f.lines[b..b + 1 + t.used]))
  {
    hide Advance;
    var later := f.lines[b..];
    assert later[1..] == f.lines[b + 1..] && later[0] == f.lines[b];
    var t := Advance(f.rules, m, f.lines[b], f.lines[b + 1..]);
    assert later[1 + t.used..] == f.lines[b + 1 + t.used..];
    hide Tidy;
    var taken, all := f.lines[b + 1..][..t.used], f.lines[b..b + 1 + t.used];
    assert forall j | 0 < j < |all| :: all[j] == taken[j - 1];
  }

  // A stray #elseif or #else changes nothing but what is reported.
  lemma NoGroup<S>(f: File<S>, k: nat, m: Machine<S>)
    requires k < |f.lines| && Tracks(f, k, m) && (f.lines[k].ElseIf? || f.lines[k].Else?) && m.stack == []
    ensures Tracks(f, k + 1, Step(f.rules, m, f.lines[k]))
  {
    hide StopsAt;
  }

  lemma TracksAll<S>(f: File<S>, k: nat)
    requires Tidy(f.rules, f.Start(), f.lines) && f.At(k).Some?
    ensures k < |f.lines| && Tracks(f, k, f.At(k).value)
  {
    hide StopsAt;
    StopsStep(f.rules, f.Start(), f.lines, k);
    StopsStep(f.rules, f.Start(), f.lines, 0);
    assert f.lines[0..] == f.lines;
    TracksFrom(f, 0, k);
  }

  // ----- main results -----------------------------------------------------------------------------------

  // The group that line i opens is not too deep, and chose the arm that the k-th line stands in, by
  // the conditions' values in the state in which line i was come to.
  ghost predicate ChoseArm<S>(f: File<S>, i: nat, k: nat) {
    && i < |f.lines| && k <= |f.lines| && |Enclosing(f.lines, i)| < f.rules.maxDepth && f.At(i).Some?
    && Chosen(f.rules, f.At(i).value.world.state, Arms(f.lines, i, k))
  }

  // Places p and further out are active if and only if all groups up to there chose their arm.
  lemma {:induction false} ActiveIfChosen<S>(f: File<S>, k: nat, m: Machine<S>, q: nat)
    requires k < |f.lines| && Tracks(f, k, m) && q <= |m.stack| == |Enclosing(f.lines, k)|
    ensures CurrentActive(m.stack[..q]) <==> forall p | 0 <= p < q :: ChoseArm(f, Enclosing(f.lines, k)[p], k)
    decreases q
  {
    hide ChoseArm, StopsAt, Tracks, Enclosing;
    if q > 0 {
      ActiveIfChosen(f, k, m, q - 1);
      FrameActive(f, k, m, q - 1);
      assert m.stack[..q][|m.stack[..q]| - 1] == m.stack[q - 1];
    }
  }

  lemma FrameActive<S>(f: File<S>, k: nat, m: Machine<S>, p: nat)
    requires k < |f.lines| && Tracks(f, k, m) && p < |m.stack|
    ensures p < |Enclosing(f.lines, k)|
    ensures m.stack[p].branchActive <==> CurrentActive(m.stack[..p]) && ChoseArm(f, Enclosing(f.lines, k)[p], k)
  {
    hide Chosen, StopsAt, Arms, Enclosing;
    var i := Enclosing(f.lines, k)[p];
    assert FrameTracks(f, k, m, p, i);
    EnclosingInOrder(f.lines, k, p);
    assert |Enclosing(f.lines, i)| == p;
  }

  // A place that is come to is active if and only if every group around it chose the arm it is in.
  lemma ActiveExactly<S>(f: File<S>, k: nat)
    requires Tidy(f.rules, f.Start(), f.lines) && f.At(k).Some?
    ensures k < |f.lines|
    ensures CurrentActive(f.At(k).value.stack) <==> forall i | i in Enclosing(f.lines, k) :: ChoseArm(f, i, k)
  {
    TracksAll(f, k);
    hide ChoseArm, StopsAt;
    var m, around := f.At(k).value, Enclosing(f.lines, k);
    ActiveIfChosen(f, k, m, |m.stack|);
    assert m.stack[..|m.stack|] == m.stack;
    assert forall p | 0 <= p < |around| :: around[p] in around;
  }

  // A plain line is processed if and only if it is come to at all and every group around it chose
  // the arm it stands in. No nesting is asked for: a stray directive belongs to no group.
  lemma SelectedExactly<S>(f: File<S>, k: nat)
    requires Tidy(f.rules, f.Start(), f.lines)
    ensures ComesTo(f.rules, f.Start(), f.lines, k) <==>
            && k < |f.lines| && f.lines[k].Other? && f.At(k).Some?
            && forall i | i in Enclosing(f.lines, k) :: ChoseArm(f, i, k)
  {
    hide ChoseArm, Enclosing;
    ComesToStops(f.rules, f.Start(), f.lines, k);
    if f.At(k).Some? { ActiveExactly(f, k); }
  }

  lemma {:induction false} ComesToStops<S>(rules: Rules<S>, m: Machine<S>, lines: seq<Line>, k: nat)
    ensures ComesTo(rules, m, lines, k) <==>
            && k < |lines| && lines[k].Other? && StopsAt(rules, m, lines, k).Some?
            && CurrentActive(StopsAt(rules, m, lines, k).value.stack)
    decreases |lines|
  {
    if 0 < k < |lines| && !rules.ended(m.world.state) {
      var t := Advance(rules, m, lines[0], lines[1..]);
      if t.used < k { ComesToStops(rules, t.machine, lines[1 + t.used..], k - 1 - t.used); }
    }
  }

  // ----- conditions that are asked for -----------------------------------------------------------------

  // The condition of the k-th line is asked for: its #if stands in an active place that is not too
  // deep, or its group does, and none of the arms before it held.
  ghost predicate Asked<S>(f: File<S>, k: nat)
    requires k < |f.lines|
  {
    var around := Enclosing(f.lines, k);
    match f.lines[k]
    case If(_) => |around| < f.rules.maxDepth && forall i | i in around :: ChoseArm(f, i, k)
    case ElseIf(_) =>
      && around != [] && |around| <= f.rules.maxDepth
      && (forall i | i in around[..|around| - 1] :: ChoseArm(f, i, k))
      && f.At(around[|around| - 1]).Some?
      && NoneHolds(f.rules, f.At(around[|around| - 1]).value.world.state, Arms(f.lines, around[|around| - 1], k))
    case _ => false
  }

  // One that is asked for and has no value is reported and does not hold; one that is not asked for
  // has no effect, whatever it would evaluate to.
  lemma AskedExactly<S>(f: File<S>, k: nat, eval: (S, seq<Tok>) -> Option<int>)
    requires Tidy(f.rules, f.Start(), f.lines) && f.At(k).Some? && k < |f.lines|
    requires f.lines[k].If? || f.lines[k].ElseIf?
    ensures var m := f.At(k).value;
            var next := Step(f.rules, m, f.lines[k]);
            if Asked(f, k) then
              next.world == if f.rules.eval(m.world.state, f.lines[k].cond).None? then m.world.Report(Unresolvable)
                            else m.world
            else Step(f.rules.(eval := eval), m, f.lines[k]) == next
  {
    TracksAll(f, k);
    var m, around := f.At(k).value, Enclosing(f.lines, k);
    hide StopsAt, Chosen, NoneHolds, Arms, Holds;
    if f.lines[k].If? {
      ActiveExactly(f, k);
    } else if around != [] {
      var last := |around| - 1;
      assert FrameTracks(f, k, m, last, around[last]);
      ActiveIfChosen(f, k, m, last);
      hide ChoseArm;
      assert (forall i | i in around[..last] :: ChoseArm(f, i, k))
        <==> forall p | 0 <= p < last :: ChoseArm(f, around[p], k) by {
        assert forall p | 0 <= p < last :: around[..last][p] == around[p];
      }
    }
  }

  // ----- what else is reported --------------------------------------------------------------------------

  // A directive outside all groups is reported as what it is, and changes nothing.
  lemma StrayReported<S>(rules: Rules<S>, m: Machine<S>, line: Line)
    requires m.stack == [] && Closer(line)
    ensures Step(rules, m, line) == m.(world := m.world.(problems := m.world.problems + [
              if line.ElseIf? then UnmatchedElseIf else if line.Else? then UnmatchedElse else UnmatchedEndIf]))
  {
  }

  // An #if beyond the depth limit cuts output short; that is reported the first time.
  lemma TooDeepReported<S>(rules: Rules<S>, m: Machine<S>, line: Line)
    requires line.If? && |m.stack| >= rules.maxDepth
    ensures var w, next := m.world, Step(rules, m, line).world;
            && next.state == w.state && next.truncated && next.warned
            && next.problems == w.problems + if w.warned then [] else [DepthLimit]
  {
  }

  ghost predicate WarnedOnce<S>(w: World<S>) {
    && (w.warned <==> DepthLimit in w.problems)
    && forall j, k | 0 <= j < k < |w.problems| && w.problems[j] == DepthLimit :: w.problems[k] != DepthLimit
  }

  // So it is reported once at most in a run.
  lemma {:induction false} DepthReportedOnce<S>(rules: Rules<S>, m: Machine<S>, lines: seq<Line>)
    requires WarnedOnce(m.world)
    ensures WarnedOnce(Run(rules, m, lines).world)
    decreases |lines|
  {
    hide WarnedOnce, Step;
    if lines != [] && !rules.ended(m.world.state) {
      var t := Advance(rules, m, lines[0], lines[1..]);
      if lines[0].Other? { SameProblems(m.world, t.machine.world); } else { StepWarnsOnce(rules, m, lines[0]); }
      DepthReportedOnce(rules, t.machine, lines[1 + t.used..]);
    }
  }

  lemma SameProblems<S>(a: World<S>, b: World<S>)
    requires WarnedOnce(a) && b.problems == a.problems && b.warned == a.warned
    ensures WarnedOnce(b)
  {
  }

  lemma StepWarnsOnce<S>(rules: Rules<S>, m: Machine<S>, line: Line)
    requires !line.Other? && WarnedOnce(m.world)
    ensures WarnedOnce(Step(rules, m, line).world)
  {
    var before, after := m.world.problems, Step(rules, m, line).world.problems;
    assert after == before || (|after| == |before| + 1 && after[..|before|] == before);
    if |after| > |before| { assert after == before + [after[|before|]]; }
  }
}
