// When a macro use takes no directive line (preprocess/expand.go, preprocess/pattern.go): a
// condition on the lines of a file alone, and how exact it is.
module TakenLines {
  import opened Tokens
  import opened Conditionals
  import opened MacroArguments

  // The parenthesis in front of position p of a line.
  predicate OpenAt(text: PlainText, p: nat) { 0 < p <= |text.toks| && text.toks[p - 1].kind == LParen }

  // The lines that arguments from there reach.
  function Reach(text: PlainText, p: nat, rest: seq<Line>): (n: nat)
    requires p <= |text.toks|
    ensures n <= |rest|
  {
    ArgumentsFrom(text.toks, p, 0, rest).taken
  }

  // The lines that a pattern can reach from a line: the one behind a joined line, and on from
  // there. How a directive line ends is not recorded; it counts as joined.
  function Chain(joined: bool, rest: seq<Line>): (n: nat)
    ensures n <= |rest|
  {
    if !joined || rest == [] then 0
    else 1 + Chain(if rest[0].Other? then rest[0].text.joined else true, rest[1..])
  }

  // A directive other than a conditional.
  predicate Hashed(text: PlainText) { text.toks != [] && text.toks[0].kind.Hash? }

  // No directive is among the lines that a pattern can reach. Where one is, the pattern may end
  // inside of it, since a # may stand alone on its line, and what follows is cut differently.
  predicate Whole(joined: bool, rest: seq<Line>) {
    joined && rest != [] ==>
      rest[0].Other? && !Hashed(rest[0].text) && Whole(rest[0].text.joined, rest[1..])
  }

  // The lines a plain line takes are those of the arguments behind one of its parentheses, or
  // behind one that starts the next line, or some that a pattern can reach.
  ghost predicate TakesAt(n: nat, text: PlainText, rest: seq<Line>) {
    || (exists p :: OpenAt(text, p) && n == Reach(text, p, rest))
    || (rest != [] && rest[0].Other? && OpenAt(rest[0].text, 1) && n == 1 + Reach(rest[0].text, 1, rest[1..]))
    || n <= Chain(text.joined, rest)
  }

  // What a plain line may take. A directive takes no line; and where a pattern may cut one in
  // two, nothing is said of what is taken.
  ghost predicate MayTake(n: nat, text: PlainText, rest: seq<Line>) {
    if Hashed(text) then n == 0 else if Whole(text.joined, rest) then TakesAt(n, text, rest) else n <= |rest|
  }

  // Whatever macros there are, lines are taken only like that.
  ghost predicate TakesLines<S(!new)>(rules: Rules<S>) {
    forall s: S, b: bool, text: PlainText, rest: seq<Line> :: MayTake(rules.run(s, b, text, rest).taken, text, rest)
  }

  // ----- the condition on lines -----------------------------------------------------------------

  // The first n lines are there, and are no directives.
  ghost predicate PlainTaken(rest: seq<Line>, n: nat) { n <= |rest| && AllPlain(rest[..n]) }

  // Whatever a plain line takes, no directive is among it.
  ghost predicate Closed(text: PlainText, rest: seq<Line>) {
    Hashed(text) || (Whole(text.joined, rest) && forall n: nat | TakesAt(n, text, rest) :: PlainTaken(rest, n))
  }

  ghost predicate ClosedLine(lines: seq<Line>, k: nat) {
    k < |lines| && lines[k].Other? && Closed(lines[k].text, lines[k + 1..])
  }

  ghost predicate AllClosed(lines: seq<Line>) {
    forall k | 0 <= k < |lines| && lines[k].Other? :: ClosedLine(lines, k)
  }

  // A line of text alone.
  predicate TextAt(lines: seq<Line>, k: nat) { k < |lines| && lines[k].Other? && !Hashed(lines[k].text) }

  // From no parenthesis of such a line do arguments reach a conditional.
  ghost predicate ArgumentsClosed(lines: seq<Line>) {
    forall k, p | 0 <= k < |lines| && TextAt(lines, k) && OpenAt(lines[k].text, p) :: ArgumentsClosedAt(lines, k, p)
  }

  ghost predicate ArgumentsClosedAt(lines: seq<Line>, k: nat, p: nat)
    requires k < |lines| && lines[k].Other? && p <= |lines[k].text.toks|
  {
    AllPlain(lines[k + 1..][..Reach(lines[k].text, p, lines[k + 1..])])
  }

  // No directive stands behind such a line that is joined.
  ghost predicate ChainsClosed(lines: seq<Line>) {
    forall k | 0 < k < |lines| && TextAt(lines, k - 1) && lines[k - 1].text.joined :: TextAt(lines, k)
  }

  lemma {:induction false} ChainIsPlain(lines: seq<Line>, k: nat)
    requires ChainsClosed(lines) && TextAt(lines, k)
    ensures Whole(lines[k].text.joined, lines[k + 1..])
    ensures AllPlain(lines[k + 1..][..Chain(lines[k].text.joined, lines[k + 1..])])
    decreases |lines| - k
  {
    var rest := lines[k + 1..];
    if lines[k].text.joined && rest != [] {
      ChainIsPlain(lines, k + 1);
      assert rest[1..] == lines[k + 2..];
      var n := Chain(lines[k + 1].text.joined, rest[1..]);
      OneMorePlain(rest, n);
    }
  }

  lemma OneMorePlain(rest: seq<Line>, n: nat)
    requires n < |rest| && rest[0].Other? && AllPlain(rest[1..][..n])
    ensures AllPlain(rest[..n + 1])
  {
    var all, later := rest[..n + 1], rest[1..][..n];
    forall j | 0 <= j < |all| ensures all[j].Other? {
      assert j > 0 ==> all[j] == later[j - 1];
    }
  }

  lemma FewerPlain(rest: seq<Line>, n: nat, m: nat)
    requires n <= m <= |rest| && AllPlain(rest[..m])
    ensures AllPlain(rest[..n])
  {
    var few, many := rest[..n], rest[..m];
    assert forall j | 0 <= j < n :: few[j] == many[j];
  }

  lemma ChoiceIsPlain(lines: seq<Line>, k: nat, n: nat)
    requires ArgumentsClosed(lines) && ChainsClosed(lines) && TextAt(lines, k)
    requires TakesAt(n, lines[k].text, lines[k + 1..])
    ensures PlainTaken(lines[k + 1..], n)
  {
    hide Reach, Chain, AllPlain, Whole;
    var text, rest := lines[k].text, lines[k + 1..];
    if p :| OpenAt(text, p) && n == Reach(text, p, rest) {
      assert ArgumentsClosedAt(lines, k, p);
    } else if n <= Chain(text.joined, rest) {
      ChainIsPlain(lines, k);
      FewerPlain(rest, n, Chain(text.joined, rest));
    } else {
      assert TextAt(lines, k + 1) && ArgumentsClosedAt(lines, k + 1, 1);
      assert rest[1..] == lines[k + 2..];
      OneMorePlain(rest, n - 1);
    }
  }

  // The condition says two things that can be seen in a file: the arguments of a line of text
  // close in front of the next conditional, and no directive follows a line of text that ends
  // in a backslash.
  lemma ClosedMeans(lines: seq<Line>)
    ensures AllClosed(lines) <==> ArgumentsClosed(lines) && ChainsClosed(lines)
  {
    if ArgumentsClosed(lines) && ChainsClosed(lines) {
      forall k | 0 <= k < |lines| && lines[k].Other? ensures ClosedLine(lines, k) {
        if TextAt(lines, k) {
          var text, rest := lines[k].text, lines[k + 1..];
          ChainIsPlain(lines, k);
          forall n: nat | TakesAt(n, text, rest) ensures PlainTaken(rest, n) {
            ChoiceIsPlain(lines, k, n);
          }
        }
      }
    }
    if AllClosed(lines) {
      forall k, p | 0 <= k < |lines| && TextAt(lines, k) && OpenAt(lines[k].text, p)
        ensures ArgumentsClosedAt(lines, k, p)
      {
        assert ClosedLine(lines, k);
        assert TakesAt(Reach(lines[k].text, p, lines[k + 1..]), lines[k].text, lines[k + 1..]);
      }
      forall k | 0 < k < |lines| && TextAt(lines, k - 1) && lines[k - 1].text.joined ensures TextAt(lines, k) {
        assert ClosedLine(lines, k - 1) && Whole(true, lines[k..]);
      }
    }
  }

  // Whatever rules a line is run by, it takes no conditional.
  ghost predicate Safe(text: PlainText, rest: seq<Line>) {
    forall n: nat | MayTake(n, text, rest) :: PlainTaken(rest, n)
  }

  ghost predicate SafeLine(lines: seq<Line>, k: nat) {
    k < |lines| && lines[k].Other? && Safe(lines[k].text, lines[k + 1..])
  }

  // No conditional follows the k-th line.
  ghost predicate NoneBehind(lines: seq<Line>, k: nat) { k < |lines| && AllPlain(lines[k + 1..]) }

  // That is so if it is closed, or no conditional follows at all.
  lemma SafeIsClosed(lines: seq<Line>, k: nat)
    requires k < |lines| && lines[k].Other?
    ensures SafeLine(lines, k) <==> ClosedLine(lines, k) || NoneBehind(lines, k)
  {
    hide TakesAt, Whole;
    var text, rest := lines[k].text, lines[k + 1..];
    var all: nat := |rest|;
    assert Hashed(text) || Whole(text.joined, rest) || MayTake(all, text, rest);
    assert rest[..0] == [] && rest[..all] == rest;
    if AllPlain(rest) {
      forall n: nat | MayTake(n, text, rest) ensures PlainTaken(rest, n) {
        if TakesAt(n, text, rest) { TakesNoMore(n, text, rest); }
        FewerPlain(rest, n, |rest|);
      }
    }
    if !AllPlain(rest) && SafeLine(lines, k) && !Hashed(text) {
      forall n: nat | Whole(text.joined, rest) && TakesAt(n, text, rest) ensures PlainTaken(rest, n) {
        assert MayTake(n, text, rest);
      }
    }
  }

  lemma SafeLater(lines: seq<Line>, n: nat, k: nat)
    requires n + k < |lines| && lines[n + k].Other?
    ensures SafeLine(lines[n..], k) <==> SafeLine(lines, n + k)
  {
    assert lines[n..][k + 1..] == lines[n + k + 1..];
  }

  // ----- which lines it has to hold of --------------------------------------------------------------

  // The k-th line is a plain one that is come to, in an active place.
  ghost predicate ComesTo<S>(rules: Rules<S>, m: Machine<S>, lines: seq<Line>, k: nat)
    decreases |lines|
  {
    && k < |lines| && !rules.ended(m.world.state)
    && if k == 0 then lines[0].Other? && CurrentActive(m.stack)
       else
         var t := Advance(rules, m, lines[0], lines[1..]);
         t.used < k && ComesTo(rules, t.machine, lines[1 + t.used..], k - 1 - t.used)
  }

  lemma {:induction false} ComesToPlain<S>(rules: Rules<S>, m: Machine<S>, lines: seq<Line>, k: nat)
    requires ComesTo(rules, m, lines, k)
    ensures k < |lines| && lines[k].Other?
    decreases |lines|
  {
    if k > 0 {
      var t := Advance(rules, m, lines[0], lines[1..]);
      ComesToPlain(rules, t.machine, lines[1 + t.used..], k - 1 - t.used);
    }
  }

  // If every line that is come to is safe, the run is tidy.
  lemma {:induction false} SafeWhereComeTo<S(!new)>(rules: Rules<S>, m: Machine<S>, lines: seq<Line>)
    requires TakesLines(rules)
    requires forall k: nat | ComesTo(rules, m, lines, k) :: SafeLine(lines, k)
    ensures Tidy(rules, m, lines)
    decreases |lines|
  {
    if lines == [] || rules.ended(m.world.state) { return; }
    var t := Advance(rules, m, lines[0], lines[1..]);
    var later := lines[1 + t.used..];
    if lines[0].Other? && CurrentActive(m.stack) {
      assert ComesTo(rules, m, lines, 0);
      TakenIsPlain(rules, m, lines);
    } else {
      assert lines[1..][..0] == [];
    }
    forall k: nat | ComesTo(rules, t.machine, later, k) ensures SafeLine(later, k) {
      ComesToPlain(rules, t.machine, later, k);
      assert ComesTo(rules, m, lines, 1 + t.used + k);
      SafeLater(lines, 1 + t.used, k);
    }
    SafeWhereComeTo(rules, t.machine, later);
  }

  lemma TakenIsPlain<S(!new)>(rules: Rules<S>, m: Machine<S>, lines: seq<Line>)
    requires TakesLines(rules) && lines != [] && lines[0].Other? && CurrentActive(m.stack) && SafeLine(lines, 0)
    ensures AllPlain(lines[1..][..Advance(rules, m, lines[0], lines[1..]).used])
  {
    hide MayTake;
    var text, rest := lines[0].text, lines[1..];
    var n := Plain(rules, m.world, text, rest).taken;
    assert MayTake(n, text, rest) && PlainTaken(rest, n);
  }

  // Rules like these, but for what one line takes.
  function Diverted<S>(rules: Rules<S>, at: PlainText, behind: seq<Line>, n: nat): Rules<S> {
    rules.(run := (s, b, text, rest) =>
                    var o := rules.run(s, b, text, rest);
                    if text == at && rest == behind then o.(taken := n) else o)
  }

  // A line that is come to and is not safe can take a conditional.
  lemma {:induction false} DivertedIsUntidy<S>(rules: Rules<S>, m: Machine<S>, lines: seq<Line>, k: nat, n: nat)
    requires ComesTo(rules, m, lines, k) && k < |lines| && lines[k].Other?
    requires n <= |lines| - k - 1 && !PlainTaken(lines[k + 1..], n)
    ensures !Tidy(Diverted(rules, lines[k].text, lines[k + 1..], n), m, lines)
    decreases |lines|
  {
    var other := Diverted(rules, lines[k].text, lines[k + 1..], n);
    if k > 0 {
      var t := Advance(rules, m, lines[0], lines[1..]);
      assert |lines[1..]| != |lines[k + 1..]|;
      SameAdvance(rules, other, m, lines[0], lines[1..]);
      var later, j := lines[1 + t.used..], k - 1 - t.used;
      assert later[j] == lines[k] && later[j + 1..] == lines[k + 1..];
      DivertedIsUntidy(rules, t.machine, later, j, n);
    }
  }

  lemma SameAdvance<S>(rules: Rules<S>, other: Rules<S>, m: Machine<S>, first: Line, rest: seq<Line>)
    requires other == rules.(run := other.run)
    requires first.Other? ==> Plain(rules, m.world, first.text, rest) == Plain(other, m.world, first.text, rest)
    ensures Advance(rules, m, first, rest) == Advance(other, m, first, rest)
  {
  }

  lemma DivertedTakesLines<S(!new)>(rules: Rules<S>, at: PlainText, behind: seq<Line>, n: nat)
    requires TakesLines(rules) && MayTake(n, at, behind)
    ensures TakesLines(Diverted(rules, at, behind, n))
  {
    hide MayTake;
    var other := Diverted(rules, at, behind, n);
    forall s: S, b: bool, text: PlainText, rest: seq<Line>
      ensures MayTake(other.run(s, b, text, rest).taken, text, rest)
    {
      assert MayTake(rules.run(s, b, text, rest).taken, text, rest);
    }
  }

  // The lines alone decide: no conditional is taken, whatever the macros and conditions are, if
  // and only if every plain line that some macros and conditions come to is closed, or no
  // conditional follows it.
  lemma TidyExactly<S(!new)>(m: Machine<S>, lines: seq<Line>)
    ensures (forall rules: Rules<S> | TakesLines(rules) :: Tidy(rules, m, lines))
       <==> (forall rules: Rules<S>, k: nat | TakesLines(rules) && ComesTo(rules, m, lines, k) ::
               ClosedLine(lines, k) || NoneBehind(lines, k))
  {
    hide TakesLines, Tidy, ComesTo, ClosedLine, SafeLine, NoneBehind;
    if forall rules: Rules<S> | TakesLines(rules) :: Tidy(rules, m, lines) {
      forall rules: Rules<S>, k: nat | TakesLines(rules) && ComesTo(rules, m, lines, k)
        ensures ClosedLine(lines, k) || NoneBehind(lines, k)
      {
        ComesToPlain(rules, m, lines, k);
        SafeIsClosed(lines, k);
        if !SafeLine(lines, k) {
          var n := OpenChoice(lines, k);
          DivertedIsUntidy(rules, m, lines, k, n);
          DivertedTakesLines(rules, lines[k].text, lines[k + 1..], n);
          assert false;
        }
      }
    }
    if forall rules: Rules<S>, k: nat | TakesLines(rules) && ComesTo(rules, m, lines, k) ::
         ClosedLine(lines, k) || NoneBehind(lines, k) {
      forall rules: Rules<S> | TakesLines(rules) ensures Tidy(rules, m, lines) {
        forall k: nat | ComesTo(rules, m, lines, k) ensures SafeLine(lines, k) {
          ComesToPlain(rules, m, lines, k);
          SafeIsClosed(lines, k);
        }
        SafeWhereComeTo(rules, m, lines);
      }
    }
  }

  lemma OpenChoice(lines: seq<Line>, k: nat) returns (n: nat)
    requires k < |lines| && lines[k].Other? && !SafeLine(lines, k)
    ensures MayTake(n, lines[k].text, lines[k + 1..]) && n <= |lines| - k - 1 && !PlainTaken(lines[k + 1..], n)
  {
    hide TakesAt, Whole;
    var text, rest := lines[k].text, lines[k + 1..];
    n :| MayTake(n, text, rest) && !PlainTaken(rest, n);
    if TakesAt(n, text, rest) { TakesNoMore(n, text, rest); }
  }

  lemma TakesNoMore(n: nat, text: PlainText, rest: seq<Line>)
    requires TakesAt(n, text, rest)
    ensures n <= |rest|
  {
    hide Reach, Chain;
  }

  // A caller can tell from the lines: if all plain lines are closed, no conditional is taken.
  lemma ClosedIsTidy<S(!new)>(rules: Rules<S>, m: Machine<S>, lines: seq<Line>)
    requires TakesLines(rules) && AllClosed(lines)
    ensures Tidy(rules, m, lines)
  {
    forall k: nat | ComesTo(rules, m, lines, k) ensures SafeLine(lines, k) {
      ComesToPlain(rules, m, lines, k);
      SafeIsClosed(lines, k);
    }
    SafeWhereComeTo(rules, m, lines);
  }

  // Then a file that is well nested is read as its tree.
  lemma ClosedFileIsTree<S(!new)>(rules: Rules<S>, t: Items, state: S)
    requires TakesLines(rules) && AllClosed(Flatten(t))
    ensures var w := World(state, [], false, false);
            Finish(rules, Run(rules, Machine(w, []), Flatten(t))) == Read(rules, t, [], w, true, 0)
  {
    ClosedIsTidy(rules, Machine(World(state, [], false, false), []), Flatten(t));
    FileIsTree(rules, t, state);
  }
}
