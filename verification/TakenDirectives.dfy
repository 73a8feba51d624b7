// Well-nested files some of whose directives are taken by a macro, so that they are not
// handled (preprocess/expand.go, collectArgs; preprocess/pattern.go, expandPatternAt).
module TakenDirectives {
  import opened Chars
  import opened Tokens
  import opened Conditionals
  import opened MacroArguments
  import opened TakenLines

  const SHARP := Tok(Hash, "#", false)
  const DEFINE := Tok(Identifier, "define", false)
  const CALL := Tok(Identifier, "F", false)
  const PATTERN := Tok(Identifier, "P", false)
  const A := Tok(Identifier, "a", false)
  const X := Tok(Identifier, "x", false)
  const OPEN := Tok(LParen, "(", false)
  const CLOSE := Tok(RParen, ")", false)
  const CAPTURE := Tok(MacroParam, "%0", false)
  const SEMICOLON := Tok(Semicolon, ";", false)
  const ZERO := Tok(IntLiteral, "0", false)
  const ONE := Tok(IntLiteral, "1", false)
  const TWO := Tok(IntLiteral, "2", false)

  // #define F(a) a
  const DEFINE_CALL := [SHARP, DEFINE, CALL, OPEN, A, CLOSE, A]
  // #define P%0; x
  const DEFINE_PATTERN := [SHARP, DEFINE, PATTERN, CAPTURE, SEMICOLON, X]

  // ----- a small preprocessor -----------------------------------------------------------------------

  // Which of the two macros is defined, and the output.
  datatype Small = Small(call: bool, pattern: bool, out: seq<Tok>)
  {
    function Write(toks: seq<Tok>, truncated: bool): Small { if truncated then this else this.(out := out + toks) }
  }

  // The first call of F in a line.
  function CallAt(text: seq<Tok>, k: nat): (i: Option<nat>)
    ensures i.Some? ==> i.value + 2 <= |text| && text[i.value + 1] == OPEN
    decreases |text| - k
  {
    if k + 1 >= |text| then None
    else if text[k] == CALL && text[k + 1] == OPEN then Some(k)
    else CallAt(text, k + 1)
  }

  // What is written for a call of F: the first argument and what follows the call, or F alone
  // if its arguments are not closed.
  function Written(a: Arguments): seq<Tok> {
    if !a.closed then [CALL] else (if a.args == [] then [] else a.args[0]) + a.tail
  }

  // Plain lines, where these are the only macros: semicolons are optional, a P takes all up to
  // the end of its line, and a line behind a joined one is not joined. Of the calls in a line
  // only the first is expanded.
  function RunLine(s: Small, truncated: bool, text: PlainText, rest: seq<Line>): Outcome<Small> {
    var toks := text.toks;
    if toks == DEFINE_CALL then Outcome(s.(call := true), truncated, 0)
    else if toks == DEFINE_PATTERN then Outcome(s.(pattern := true), truncated, 0)
    else if Hashed(text) then Outcome(s, truncated, 0)
    else if s.pattern && toks != [] && toks[0] == PATTERN then
      Outcome(s.Write([X], truncated), truncated, if text.joined && rest != [] then 1 else 0)
    else
      var i := if s.call then CallAt(toks, 0) else None;
      if i.None? then Outcome(s.Write(toks, truncated), truncated, 0)
      else
        var a := Collected(ArgumentsFrom(toks, i.value + 2, 0, rest));
        Outcome(s.Write(toks[..i.value] + Written(a), truncated), truncated, a.taken)
  }

  function Literal(cond: seq<Tok>): Option<int> {
    if cond == [ZERO] then Some(0) else if cond == [ONE] then Some(1) else None
  }

  function SmallRules(maxDepth: nat): Rules<Small> {
    Rules((s, cond) => Literal(cond), (s, b, text, rest) => RunLine(s, b, text, rest), s => false, maxDepth)
  }

  // It takes lines as any macros do.
  lemma SmallTakesLines(maxDepth: nat)
    ensures TakesLines(SmallRules(maxDepth))
  {
    forall s: Small, b: bool, text: PlainText, rest: seq<Line>
      ensures MayTake(SmallRules(maxDepth).run(s, b, text, rest).taken, text, rest)
    {
      SmallTakesAt(s, b, text, rest);
    }
  }

  lemma SmallTakesAt(s: Small, b: bool, text: PlainText, rest: seq<Line>)
    ensures MayTake(RunLine(s, b, text, rest).taken, text, rest)
  {
    hide ArgumentsFrom;
    var n := RunLine(s, b, text, rest).taken;
    var i := CallAt(text.toks, 0);
    if i.Some? && n == Reach(text, i.value + 2, rest) {
      assert OpenAt(text, i.value + 2);
    }
    assert Hashed(text) || TakesAt(n, text, rest);
    if !Hashed(text) { TakesNoMore(n, text, rest); }
  }

  function Start(): Machine<Small> { Machine(World(Small(false, false, []), [], false, false), []) }

  // ----- a line inside #if 0 that is written ----------------------------------------------------------

  // #define F(a) a
  // F(1
  // #if 0
  // 2
  // #endif
  // )
  function Skipped(): seq<Line> {
    [Other(PlainText(DEFINE_CALL, false)), Other(PlainText([CALL, OPEN, ONE], false)), If([ZERO]),
     Other(PlainText([TWO], false)), EndIf, Other(PlainText([CLOSE], false))]
  }

  lemma SkippedIsWritten(maxDepth: nat)
    ensures var rules := SmallRules(maxDepth);
            && Nested(Skipped(), 0) && !Tidy(rules, Start(), Skipped())
            && Handled(rules, Start(), Skipped()) == [] != Directives(Skipped())
            && TWO in Run(rules, Start(), Skipped()).world.state.out
  {
    SkippedNests();
    SkippedTurn(maxDepth);
    hide *;
    var lines, rules := Skipped(), SmallRules(maxDepth);
    var rest := lines[2..];
    DefinesCall(maxDepth, lines);
    assert lines[1..][1..] == rest;
    OneTurn(maxDepth, Defined([]), lines[1..]);
    var t := Advance(rules, Defined([]), lines[1], rest);
    assert lines[1..][1 + t.used..] == [];
    Nothing(maxDepth, t.machine);
    assert rest[..t.used][0] == lines[2];
    TakesDirective(rest[..t.used]);
  }

  lemma SkippedNests()
    ensures |Skipped()| == 6 && Nested(Skipped(), 0) && Directives(Skipped()) != [] && !Skipped()[2].Other?
    ensures Skipped()[0] == Other(PlainText(DEFINE_CALL, false)) && Skipped()[1].Other?
  {
    assert Skipped()[2] in Directives(Skipped()[2..]);
    assert Skipped()[1..][1..] == Skipped()[2..];
  }

  lemma SkippedTurn(maxDepth: nat)
    ensures var t := Advance(SmallRules(maxDepth), Defined([]), Skipped()[1], Skipped()[2..]);
            t.used == 4 && TWO in t.machine.world.state.out
  {
    SkippedArguments();
    hide ArgumentsFrom;
    var text, rest := Skipped()[1].text, Skipped()[2..];
    assert CallAt(text.toks, 0) == Some(0);
    var a := ArgumentsFrom(text.toks, 2, 0, rest);
    var o := RunLine(Small(true, false, []), false, text, rest);
    assert Collected(a) == a;
    assert o.state.out == [] + (text.toks[..0] + (a.args[0] + a.tail));
    assert o.state.out[4] == a.args[0][4];
  }

  // F is defined, and this is written.
  function Defined(out: seq<Tok>): Machine<Small> { Machine(World(Small(true, false, out), [], false, false), []) }

  // The first line defines F.
  lemma DefinesCall(maxDepth: nat, lines: seq<Line>)
    requires lines != [] && lines[0] == Other(PlainText(DEFINE_CALL, false))
    ensures var rules := SmallRules(maxDepth);
            && Run(rules, Start(), lines) == Run(rules, Defined([]), lines[1..])
            && (Tidy(rules, Start(), lines) <==> Tidy(rules, Defined([]), lines[1..]))
            && Handled(rules, Start(), lines) == Handled(rules, Defined([]), lines[1..])
  {
    hide Run, Tidy, Handled;
    OneTurn(maxDepth, Start(), lines);
    assert Advance(SmallRules(maxDepth), Start(), lines[0], lines[1..]) == Turn(Defined([]), 0);
    assert lines[1..][..0] == [];
  }

  // What the first line does to a run.
  lemma OneTurn(maxDepth: nat, m: Machine<Small>, lines: seq<Line>)
    requires lines != []
    ensures var rules := SmallRules(maxDepth);
            var t := Advance(rules, m, lines[0], lines[1..]);
            && Run(rules, m, lines) == Run(rules, t.machine, lines[1 + t.used..])
            && (Tidy(rules, m, lines) <==>
                  AllPlain(lines[1..][..t.used]) && Tidy(rules, t.machine, lines[1 + t.used..]))
            && (lines[0].Other? ==> Handled(rules, m, lines) == Handled(rules, t.machine, lines[1 + t.used..]))
  {
    hide Advance, AllPlain;
  }

  lemma Nothing(maxDepth: nat, m: Machine<Small>)
    ensures Run(SmallRules(maxDepth), m, []) == m && Handled(SmallRules(maxDepth), m, []) == []
  {
  }

  lemma TakesDirective(taken: seq<Line>)
    requires taken != [] && !taken[0].Other?
    ensures !AllPlain(taken)
  {
  }

  // A token that is no bracket and no comma is part of an argument as it stands.
  ghost predicate Simple(t: Tok) { !t.kind.Opens() && !t.kind.Closes() && t.kind != Comma }

  ghost predicate AllSimple(line: seq<Tok>, k: nat) {
    forall j | k <= j < |line| :: Simple(line[j])
  }

  // A line of them is taken whole.
  lemma LineTaken(line: seq<Tok>, k: nat, rest: seq<Line>)
    requires k <= |line| && rest != [] && AllSimple(line, k)
    ensures var a := ArgumentsFrom(MacroArguments.Written(rest[0]), 0, 0, rest[1..]);
            ArgumentsFrom(line, k, 0, rest)
            == Arguments(line[k..] + a.inside, [line[k..] + a.args[0]] + a.args[1..], a.taken + 1, a.tail, a.closed)
  {
    hide ArgumentsFrom, MacroArguments.Written, AllSimple;
    SimpleTaken(line, k, rest);
    assert rest[0..] == rest;
    LineEnds(line, 0, rest, 0);
  }

  lemma {:induction false} SimpleTaken(line: seq<Tok>, k: nat, rest: seq<Line>)
    requires k <= |line| && AllSimple(line, k)
    ensures var a := ArgumentsFrom(line, |line|, 0, rest);
            ArgumentsFrom(line, k, 0, rest)
            == a.(inside := line[k..] + a.inside, args := [line[k..] + a.args[0]] + a.args[1..])
    decreases |line| - k
  {
    hide ArgumentsFrom, Simple;
    var a := ArgumentsFrom(line, |line|, 0, rest);
    if k == |line| {
      NothingInFront(a, line[k..]);
    } else {
      SimpleTaken(line, k + 1, rest);
      SimpleStep(line, k, rest);
      assert line[k..] == [line[k]] + line[k + 1..];
      Reassociate([line[k]], line[k + 1..], a.inside);
      Reassociate([line[k]], line[k + 1..], a.args[0]);
    }
  }

  lemma NothingInFront(a: Arguments, nothing: seq<Tok>)
    requires nothing == [] && a.args != []
    ensures a == a.(inside := nothing + a.inside, args := [nothing + a.args[0]] + a.args[1..])
  {
    assert nothing + a.inside == a.inside && nothing + a.args[0] == a.args[0];
    assert [a.args[0]] + a.args[1..] == a.args;
  }

  lemma SimpleStep(line: seq<Tok>, k: nat, rest: seq<Line>)
    requires k < |line| && Simple(line[k])
    ensures ArgumentsFrom(line, k, 0, rest) == ArgumentsFrom(line, k + 1, 0, rest).Under(line[k], false)
  {
    ArgumentsStep(line, k, 0, rest);
    hide ArgumentsFrom;
  }

  lemma SimpleLines()
    ensures AllSimple(MacroArguments.Written(EndIf), 0) && AllSimple(MacroArguments.Written(If([ZERO])), 0)
    ensures AllSimple([TWO], 0) && AllSimple([CALL, OPEN, ONE], 2) && AllSimple([CALL, OPEN], 2)
  {
  }

  lemma SkippedParts()
    ensures |Skipped()| == 6 && Skipped()[1] == Other(PlainText([CALL, OPEN, ONE], false)) && Skipped()[2] == If([ZERO])
    ensures Skipped()[3] == Other(PlainText([TWO], false)) && Skipped()[4] == EndIf
    ensures Skipped()[5] == Other(PlainText([CLOSE], false))
  {
  }

  lemma Widths()
    ensures |MacroArguments.Written(If([ZERO]))| == 3
    ensures forall toks, joined :: MacroArguments.Written(Other(PlainText(toks, joined))) == toks
  {
  }

  lemma CloseCloses()
    ensures ArgumentsFrom([CLOSE], 0, 0, []) == Arguments([], NONE, 0, [], true)
  {
    ArgumentsStep([CLOSE], 0, 0, []);
  }

  lemma SkippedArguments()
    ensures var a := ArgumentsFrom(Skipped()[1].text.toks, 2, 0, Skipped()[2..]);
            a.taken == 4 && a.closed && a.inside != [] && a.tail == [] && |a.args[0]| > 4 && a.args[0][4] == TWO
  {
    hide *;
    SkippedParts();
    SimpleLines();
    Widths();
    CloseCloses();
    var l2, l3, l4, l5 := Skipped()[2..], Skipped()[3..], Skipped()[4..], Skipped()[5..];
    assert l2[1..] == l3 && l3[1..] == l4 && l4[1..] == l5 && l5[1..] == [];
    var line := MacroArguments.Written(If([ZERO]));
    LineTaken(MacroArguments.Written(EndIf), 0, l5);
    LineTaken([TWO], 0, l4);
    var behind := ArgumentsFrom([TWO], 0, 0, l4);
    assert behind.taken == 2 && behind.args[0][0] == TWO;
    LineTaken(line, 0, l3);
    LineTaken([CALL, OPEN, ONE], 2, l2);
    assert [CALL, OPEN, ONE][2..] == [ONE] && line[0..] == line;
    OneAndThreeBefore(line, behind.args[0]);
  }

  lemma OneAndThreeBefore(line: seq<Tok>, behind: seq<Tok>)
    requires |line| == 3 && |behind| > 0
    ensures |[ONE] + (line + behind)| > 4 && ([ONE] + (line + behind))[4] == behind[0]
  {
    hide ONE;
  }

  // ----- an #endif that is reported missing -------------------------------------------------------------

  // #define F(a) a
  // #if 1
  // F(
  // #endif
  function Unended(): seq<Line> {
    [Other(PlainText(DEFINE_CALL, false)), If([ONE]), Other(PlainText([CALL, OPEN], false)), EndIf]
  }

  lemma EndIfIsTaken(maxDepth: nat)
    requires maxDepth > 0
    ensures var rules := SmallRules(maxDepth);
            && Nested(Unended(), 0) && !Tidy(rules, Start(), Unended())
            && Finish(rules, Run(rules, Start(), Unended())).problems == [Unterminated]
  {
    hide *;
    UnendedNests();
    UnendedTurns(maxDepth);
    InsideIsOpen();
    var lines, rules := Unended(), SmallRules(maxDepth);
    DefinesCall(maxDepth, lines);
    OneTurn(maxDepth, Defined([]), lines[1..]);
    assert lines[1..][1..] == lines[2..] && lines[2..][1..] == lines[3..] == [lines[3]];
    var m := InsideOne([]);
    OneTurn(maxDepth, m, lines[2..]);
    var t := Advance(rules, m, lines[2], lines[3..]);
    assert lines[3..][..t.used][0] == lines[3];
    TakesDirective(lines[3..][..t.used]);
    assert lines[2..][1 + t.used..] == [];
    Nothing(maxDepth, t.machine);
    NeverEnds(maxDepth, t.machine);
  }

  lemma InsideIsOpen()
    ensures InsideOne([CALL]).stack != [] && InsideOne([CALL]).world.Report(Unterminated).problems == [Unterminated]
  {
  }

  // Inside the #if.
  function InsideOne(out: seq<Tok>): Machine<Small> {
    Defined(out).(stack := [CondFrame(true, true, true, false)])
  }

  lemma UnendedNests()
    ensures |Unended()| == 4 && Nested(Unended(), 0)
    ensures Unended()[0] == Other(PlainText(DEFINE_CALL, false)) && Unended()[2].Other? && Unended()[3] == EndIf
  {
  }

  lemma UnendedTurns(maxDepth: nat)
    requires maxDepth > 0
    ensures var rules, lines := SmallRules(maxDepth), Unended();
            && Advance(rules, Defined([]), lines[1], lines[2..]) == Turn(InsideOne([]), 0)
            && Advance(rules, InsideOne([]), lines[2], lines[3..]) == Turn(InsideOne([CALL]), 1)
  {
    UnendedArguments();
    hide ArgumentsFrom;
    var text := Unended()[2].text;
    assert CallAt(text.toks, 0) == Some(0);
    assert Unended()[3..] == [EndIf];
    assert [] + (text.toks[..0] + [CALL]) == [CALL];
  }

  lemma UnendedArguments()
    ensures var a := ArgumentsFrom([CALL, OPEN], 2, 0, [EndIf]); a.taken == 1 && !a.closed
  {
    SimpleLines();
    var line := MacroArguments.Written(EndIf);
    assert ArgumentsFrom(line, |line|, 0, []) == Arguments([], NONE, 0, [], false);
    hide *;
    assert [EndIf][1..] == [];
    LineTaken([CALL, OPEN], 2, [EndIf]);
    SimpleTaken(line, 0, []);
  }

  lemma NeverEnds(maxDepth: nat, m: Machine<Small>)
    ensures Finish(SmallRules(maxDepth), m) == if m.stack != [] then m.world.Report(Unterminated) else m.world
  {
  }

  // ----- a pattern that runs over the end of its line ---------------------------------------------------

  // #define P%0; x
  // P a // c \
  // #if 0
  // 2
  // #endif
  // The comment ends with its line, but the text that P is matched against goes on behind the
  // backslash, and is taken to its end.
  function Continued(): seq<Line> {
    [Other(PlainText(DEFINE_PATTERN, false)), Other(PlainText([PATTERN, A], true)), If([ZERO]),
     Other(PlainText([TWO], false)), EndIf]
  }

  // Without any parenthesis the #if is taken, the line behind it is written, and the #endif is
  // reported unmatched.
  lemma IfIsTaken(maxDepth: nat)
    ensures var rules := SmallRules(maxDepth);
            var r := Run(rules, Start(), Continued());
            && Nested(Continued(), 0) && ArgumentsClosed(Continued()) && !ChainsClosed(Continued())
            && !Tidy(rules, Start(), Continued())
            && TWO in r.world.state.out && Finish(rules, r).problems == [UnmatchedEndIf]
  {
    ContinuedNests();
    ContinuedTurns(maxDepth);
    hide Run, Tidy, Handled, Advance, Nested, AllPlain, SmallRules, Continued, ArgumentsClosed, ChainsClosed;
    var lines, rules := Continued(), SmallRules(maxDepth);
    OneTurn(maxDepth, Start(), lines);
    assert lines[1..][1..] == lines[2..] && lines[2..][1..] == lines[3..] && lines[3..][1..] == lines[4..];
    OneTurn(maxDepth, Pattern([]), lines[1..]);
    assert lines[2..][..1][0] == lines[2];
    TakesDirective(lines[2..][..1]);
    assert lines[1..][1 + 1..] == lines[3..];
    OneTurn(maxDepth, Pattern([X]), lines[3..]);
    assert lines[4..][1..] == [];
    OneTurn(maxDepth, Pattern([X, TWO]), lines[4..]);
    var last := Pattern([X, TWO]).(world := Pattern([X, TWO]).world.Report(UnmatchedEndIf));
    Nothing(maxDepth, last);
    NeverEnds(maxDepth, last);
  }

  // P is defined, and this is written.
  function Pattern(out: seq<Tok>): Machine<Small> { Machine(World(Small(false, true, out), [], false, false), []) }

  lemma ContinuedNests()
    ensures |Continued()| == 5 && Nested(Continued(), 0) && !Continued()[2].Other?
    ensures ArgumentsClosed(Continued()) && !ChainsClosed(Continued())
  {
    hide ArgumentsClosed, Chain;
    assert TextAt(Continued(), 1) && Continued()[2 - 1].text.joined && !TextAt(Continued(), 2);
    NoParentheses();
    ClosedWithoutParentheses(Continued());
  }

  ghost predicate NoneOpens(toks: seq<Tok>) {
    forall k | 0 <= k < |toks| :: toks[k].kind != LParen
  }

  lemma NoParentheses()
    ensures NoneOpens(DEFINE_PATTERN) && NoneOpens([PATTERN, A]) && NoneOpens([TWO])
  {
  }

  lemma ClosedWithoutParentheses(lines: seq<Line>)
    requires forall k | 0 <= k < |lines| && lines[k].Other? :: NoneOpens(lines[k].text.toks)
    ensures ArgumentsClosed(lines)
  {
    hide ArgumentsClosedAt;
    assert forall k, p | 0 <= k < |lines| && TextAt(lines, k) :: !OpenAt(lines[k].text, p);
  }

  lemma ContinuedTurns(maxDepth: nat)
    ensures var rules, lines := SmallRules(maxDepth), Continued();
            && Advance(rules, Start(), lines[0], lines[1..]) == Turn(Pattern([]), 0)
            && Advance(rules, Pattern([]), lines[1], lines[2..]) == Turn(Pattern([X]), 1)
            && Advance(rules, Pattern([X]), lines[3], lines[4..]) == Turn(Pattern([X, TWO]), 0)
            && Advance(rules, Pattern([X, TWO]), lines[4], [])
               == Turn(Pattern([X, TWO]).(world := Pattern([X, TWO]).world.Report(UnmatchedEndIf)), 0)
  {
    assert [] + [X] == [X] && [X] + [TWO] == [X, TWO];
  }
}
