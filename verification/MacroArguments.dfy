// Lines that a macro use takes from the file (preprocess/expand.go, preprocess/pattern.go):
// arguments run on over line ends, and over directive lines, up to their closing parenthesis;
// a pattern runs on over lines whose text ends in a backslash.
module MacroArguments {
  import opened Chars
  import opened Tokens
  import opened Conditionals

  function Named(kind: Kind, text: string): Tok { Tok(kind, text, false) }

  // The tokens of a line.
  function Written(line: Line): seq<Tok> {
    match line
    case If(cond) => [Named(Hash, "#"), Named(KwIf, "if")] + cond
    case ElseIf(cond) => [Named(Hash, "#"), Named(Identifier, "elseif")] + cond
    case Else => [Named(Hash, "#"), Named(KwElse, "else")]
    case EndIf => [Named(Hash, "#"), Named(Identifier, "endif")]
    case Other(text) => text.toks
  }

  function AllWritten(lines: seq<Line>): seq<Tok> {
    if lines == [] then [] else Written(lines[0]) + AllWritten(lines[1..])
  }

  // The tokens of the arguments, cut at the commas outside all brackets, the lines taken for
  // them, and what is left behind the closing parenthesis on its line.
  datatype Arguments = Arguments(inside: seq<Tok>, args: seq<seq<Tok>>, taken: nat, tail: seq<Tok>, closed: bool)
  {
    // With a token more in front, a comma between arguments or part of the first one.
    function Under(t: Tok, comma: bool): Arguments {
      Arguments([t] + inside, if comma || args == [] then [[]] + args else [[t] + args[0]] + args[1..], taken, tail,
                closed)
    }
  }

  const NONE: seq<seq<Tok>> := [[]]

  function Deeper(k: Kind, depth: int): int {
    if k.Opens() then depth + 1 else if k.Closes() then depth - 1 else depth
  }

  predicate Parts(k: Kind, depth: int) { k == Comma && depth == 0 }

  // Arguments from the k-th token of a line on. Only a parenthesis outside all brackets
  // closes them, and nothing else ends them.
  function ArgumentsFrom(line: seq<Tok>, k: nat, depth: int, rest: seq<Line>): (a: Arguments)
    requires k <= |line|
    ensures a.taken <= |rest| && a.args != []
    decreases |rest|, |line| - k
  {
    if k == |line| then
      if rest == [] then Arguments([], NONE, 0, [], false)
      else
        var a := ArgumentsFrom(Written(rest[0]), 0, depth, rest[1..]);
        a.(taken := a.taken + 1)
    else
      var t := line[k];
      if t.kind.RParen? && depth == 0 then Arguments([], NONE, 0, line[k + 1..], true)
      else ArgumentsFrom(line, k + 1, Deeper(t.kind, depth), rest).Under(t, Parts(t.kind, depth))
  }

  // An empty pair of parentheses holds no argument.
  function Collected(a: Arguments): Arguments {
    if a.closed && a.inside == [] then a.(args := []) else a
  }

  method CollectArgs(line: seq<Tok>, start: nat, rest: seq<Line>) returns (a: Arguments)
    requires start <= |line|
    ensures a == Collected(ArgumentsFrom(line, start, 0, rest))
  {
    hide Kind.Opens, Kind.Closes, Written, ArgumentsFrom, Deeper, Parts, Joins;
    var text, k: nat, depth, taken: nat, inside := line, start, 0, 0, [];
    var args, current := [], [];
    ghost var all := ArgumentsFrom(line, start, 0, rest);
    JoinsAll(all);
    while k < |text| || taken < |rest|
      invariant k <= |text| && taken <= |rest|
      invariant Joins(all, inside, args, current, taken, ArgumentsFrom(text, k, depth, rest[taken..]))
      decreases |rest| - taken, |text| - k
    {
      if k == |text| {
        LineEnds(text, depth, rest, taken);
        JoinsLine(all, inside, args, current, taken, ArgumentsFrom(Written(rest[taken]), 0, depth, rest[taken + 1..]));
        text, k, taken := Written(rest[taken]), 0, taken + 1;
      } else {
        ArgumentsStep(text, k, depth, rest[taken..]);
        var t := text[k];
        if t.kind == RParen && depth == 0 {
          JoinsLast(all, inside, args, current, taken, 0, text[k + 1..], true);
          return Arguments(inside, if inside == [] then [] else args + [current], taken, text[k + 1..], true);
        }
        ghost var more := ArgumentsFrom(text, k + 1, Deeper(t.kind, depth), rest[taken..]);
        JoinsMore(all, inside, args, current, taken, more, t, Parts(t.kind, depth));
        if Parts(t.kind, depth) {
          args, current := args + [current], [];
        } else {
          current := current + [t];
        }
        inside, k, depth := inside + [t], k + 1, Deeper(t.kind, depth);
      }
    }
    NothingLeft(text, depth, rest[taken..]);
    JoinsLast(all, inside, args, current, taken, 0, [], false);
    a := Arguments(inside, args + [current], taken, [], false);
  }

  // What is collected so far, an argument begun, and what is still to come.
  ghost predicate Joins(all: Arguments, inside: seq<Tok>, args: seq<seq<Tok>>, current: seq<Tok>, taken: nat,
                        more: Arguments)
  {
    && more.args != []
    && all == Arguments(inside + more.inside, args + [current + more.args[0]] + more.args[1..], taken + more.taken,
                        more.tail, more.closed)
  }

  lemma JoinsAll(all: Arguments)
    requires all.args != []
    ensures Joins(all, [], [], [], 0, all)
  {
    assert [] + all.args[0] == all.args[0];
    assert [] + [all.args[0]] + all.args[1..] == all.args;
  }

  lemma JoinsLine(all: Arguments, inside: seq<Tok>, args: seq<seq<Tok>>, current: seq<Tok>, taken: nat,
                  more: Arguments)
    requires Joins(all, inside, args, current, taken, more.(taken := more.taken + 1))
    ensures Joins(all, inside, args, current, taken + 1, more)
  {
  }

  lemma JoinsLast(all: Arguments, inside: seq<Tok>, args: seq<seq<Tok>>, current: seq<Tok>, taken: nat, more: nat,
                  tail: seq<Tok>, closed: bool)
    requires Joins(all, inside, args, current, taken, Arguments([], NONE, more, tail, closed))
    ensures all == Arguments(inside, args + [current], taken + more, tail, closed)
  {
    assert current + [] == current;
  }

  lemma JoinsMore(all: Arguments, inside: seq<Tok>, args: seq<seq<Tok>>, current: seq<Tok>, taken: nat,
                  more: Arguments, t: Tok, comma: bool)
    requires more.args != [] && Joins(all, inside, args, current, taken, more.Under(t, comma))
    ensures if comma then Joins(all, inside + [t], args + [current], [], taken, more)
            else Joins(all, inside + [t], args, current + [t], taken, more)
  {
    Reassociate(inside, [t], more.inside);
    if comma {
      var under := more.Under(t, comma).args;
      assert under == [[]] + more.args && under[1..] == more.args;
      assert current + [] == current && [] + more.args[0] == more.args[0];
      assert more.args == [more.args[0]] + more.args[1..];
      Reassociate(args + [current], [more.args[0]], more.args[1..]);
    } else {
      Reassociate(current, [t], more.args[0]);
    }
  }

  lemma LineEnds(text: seq<Tok>, depth: int, rest: seq<Line>, taken: nat)
    requires taken < |rest|
    ensures var b := ArgumentsFrom(Written(rest[taken]), 0, depth, rest[taken + 1..]);
            ArgumentsFrom(text, |text|, depth, rest[taken..]) == b.(taken := b.taken + 1)
  {
    hide Written;
    assert rest[taken..][1..] == rest[taken + 1..];
  }

  lemma NothingLeft(text: seq<Tok>, depth: int, rest: seq<Line>)
    requires rest == []
    ensures ArgumentsFrom(text, |text|, depth, rest) == Arguments([], NONE, 0, [], false)
  {
  }

  lemma ArgumentsStep(line: seq<Tok>, k: nat, depth: int, rest: seq<Line>)
    requires k < |line|
    ensures var t := line[k];
            ArgumentsFrom(line, k, depth, rest) ==
            if t.kind.RParen? && depth == 0 then Arguments([], NONE, 0, line[k + 1..], true)
            else ArgumentsFrom(line, k + 1, Deeper(t.kind, depth), rest).Under(t, Parts(t.kind, depth))
  {
  }

  // The tokens read are the arguments, a parenthesis and the tail; or arguments all along.
  ghost predicate Divides(a: Arguments, read: seq<Tok>) {
    && Separated(a.inside, a.args)
    && if a.closed then exists close: Tok :: close.kind == RParen && read == a.inside + [close] + a.tail
       else read == a.inside && a.tail == []
  }

  // s is the arguments with one comma between each and the next.
  ghost predicate Separated(s: seq<Tok>, args: seq<seq<Tok>>)
    decreases |args|
  {
    && args != []
    && if |args| == 1 then s == args[0]
       else
         && |args[0]| < |s| && s[..|args[0]|] == args[0] && s[|args[0]|].kind == Comma
         && Separated(s[|args[0]| + 1..], args[1..])
  }

  lemma SeparatedUnder(t: Tok, s: seq<Tok>, args: seq<seq<Tok>>, comma: bool)
    requires Separated(s, args) && (comma ==> t.kind == Comma)
    ensures Separated([t] + s, if comma then [[]] + args else [[t] + args[0]] + args[1..])
  {
    var all := [t] + s;
    if comma {
      assert all[1..] == s && ([[]] + args)[1..] == args && all[..0] == [];
    } else {
      var more := [[t] + args[0]] + args[1..];
      assert more[1..] == args[1..];
      if |args| > 1 {
        assert all[..|args[0]| + 1] == [t] + s[..|args[0]|] && all[|args[0]| + 1] == s[|args[0]|];
        assert all[|args[0]| + 2..] == s[|args[0]| + 1..];
      }
    }
  }

  lemma DividesUnder(t: Tok, a: Arguments, read: seq<Tok>, comma: bool)
    requires Divides(a, read) && (comma ==> t.kind == Comma)
    ensures Divides(a.Under(t, comma), [t] + read)
  {
    hide Separated;
    SeparatedUnder(t, a.inside, a.args, comma);
    assert a.Under(t, comma).inside == [t] + a.inside;
    SeparatedSome(a.inside, a.args);
    if a.closed {
      var close: Tok :| close.kind == RParen && read == a.inside + [close] + a.tail;
      assert [t] + read == a.Under(t, comma).inside + [close] + a.tail;
    }
  }

  lemma SeparatedSome(s: seq<Tok>, args: seq<seq<Tok>>)
    requires Separated(s, args)
    ensures args != []
  {
  }

  lemma DividesHere(close: Tok, tail: seq<Tok>, taken: nat)
    requires close.kind == RParen
    ensures Divides(Arguments([], NONE, taken, tail, true), [close] + tail)
  {
    assert [close] + tail == [] + [close] + tail;
  }

  // Nothing is lost: the arguments with their commas, the parenthesis and the tail are the rest of the line and
  // the lines taken. Unclosed arguments take all the lines there are.
  lemma {:induction false} ArgumentsConserve(line: seq<Tok>, k: nat, depth: int, rest: seq<Line>)
    requires k <= |line|
    ensures var a := ArgumentsFrom(line, k, depth, rest);
            Divides(a, line[k..] + AllWritten(rest[..a.taken])) && (!a.closed ==> a.taken == |rest|)
    decreases |rest|, |line| - k
  {
    hide Kind.Opens, Kind.Closes, Written, ArgumentsFrom, Divides, AllWritten, Deeper;
    if k == |line| {
      LineConserves(line, depth, rest);
      if rest != [] {
        ArgumentsConserve(Written(rest[0]), 0, depth, rest[1..]);
      }
      return;
    }
    ArgumentsStep(line, k, depth, rest);
    var t := line[k];
    if t.kind.RParen? && depth == 0 {
      DividesHere(t, line[k + 1..], 0);
      NoneWritten(rest);
      assert line[k..] + [] == [t] + line[k + 1..];
    } else {
      var a := ArgumentsFrom(line, k + 1, Deeper(t.kind, depth), rest);
      ArgumentsConserve(line, k + 1, Deeper(t.kind, depth), rest);
      var later := line[k + 1..] + AllWritten(rest[..a.taken]);
      DividesUnder(t, a, later, Parts(t.kind, depth));
      assert line[k..] + AllWritten(rest[..a.taken]) == [t] + later;
    }
  }

  lemma NoneWritten(rest: seq<Line>)
    ensures AllWritten(rest[..0]) == []
  {
  }

  // At the end of a line its successor is as good.
  lemma LineConserves(line: seq<Tok>, depth: int, rest: seq<Line>)
    ensures var a := ArgumentsFrom(line, |line|, depth, rest);
            if rest == [] then a == Arguments([], NONE, 0, [], false)
                && Divides(a, line[|line|..] + AllWritten(rest[..a.taken]))
            else
              var b := ArgumentsFrom(Written(rest[0]), 0, depth, rest[1..]);
              && a == b.(taken := b.taken + 1)
              && line[|line|..] + AllWritten(rest[..a.taken])
                  == Written(rest[0])[0..] + AllWritten(rest[1..][..b.taken])
              && (Divides(b, Written(rest[0])[0..] + AllWritten(rest[1..][..b.taken])) ==>
                    Divides(a, Written(rest[0])[0..] + AllWritten(rest[1..][..b.taken])))
  {
    hide Kind.Opens, Kind.Closes, Written;
    if rest != [] {
      var b := ArgumentsFrom(Written(rest[0]), 0, depth, rest[1..]);
      assert rest[..b.taken + 1][1..] == rest[1..][..b.taken];
    }
  }

  // ----- where arguments are cut and end ----------------------------------------------------------------

  function Change(k: Kind): int {
    match k
    case LParen | LBracket | LBrace => 1
    case RParen | RBracket | RBrace => -1
    case _ => 0
  }

  // Brackets opened less brackets closed.
  function Level(s: seq<Tok>): int {
    if s == [] then 0 else Change(s[0].kind) + Level(s[1..])
  }

  // Begun at this depth, no comma and no closing parenthesis stands outside all brackets.
  ghost predicate NoneOnTop(s: seq<Tok>, depth: int) {
    s != [] ==> (depth == 0 ==> s[0].kind != Comma && s[0].kind != RParen)
                && NoneOnTop(s[1..], depth + Change(s[0].kind))
  }

  // The first argument begins at this depth, the others outside all brackets; each that is followed
  // by a comma or the parenthesis ends there, too.
  ghost predicate CutRight(args: seq<seq<Tok>>, depth: int, closed: bool)
    decreases |args|
  {
    && args != [] && NoneOnTop(args[0], depth)
    && (|args| > 1 || closed ==> depth + Level(args[0]) == 0)
    && (|args| > 1 ==> CutRight(args[1..], 0, closed))
  }

  lemma LevelFront(t: Tok, s: seq<Tok>, depth: int)
    ensures Level([t] + s) == Change(t.kind) + Level(s)
    ensures NoneOnTop([t] + s, depth) <==>
            (depth == 0 ==> t.kind != Comma && t.kind != RParen) && NoneOnTop(s, depth + Change(t.kind))
  {
    assert ([t] + s)[1..] == s;
  }

  lemma CutUnder(t: Tok, a: Arguments, depth: int)
    requires CutRight(a.args, depth + Change(t.kind), a.closed) && (depth == 0 ==> t.kind != RParen)
    ensures CutRight(a.Under(t, t.kind == Comma && depth == 0).args, depth, a.closed)
  {
    var first, rest := a.args[0], a.args[1..];
    LevelFront(t, first, depth);
    if t.kind == Comma && depth == 0 {
      assert ([[]] + a.args)[1..] == a.args;
    } else {
      assert ([[t] + first] + rest)[1..] == rest;
    }
  }

  lemma DeeperIs(k: Kind, depth: int)
    ensures Deeper(k, depth) == depth + Change(k)
  {
  }

  // Arguments are cut at each comma outside all brackets and at no other, and end at the first
  // closing parenthesis there.
  lemma {:induction false} ArgumentsCutRight(line: seq<Tok>, k: nat, depth: int, rest: seq<Line>)
    requires k <= |line|
    ensures var a := ArgumentsFrom(line, k, depth, rest); CutRight(a.args, depth, a.closed)
    decreases |rest|, |line| - k
  {
    hide Written, ArgumentsFrom, CutRight, Deeper, Change;
    var a := ArgumentsFrom(line, k, depth, rest);
    if k == |line| {
      if rest == [] {
        NothingLeft(line, depth, rest);
        NoneIsCut(depth, false);
      } else {
        assert rest[0..] == rest;
        LineEnds(line, depth, rest, 0);
        ArgumentsCutRight(Written(rest[0]), 0, depth, rest[1..]);
      }
      return;
    }
    ArgumentsStep(line, k, depth, rest);
    if line[k].kind.RParen? && depth == 0 {
      NoneIsCut(depth, true);
    } else {
      DeeperIs(line[k].kind, depth);
      ArgumentsCutRight(line, k + 1, Deeper(line[k].kind, depth), rest);
      CutUnder(line[k], ArgumentsFrom(line, k + 1, Deeper(line[k].kind, depth), rest), depth);
    }
  }

  lemma NoneIsCut(depth: int, closed: bool)
    requires closed ==> depth == 0
    ensures CutRight(NONE, depth, closed)
  {
  }
}
