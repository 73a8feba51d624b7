// What collecting and substituting macro arguments amounts to (preprocess/expand.go,
// collectArgsSlice and substituteParams): arguments are the stretches between the commas
// outside all brackets, and a macro that hands its arguments on hands on the same ones.
module ArgumentLists {
  import opened Chars
  import opened Tokens
  import opened PatternInput
  import opened Expansion

  function Delta(k: Kind): int { if k.Opens() then 1 else if k.Closes() then -1 else 0 }

  // The bracket depth in front of the n-th token.
  function Level(s: seq<Ptok>, n: nat): int
    requires n <= |s|
  {
    if n == 0 then 0 else Level(s, n - 1) + Delta(s[n - 1].kind)
  }

  // No token outside all brackets separates arguments or ends them.
  ghost predicate NoneOnTop(a: seq<Ptok>) {
    forall k | 0 <= k < |a| && Level(a, k) == 0 :: a[k].kind != Comma && a[k].kind != RParen
  }

  // One argument: as many brackets are closed as opened, and no comma is outside them.
  ghost predicate Whole(a: seq<Ptok>) { NoneOnTop(a) && Level(a, |a|) == 0 }

  ghost predicate AllWhole(args: seq<seq<Ptok>>) {
    forall k | 0 <= k < |args| :: Whole(args[k])
  }

  // s is the arguments with one comma between each and the next.
  ghost predicate Separated(s: seq<Ptok>, args: seq<seq<Ptok>>)
    decreases |args|
  {
    && args != []
    && if |args| == 1 then s == args[0]
       else
         && |args[0]| < |s| && s[..|args[0]|] == args[0] && s[|args[0]|].kind == Comma
         && Separated(s[|args[0]| + 1..], args[1..])
  }

  lemma {:induction false} LevelOfPrefix(a: seq<Ptok>, b: seq<Ptok>, n: nat)
    requires n <= |a| <= |b| && b[..|a|] == a
    ensures Level(a, n) == Level(b, n)
  {
    if n > 0 {
      LevelOfPrefix(a, b, n - 1);
      assert a[n - 1] == b[..|a|][n - 1];
    }
  }

  lemma OneMore(current: seq<Ptok>, t: Ptok)
    requires NoneOnTop(current)
    requires Level(current, |current|) == 0 ==> t.kind != Comma && t.kind != RParen
    ensures NoneOnTop(current + [t])
    ensures Level(current + [t], |current| + 1) == Level(current, |current|) + Delta(t.kind)
  {
    var more := current + [t];
    assert more[..|current|] == current;
    LevelOfPrefix(current, more, |current|);
    forall k | 0 <= k < |more| && Level(more, k) == 0 ensures more[k].kind != Comma && more[k].kind != RParen {
      if k < |current| { LevelOfPrefix(current, more, k); }
    }
  }

  lemma FirstSeparated(s: seq<Ptok>, first: seq<Ptok>, comma: Ptok, rest: seq<Ptok>, args: seq<seq<Ptok>>)
    requires s == first + [comma] + rest && comma.kind == Comma && Separated(rest, args)
    ensures Separated(s, [first] + args)
  {
    assert s[..|first|] == first && s[|first| + 1..] == rest && s[|first|] == comma;
    assert ([first] + args)[1..] == args;
  }

  // What is collected from the i-th token on, with an argument begun, is what stands there.
  lemma {:induction false} CollectedSound(toks: seq<Ptok>, i: nat, depth: int, args: seq<seq<Ptok>>, current: seq<Ptok>)
    returns (rest: seq<seq<Ptok>>)
    requires i <= |toks| && NoneOnTop(current) && Level(current, |current|) == depth
    ensures var r := ArgsFrom(toks, i, depth, args, current);
            r.Some? ==>
              && i < |toks| && r.value.args == args + rest && AllWhole(rest) && i < r.value.next <= |toks|
              && toks[r.value.next - 1].kind == RParen && Separated(current + toks[i..r.value.next - 1], rest)
    decreases |toks| - i
  {
    hide NoneOnTop, Level, Kind.Opens, Kind.Closes, ArgsFrom, Separated, Whole, AllWhole;
    rest := [];
    var r := ArgsFrom(toks, i, depth, args, current);
    if r.None? { return; }
    CollectStep(toks, i, depth, args, current);
    var t, last := toks[i], r.value.next - 1;
    if depth == 0 && t.kind == RParen {
      rest := [current];
      OneArgument(current);
      assert current + toks[i..i] == current;
    } else if depth == 0 && t.kind == Comma {
      NothingOnTop();
      var later := CollectedSound(toks, i + 1, 0, args + [current], []);
      rest := [current] + later;
      FirstWhole(current, later);
      TokenMoves([], current, toks, i, last);
      FirstSeparated(current + toks[i..last], current, t, toks[i + 1..last], later);
      Reassociate(args, [current], later);
    } else {
      OneMore(current, t);
      rest := CollectedSound(toks, i + 1, depth + Delta(t.kind), args, current + [t]);
      TokenMoves([], current, toks, i, last);
    }
  }

  lemma TokenMoves(nothing: seq<Ptok>, current: seq<Ptok>, toks: seq<Ptok>, i: nat, last: nat)
    requires i < last <= |toks| && nothing == []
    ensures current + [toks[i]] + toks[i + 1..last] == current + toks[i..last]
    ensures nothing + toks[i + 1..last] == toks[i + 1..last]
  {
  }

  lemma OneArgument(a: seq<Ptok>)
    requires NoneOnTop(a) && Level(a, |a|) == 0
    ensures AllWhole([a]) && Separated(a, [a])
  {
  }

  lemma FirstWhole(first: seq<Ptok>, rest: seq<seq<Ptok>>)
    requires NoneOnTop(first) && Level(first, |first|) == 0 && AllWhole(rest)
    ensures AllWhole([first] + rest)
  {
    hide Whole;
    assert Whole(first) by { OneArgument(first); assert AllWhole([first]) && [first][0] == first; }
  }

  lemma NothingOnTop()
    ensures NoneOnTop([]) && Level([], 0) == 0
  {
  }

  lemma CollectStep(toks: seq<Ptok>, i: nat, depth: int, args: seq<seq<Ptok>>, current: seq<Ptok>)
    requires i < |toks|
    ensures var r := ArgsFrom(toks, i, depth, args, current); r.Some? ==> i < r.value.next <= |toks|
    ensures var t := toks[i];
            ArgsFrom(toks, i, depth, args, current) ==
            if depth == 0 && t.kind == RParen then Some(Args(args + [current], i + 1))
            else if depth == 0 && t.kind == Comma then ArgsFrom(toks, i + 1, 0, args + [current], [])
            else ArgsFrom(toks, i + 1, depth + Delta(t.kind), args, current + [t])
  {
  }

  // And what stands there is collected.
  lemma {:induction false} CollectedComplete(toks: seq<Ptok>, i: nat, depth: int, args: seq<seq<Ptok>>,
                                             current: seq<Ptok>, rest: seq<seq<Ptok>>, last: nat)
    requires i <= last < |toks| && toks[last].kind == RParen && rest != [] && AllWhole(rest)
    requires Separated(current + toks[i..last], rest) && |current| <= |rest[0]|
    requires Level(current, |current|) == depth
    ensures ArgsFrom(toks, i, depth, args, current) == Some(Args(args + rest, last + 1))
    decreases last - i
  {
    hide NoneOnTop, Level, Kind.Opens, Kind.Closes, ArgsFrom;
    var s, first := current + toks[i..last], rest[0];
    assert s[..|first|] == first;
    assert first[..|current|] == current;
    LevelOfPrefix(current, first, |current|);
    CollectStep(toks, i, depth, args, current);
    if |current| < |first| {
      var t := toks[i];
      assert t == first[|current|];
      OnTop(first, |current|);
      LevelMore(current, t);
      assert current + [t] + toks[i + 1..last] == s;
      CollectedComplete(toks, i + 1, depth + Delta(t.kind), args, current + [t], rest, last);
    } else if |rest| > 1 {
      assert toks[i] == s[|first|];
      NothingOnTop();
      assert [] + toks[i + 1..last] == s[|first| + 1..];
      CollectedComplete(toks, i + 1, 0, args + [current], [], rest[1..], last);
      assert args + [current] + rest[1..] == args + rest;
    } else {
      assert args + [current] == args + rest;
    }
  }

  lemma OnTop(a: seq<Ptok>, k: nat)
    requires Whole(a) && k < |a|
    ensures Level(a, k) == 0 ==> a[k].kind != Comma && a[k].kind != RParen
  {
  }

  lemma LevelMore(current: seq<Ptok>, t: Ptok)
    ensures Level(current + [t], |current| + 1) == Level(current, |current|) + Delta(t.kind)
  {
    assert (current + [t])[..|current|] == current;
    LevelOfPrefix(current, current + [t], |current|);
  }

  // Collecting finds these arguments and this end if and only if they, with the commas
  // between them, are what stands in front of a parenthesis there. `()` holds no argument.
  lemma CollectsExactly(toks: seq<Ptok>, start: nat, args: seq<seq<Ptok>>, next: nat)
    ensures CollectArgs(toks, start) == Some(Args(args, next)) <==>
            && start < next <= |toks| && toks[next - 1].kind == RParen
            && if next == start + 1 then args == [] else AllWhole(args) && Separated(toks[start..next - 1], args)
  {
    hide ArgsFrom, Whole, Separated, NoneOnTop, Level;
    NothingOnTop();
    var empty := start < |toks| && toks[start].kind == RParen;
    if CollectArgs(toks, start) == Some(Args(args, next)) && !empty {
      var rest := CollectedSound(toks, start, 0, [], []);
      assert [] + rest == rest && [] + toks[start..next - 1] == toks[start..next - 1];
    }
    if start + 1 < next <= |toks| && toks[next - 1].kind == RParen && AllWhole(args)
       && Separated(toks[start..next - 1], args) {
      CompleteFromStart(toks, start, args, next);
    }
  }

  lemma CompleteFromStart(toks: seq<Ptok>, start: nat, args: seq<seq<Ptok>>, next: nat)
    requires start + 1 < next <= |toks| && toks[next - 1].kind == RParen && AllWhole(args)
    requires Separated(toks[start..next - 1], args)
    ensures CollectArgs(toks, start) == Some(Args(args, next))
  {
    hide ArgsFrom, NoneOnTop, Level;
    NothingOnTop();
    var s := toks[start..next - 1];
    assert [] + s == s && [] + args == args;
    CollectedComplete(toks, start, 0, [], [], args, next - 1);
    assert s[0] == toks[start];
    if args[0] != [] {
      OnTop(args[0], 0);
      LevelAtFront(args[0]);
      assert s[..|args[0]|][0] == s[0];
    }
  }

  lemma LevelAtFront(a: seq<Ptok>)
    ensures Level(a, 0) == 0
  {
  }

  // ----- handing arguments on ------------------------------------------------------------------

  // The body names the first n parameters in order, with commas between them.
  ghost predicate Echoes(m: Macro, body: seq<Ptok>, n: nat) {
    && n > 0 && |body| == 2 * n - 1
    && (forall k | 0 <= k < n :: NamesSlot(m, body[2 * k], k))
    && (forall k | 0 <= k < n - 1 :: body[2 * k + 1].kind == Comma)
  }

  ghost predicate NamesSlot(m: Macro, t: Ptok, slot: nat) {
    t.kind == Identifier && t.text in m.namedParams && m.namedParams[t.text] == slot
  }

  lemma {:induction false} LastSeparated(s: seq<Ptok>, args: seq<seq<Ptok>>, comma: Ptok, last: seq<Ptok>)
    requires Separated(s, args) && comma.kind == Comma
    ensures Separated(s + [comma] + last, args + [last])
    decreases |args|
  {
    var all, more := s + [comma] + last, args + [last];
    var n := |args[0]|;
    if |args| == 1 {
      assert all[..n] == s && all[n + 1..] == last && more[1..] == [last];
    } else {
      LastSeparated(s[n + 1..], args[1..], comma, last);
      assert all[..n] == s[..n] && all[n] == s[n];
      assert all[n + 1..] == s[n + 1..] + [comma] + last;
      assert more[1..] == args[1..] + [last];
    }
  }

  lemma EchoParts(m: Macro, body: seq<Ptok>, n: nat)
    requires Echoes(m, body, n) && n > 1
    ensures |body| == 2 * n - 1
    ensures var before, comma, last := body[..2 * n - 3], body[2 * n - 3], body[2 * n - 2];
            && body == before + [comma] + [last]
            && Echoes(m, before, n - 1) && comma.kind == Comma && NamesSlot(m, last, n - 1)
  {
    hide NamesSlot;
    var before := body[..2 * n - 3];
    assert body[2 * (n - 2) + 1].kind == Comma && NamesSlot(m, body[2 * (n - 1)], n - 1);
    assert forall k | 0 <= k < n - 1 :: before[2 * k] == body[2 * k];
    assert forall k | 0 <= k < n - 2 :: before[2 * k + 1] == body[2 * k + 1];
  }

  lemma {:induction false} EchoJoins(m: Macro, body: seq<Ptok>, args: seq<seq<Ptok>>, n: nat)
    requires Echoes(m, body, n) && 0 < n <= |args|
    ensures Separated(Params(m, body, args), args[..n])
    decreases n
  {
    hide Echoes, Params, Separated;
    if n == 1 {
      EchoOne(m, body, args);
    } else {
      EchoParts(m, body, n);
      var before, comma, last := body[..2 * n - 3], body[2 * n - 3], body[2 * n - 2];
      EchoJoins(m, before, args, n - 1);
      ParamsMore(m, before, comma, args);
      ParamsMore(m, before + [comma], last, args);
      assert args[..n] == args[..n - 1] + [args[n - 1]];
      LastSeparated(Params(m, before, args), args[..n - 1], comma, args[n - 1]);
    }
  }

  lemma EchoOne(m: Macro, body: seq<Ptok>, args: seq<seq<Ptok>>)
    requires Echoes(m, body, 1) && args != []
    ensures Separated(Params(m, body, args), args[..1])
  {
    assert NamesSlot(m, body[2 * 0], 0);
    assert body[..0] == [] && args[..1] == [args[0]];
  }

  // Substituting collected arguments into such a body and collecting again gives them back.
  lemma ArgumentsHandedOn(m: Macro, toks: seq<Ptok>, start: nat, close: Ptok)
    requires close.kind == RParen && CollectArgs(toks, start).Some?
    requires var args := CollectArgs(toks, start).value.args; args != [] && Echoes(m, m.body, |args|)
    ensures var args := CollectArgs(toks, start).value.args;
            var body := Params(m, m.body, args);
            CollectArgs(body + [close], 0) == Some(Args(args, |body| + 1))
  {
    hide CollectArgs, Params, Echoes, Separated, AllWhole;
    var r := CollectArgs(toks, start).value;
    CollectsExactly(toks, start, r.args, r.next);
    EchoJoins(m, m.body, r.args, |r.args|);
    assert r.args[..|r.args|] == r.args;
    var body := Params(m, m.body, r.args);
    assert (body + [close])[0..|body|] == body;
    CollectsExactly(body + [close], 0, r.args, |body| + 1);
    BothEmpty(toks[start..r.next - 1], body, r.args);
  }

  lemma BothEmpty(s: seq<Ptok>, t: seq<Ptok>, args: seq<seq<Ptok>>)
    requires Separated(s, args) && Separated(t, args)
    ensures s == [] <==> t == []
  {
  }

  // A body that names no parameter stays as it is.
  ghost predicate NamesNothing(m: Macro, t: Ptok) {
    !(t.kind == MacroParam && ParamIndex(t.text).Some?) && !(t.kind == Identifier && t.text in m.namedParams)
  }

  lemma {:induction false} NothingSubstituted(m: Macro, body: seq<Ptok>, args: seq<seq<Ptok>>)
    requires forall k | 0 <= k < |body| :: NamesNothing(m, body[k])
    ensures Params(m, body, args) == body
  {
    hide Params, ParamIndex, NamesNothing;
    if body == [] {
      NothingToName(m, args);
    } else {
      var before, last := body[..|body| - 1], body[|body| - 1];
      assert body == before + [last];
      assert forall k | 0 <= k < |before| :: before[k] == body[k];
      NothingSubstituted(m, before, args);
      ParamsMore(m, before, last, args);
      StaysAsItIs(m, last, args);
    }
  }

  lemma StaysAsItIs(m: Macro, t: Ptok, args: seq<seq<Ptok>>)
    requires NamesNothing(m, t)
    ensures BodyToken(m, t, args) == [t]
  {
    hide ParamIndex;
  }
}
