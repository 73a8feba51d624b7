// The rescanning loop of macro expansion (preprocess/expand.go).
module Expansion {
  import opened Chars
  import opened Tokens
  import opened PatternMatch
  import opened PatternInput
  import opened MacroBody

  datatype Macro = Macro(name: string, pattern: string, namedParams: map<string, nat>, paramSlots: map<int, nat>,
                         body: seq<Ptok>, bodyText: string)

  // The settings of one run. `lex` tokenizes replacement text; every result below
  // holds for any tokenizer and any macro table.
  datatype Config = Config(macros: map<string, Macro>, maxNameLength: nat, semicolons: bool, control: char,
                           conditionMode: bool, maxDepth: nat, maxOutput: nat, lex: string -> seq<Ptok>)

  datatype OutToken = OutToken(text: string, start: nat, end: nat)

  datatype Output = Output(tokens: seq<OutToken>, buffer: string, attempts: nat, truncated: bool)

  // ----- names, pasting, arguments -------------------------------------------------

  function Lookup(c: Config, name: string): Option<Macro> {
    var key := CutName(name, c.maxNameLength);
    if key in c.macros then Some(c.macros[key]) else None
  }

  function MacroPrefix(text: string): string {
    var end := PrefixLength(text, 0);
    if end == 0 || !PawnAlpha(text[0]) then "" else text[..end]
  }

  predicate Word(text: string) {
    text != "" && PawnAlpha(text[0]) && forall k | 0 < k < |text| :: PawnAlphanum(text[k])
  }

  predicate Pastes(left: Ptok, right: Ptok) {
    left.trailing == "" && right.leading == "" && left.text != "" && right.text != "" && Word(left.text + right.text)
  }

  function Pasted(left: Ptok, right: Ptok): Ptok {
    left.(text := left.text + right.text, trailing := right.trailing, hidden := left.hidden + right.hidden,
          depth := if left.depth < right.depth then right.depth else left.depth)
  }

  method PasteAdjacentAlphanum(left: Ptok, right: Ptok) returns (pasted: Ptok, ok: bool)
    ensures ok == Pastes(left, right)
    ensures ok ==> pasted == Pasted(left, right)
  {
    if left.trailing != "" || right.leading != "" || left.text == "" || right.text == "" { return left, false; }
    var joined := left.text + right.text;
    for index := 0 to |joined|
      invariant index > 0 ==> PawnAlpha(joined[0])
      invariant forall k | 0 < k < index :: PawnAlphanum(joined[k])
    {
      if index == 0 {
        if !PawnAlpha(joined[index]) { return left, false; }
      } else if !PawnAlphanum(joined[index]) {
        return left, false;
      }
    }
    return Pasted(left, right), true;
  }

  function Splice(toks: seq<Ptok>, start: nat, end: nat, replacement: seq<Ptok>): seq<Ptok>
    requires start <= end <= |toks|
  {
    toks[..start] + replacement + toks[end..]
  }

  datatype Args = Args(args: seq<seq<Ptok>>, next: nat)

  // Splits at top-level commas up to the closing parenthesis; `depth` counts the
  // brackets of any kind that are open.
  function ArgsFrom(toks: seq<Ptok>, i: nat, depth: int, args: seq<seq<Ptok>>, current: seq<Ptok>): (r: Option<Args>)
    ensures r.Some? ==> i < r.value.next <= |toks|
    decreases |toks| - i
  {
    if i >= |toks| then None
    else
      var t := toks[i];
      if t.kind.Opens() then ArgsFrom(toks, i + 1, depth + 1, args, current + [t])
      else if t.kind == RBracket || t.kind == RBrace then ArgsFrom(toks, i + 1, depth - 1, args, current + [t])
      else if t.kind == RParen then
        if depth == 0 then Some(Args(args + [current], i + 1))
        else ArgsFrom(toks, i + 1, depth - 1, args, current + [t])
      else if t.kind == Comma && depth == 0 then ArgsFrom(toks, i + 1, depth, args + [current], [])
      else ArgsFrom(toks, i + 1, depth, args, current + [t])
  }

  function CollectArgs(toks: seq<Ptok>, start: nat): (r: Option<Args>)
    ensures r.Some? ==> start < r.value.next <= |toks|
  {
    if start < |toks| && toks[start].kind == RParen then Some(Args([], start + 1))
    else ArgsFrom(toks, start, 0, [], [])
  }

  method CollectArgsSlice(toks: seq<Ptok>, start: nat) returns (r: Option<Args>)
    ensures r == CollectArgs(toks, start)
  {
    var i := start;
    if i >= |toks| { return None; }
    if toks[i].kind == RParen { return Some(Args([], i + 1)); }
    var depth := 0;
    var args: seq<seq<Ptok>>, current: seq<Ptok> := [], [];
    while i < |toks|
      invariant ArgsFrom(toks, i, depth, args, current) == ArgsFrom(toks, start, 0, [], [])
    {
      var t := toks[i];
      if t.kind.Opens() {
        depth := depth + 1;
      } else if t.kind == RBracket || t.kind == RBrace {
        depth := depth - 1;
      } else if t.kind == RParen {
        if depth == 0 { return Some(Args(args + [current], i + 1)); }
        depth := depth - 1;
      } else if t.kind == Comma && depth == 0 {
        args, current := args + [current], [];
        i := i + 1;
        continue;
      }
      current := current + [t];
      i := i + 1;
    }
    return None;
  }

  // ----- parameters of a positional or named body --------------------------------------

  function DigitsValue(text: string, i: nat, n: nat): Option<nat>
    requires i <= |text|
    decreases |text| - i
  {
    if i == |text| then Some(n)
    else if Digit(text[i]) then DigitsValue(text, i + 1, n * 10 + (text[i] as int - '0' as int))
    else None
  }

  function ParamIndex(text: string): Option<nat> {
    var digits := if text != "" && text[0] == '%' then text[1..] else text;
    if text == "%%" || digits == "" then None else DigitsValue(digits, 0, 0)
  }

  function ArgOr(args: seq<seq<Ptok>>, slot: nat): seq<Ptok> { if slot < |args| then args[slot] else [] }

  // What one body token stands for.
  function BodyToken(m: Macro, bt: Ptok, args: seq<seq<Ptok>>): seq<Ptok> {
    if bt.kind == MacroParam && ParamIndex(bt.text).Some? then
      var index := ParamIndex(bt.text).value;
      if index in m.paramSlots then ArgOr(args, m.paramSlots[index]) else []
    else if bt.kind == Identifier && bt.text in m.namedParams then ArgOr(args, m.namedParams[bt.text])
    else [bt]
  }

  function Params(m: Macro, body: seq<Ptok>, args: seq<seq<Ptok>>): seq<Ptok> {
    if body == [] then [] else Params(m, body[..|body| - 1], args) + BodyToken(m, body[|body| - 1], args)
  }

  lemma NothingToName(m: Macro, args: seq<seq<Ptok>>)
    ensures Params(m, [], args) == []
  {
  }

  lemma ParamsMore(m: Macro, before: seq<Ptok>, t: Ptok, args: seq<seq<Ptok>>)
    ensures Params(m, before + [t], args) == Params(m, before, args) + BodyToken(m, t, args)
  {
    assert (before + [t])[..|before|] == before;
  }

  method SubstituteParams(m: Macro, args: seq<seq<Ptok>>) returns (out: seq<Ptok>)
    ensures out == Params(m, m.body, args)
  {
    hide Params, ParamIndex;
    out := [];
    NothingToName(m, args);
    for index := 0 to |m.body|
      invariant out == Params(m, m.body[..index], args)
    {
      var bt := m.body[index];
      assert m.body[..index + 1] == m.body[..index] + [bt];
      ParamsMore(m, m.body[..index], bt, args);
      if bt.kind == MacroParam {
        var label_ := ParamIndex(bt.text);
        if label_.Some? {
          if label_.value in m.paramSlots && m.paramSlots[label_.value] < |args| {
            out := out + args[m.paramSlots[label_.value]];
          }
          continue;
        }
        out := out + [bt];
        continue;
      }
      if bt.kind == Identifier && bt.text in m.namedParams {
        if m.namedParams[bt.text] < |args| { out := out + args[m.namedParams[bt.text]]; }
        continue;
      }
      out := out + [bt];
    }
    assert m.body[..|m.body|] == m.body;
  }

  // ----- one rewriting step --------------------------------------------------------------

  // A macro use at a position: what replaces the tokens up to `next`.
  datatype Use = Use(macro: Macro, items: seq<Ptok>, next: nat, boundary: string, signature: string)

  function SplitSuffix(item: Ptok, offset: nat): Ptok
    requires offset <= |item.text|
  {
    item.(text := item.text[offset..], leading := "", trailing := "")
  }

  function PatternUse(c: Config, toks: seq<Ptok>, i: nat, m: Macro): (r: Option<Use>)
    requires i < |toks|
    ensures r.Some? ==> i < r.value.next <= |toks|
  {
    var input := MakeInput(toks, i);
    var found := MatchPattern(input.text, m.pattern, c.semicolons, c.control);
    if found.NoMatch? then None
    else
      ConsumedInBounds(toks, i, found.end);
      var used := ConsumedFrom(input, found.end, 0, 0);
      if !used.aligned || used.count == 0 then None
      else
        var last := toks[i + used.count - 1];
        var items := c.lex(Substituted(m.bodyText, 0, false, input.text, found.args));
        Some(Use(m, if used.suffixOffset >= 0 then items + [SplitSuffix(last, used.suffixOffset)] else items,
                 i + used.count, last.trailing[used.trailing..], ""))
  }

  lemma ConsumedInBounds(toks: seq<Ptok>, i: nat, end: nat)
    requires i < |toks| && 0 < end <= |MakeInput(toks, i).text|
    ensures var input := MakeInput(toks, i);
      && |input.starts| == |input.ends| == |input.trailingEnds|
      && var used := ConsumedFrom(input, end, 0, 0);
         && used.aligned && 0 < used.count && i + used.count <= |toks|
         && used.suffixOffset <= |toks[i + used.count - 1].text|
         && used.trailing <= |toks[i + used.count - 1].trailing|
  {
    SpellingConserved(toks, i, end);
  }

  function Signature(items: seq<Ptok>): string {
    if items == [] then "" else items[0].text + items[0].trailing + Signature(items[1..])
  }

  function SeenSignature(seen: map<string, string>, name: string): string {
    if name in seen then seen[name] else ""
  }

  // The macro use that starts at token i, if there is one.
  function UseAt(c: Config, toks: seq<Ptok>, i: nat): (r: Option<Use>)
    requires i < |toks|
    ensures r.Some? ==> i < r.value.next <= |toks|
  {
    var t := toks[i];
    var name := MacroPrefix(t.text);
    if name == "" || name in t.hidden || Lookup(c, name).None? then None
    else
      var m := Lookup(c, name).value;
      var args := if |m.namedParams| != 0 && i + 1 < |toks| && toks[i + 1].kind == LParen
                  then CollectArgs(toks, i + 2) else None;
      var found := if args.Some? then
                     Some(Use(m, Params(m, m.body, args.value.args), args.value.next,
                         toks[args.value.next - 1].trailing, ""))
                   else PatternUse(c, toks, i, m);
      if found.None? || m.pattern == m.name then found
      else
        var signature := Signature(toks[i..found.value.next]);
        if SeenSignature(t.seen, m.name) == signature then None
        else Some(found.value.(signature := signature))
  }

  // Boundary trivia moves to whatever is next to the replaced tokens.
  function AdjustedTokens(toks: seq<Ptok>, i: nat, u: Use): (r: seq<Ptok>)
    requires i < u.next <= |toks|
    ensures |r| == |toks| && forall k | 0 <= k < |toks| :: r[k].depth == toks[k].depth
  {
    var t := toks[i];
    if u.items != [] then toks
    else if u.next < |toks| then
      toks[u.next := toks[u.next].(leading := t.leading + u.boundary + toks[u.next].leading)]
    else if i > 0 then toks[i - 1 := toks[i - 1].(trailing := toks[i - 1].trailing + t.leading + u.boundary)]
    else toks
  }

  function AdjustedItems(t: Ptok, u: Use): (r: seq<Ptok>)
    ensures |r| == |u.items|
  {
    if u.items == [] then []
    else
      var items := u.items[0 := u.items[0].(leading := t.leading + u.items[0].leading)];
      var last := |items| - 1;
      items[last := items[last].(trailing := items[last].trailing + u.boundary)]
  }

  function History(current: map<string, string>, parent: map<string, string>, name: string, signature: string)
    : map<string, string>
  {
    if signature == "" then parent + current else (parent + current)[name := signature]
  }

  // Replacement tokens are one level deeper, and remember what they came from.
  function MarkItem(item: Ptok, t: Ptok, u: Use): Ptok {
    item.(hidden := item.hidden + (if u.macro.pattern == u.macro.name then {u.macro.name} else {}),
          seen := History(item.seen, t.seen, u.macro.name, u.signature),
          depth := t.depth + 1)
  }

  function Marked(items: seq<Ptok>, t: Ptok, u: Use): (r: seq<Ptok>)
    ensures |r| == |items| && forall k | 0 <= k < |r| :: r[k] == MarkItem(items[k], t, u)
  {
    seq(|items|, k requires 0 <= k < |items| => MarkItem(items[k], t, u))
  }

  // ----- output ---------------------------------------------------------------------------

  function Emit(c: Config, out: Output, t: Ptok): Output {
    if out.truncated then out
    else if out.attempts + 1 > c.maxOutput then out.(attempts := out.attempts + 1, truncated := true)
    else
      var spaced := if out.buffer == "" then out.buffer else out.buffer + [' '];
      Output(out.tokens + [OutToken(t.text, |spaced|, |spaced| + |t.text|)], spaced + t.text, out.attempts + 1, false)
  }

  // ----- the machine ------------------------------------------------------------------------

  datatype State = State(toks: seq<Ptok>, i: nat, out: Output)

  predicate Halted(s: State) { s.i >= |s.toks| || s.out.truncated }

  // `defined` and the name after it are not expanded.
  function DefinedStep(c: Config, s: State): State
    requires s.i < |s.toks|
  {
    var out := Emit(c, s.out, s.toks[s.i]);
    var paren := s.i + 1 < |s.toks| && s.toks[s.i + 1].kind == LParen;
    var j := if paren then s.i + 2 else s.i + 1;
    var out' := if paren then Emit(c, out, s.toks[s.i + 1]) else out;
    State(if j < |s.toks| && s.toks[j].kind == Identifier && MacroPrefix(s.toks[j].text) != ""
          then s.toks[j := s.toks[j].(hidden := s.toks[j].hidden + {MacroPrefix(s.toks[j].text)})] else s.toks,
          j, out')
  }

  function UseStep(c: Config, s: State, u: Use): State
    requires s.i < u.next <= |s.toks|
  {
    var t := s.toks[s.i];
    var toks := AdjustedTokens(s.toks, s.i, u);
    if t.depth + 1 > c.maxDepth then State(toks, s.i + 1, s.out.(truncated := true))
    else State(Splice(toks, s.i, u.next, Marked(AdjustedItems(t, u), t, u)), s.i, s.out)
  }

  // One round of the rescanning loop.
  function Step(c: Config, s: State): State
    requires s.i < |s.toks|
  {
    var t := s.toks[s.i];
    if c.conditionMode && t.kind == KwDefined then DefinedStep(c, s)
    else if s.i + 1 < |s.toks| && Pastes(t, s.toks[s.i + 1]) then
      s.(toks := Splice(s.toks, s.i, s.i + 2, [Pasted(t, s.toks[s.i + 1])]))
    else
      match UseAt(c, s.toks, s.i)
      case Some(u) => UseStep(c, s, u)
      case None => s.(i := s.i + 1, out := Emit(c, s.out, t))
  }

  function Iterate(c: Config, s: State, n: nat): State
    decreases n
  {
    if n == 0 || Halted(s) then s else Iterate(c, Step(c, s), n - 1)
  }

  lemma {:induction false} IterateMore(c: Config, s: State, n: nat)
    requires !Halted(Iterate(c, s, n))
    ensures Iterate(c, s, n + 1) == Step(c, Iterate(c, s, n))
    decreases n
  {
    hide Step;
    if n > 0 {
      IterateMore(c, Step(c, s), n - 1);
    } else {
      assert Iterate(c, Step(c, s), 0) == Step(c, s);
    }
  }

  // The tokens as they enter the loop.
  function Raised(toks: seq<Ptok>, hide_: set<string>, depth: nat): (r: seq<Ptok>)
    ensures |r| == |toks|
  {
    seq(|toks|, k requires 0 <= k < |toks| =>
      toks[k].(hidden := toks[k].hidden + hide_, depth := if toks[k].depth < depth then depth else toks[k].depth))
  }
}
