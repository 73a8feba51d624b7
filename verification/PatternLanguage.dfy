// What the pattern matcher accepts, stated as a language: captures are balanced
// texts, and a match is an instance of the pattern. The matcher and the
// language are proved to agree in both directions.
module PatternLanguage {
  import opened Chars
  import opened PatternMatch

  datatype QuotedChar = Raw(c: char) | Escaped(c: char)

  // Text made of plain characters, closed quotes and closed bracket groups.
  datatype Text =
    | Empty
    | Plain(c: char, rest: Text)
    | Quoted(bang: bool, quote: char, body: seq<QuotedChar>, rest: Text)
    | Group(open: char, inner: Text, rest: Text)

  function RenderBody(body: seq<QuotedChar>, control: char): string {
    if body == [] then "" else RenderQuotedChar(body[0], control) + RenderBody(body[1..], control)
  }

  function RenderQuotedChar(q: QuotedChar, control: char): string {
    match q case Raw(c) => [c] case Escaped(c) => [control, c]
  }

  function RenderQuoted(bang: bool, quote: char, body: seq<QuotedChar>, control: char): string {
    QuoteHead(bang, quote) + RenderBody(body, control) + [quote]
  }

  function Render(t: Text, control: char): string {
    match t
    case Empty => ""
    case Plain(c, rest) => [c] + Render(rest, control)
    case Quoted(bang, quote, body, rest) => RenderQuoted(bang, quote, body, control) + Render(rest, control)
    case Group(open, inner, rest) =>
      [open] + Render(inner, control) + [CloserOf(open)] + Render(rest, control)
  }

  ghost predicate BodyWithin(body: seq<QuotedChar>, quote: char, control: char) {
    forall k | 0 <= k < |body| :: body[k].Raw? ==> body[k].c != quote && body[k].c != control
  }

  // The first character of t followed by `stop`.
  function FirstOf(t: Text, stop: char, control: char): char {
    if Render(t, control) == "" then stop else Render(t, control)[0]
  }

  // `stop` does not occur at the top level of t, and t followed by `stop` reads
  // back piece by piece as it was written.
  ghost predicate Balanced(t: Text, stop: char, control: char) {
    match t
    case Empty => true
    case Plain(c, rest) =>
      && c != stop && c != '"' && c != '\'' && !Opener(c)
      && !(c == '!' && FirstOf(rest, stop, control) == '"')
      && Balanced(rest, stop, control)
    case Quoted(bang, quote, body, rest) =>
      && GoodQuote(bang, quote, body, control)
      && (if bang then '!' else quote) != stop && Balanced(rest, stop, control)
    case Group(open, inner, rest) =>
      && Opener(open) && open != stop
      && Balanced(inner, CloserOf(open), control) && Balanced(rest, stop, control)
  }

  // The text t, and then `stop`, are what s reads at offset i.
  ghost predicate Reads(s: string, i: nat, t: Text, stop: char, control: char) {
    var e := i + |Render(t, control)|;
    At(s, i, Render(t, control)) && e < |s| && s[e] == stop
  }

  // ----- quotes --------------------------------------------------------------

  lemma {:induction false} QuoteComplete(s: string, i: nat, body: seq<QuotedChar>, quote: char, control: char)
    requires BodyWithin(body, quote, control) && quote != control
    requires At(s, i, RenderBody(body, control))
    requires var e := i + |RenderBody(body, control)|; e < |s| && s[e] == quote
    ensures QuoteEnd(s, i, quote, control) == i + |RenderBody(body, control)| + 1
    decreases |body|
  {
    if body == [] { return; }
    hide At;
    var head := RenderQuotedChar(body[0], control);
    AtSplit(s, i, head, RenderBody(body[1..], control));
    AtIndex(s, i, head, 0);
    hide RenderBody;
    QuoteComplete(s, i + |head|, body[1..], quote, control);
  }

  lemma {:induction false} QuoteSound(s: string, i: nat, quote: char, control: char) returns (body: seq<QuotedChar>)
    requires i <= |s| && QuoteEnd(s, i, quote, control) < |s|
    ensures quote != control && BodyWithin(body, quote, control)
    ensures At(s, i, RenderBody(body, control))
    ensures var e := i + |RenderBody(body, control)|;
            e < |s| && s[e] == quote && QuoteEnd(s, i, quote, control) == e + 1
    decreases |s| - i
  {
    if s[i] == quote && quote != control {
      return [];
    }
    var width := if s[i] == control && i + 1 < |s| then 2 else 1;
    var rest := QuoteSound(s, i + width, quote, control);
    body := [if width == 2 then Escaped(s[i + 1]) else Raw(s[i])] + rest;
    var head := s[i..i + width];
    assert At(s, i, head);
    hide At;
    assert head == RenderQuotedChar(body[0], control) && body[1..] == rest;
    AtJoin(s, i, head, RenderBody(rest, control));
  }

  ghost predicate GoodQuote(bang: bool, quote: char, body: seq<QuotedChar>, control: char) {
    (quote == '"' || (quote == '\'' && !bang)) && quote != control && BodyWithin(body, quote, control)
  }

  function QuoteHead(bang: bool, quote: char): string { if bang then ['!', quote] else [quote] }

  lemma SkipQuotedComplete(s: string, i: nat, bang: bool, quote: char, body: seq<QuotedChar>, control: char)
    requires GoodQuote(bang, quote, body, control) && At(s, i, RenderQuoted(bang, quote, body, control))
    ensures SkipQuoted(s, i, control) == Some(i + |RenderQuoted(bang, quote, body, control)|)
    ensures s[i] == if bang then '!' else quote
  {
    hide RenderBody, QuoteEnd, BodyWithin, At;
    var head, inner := QuoteHead(bang, quote), RenderBody(body, control);
    AtSplit(s, i, head + inner, [quote]);
    AtSplit(s, i, head, inner);
    AtOne(s, i + |head| + |inner|, quote);
    AtIndex(s, i, head, 0);
    AtIndex(s, i, head, |head| - 1);
    QuoteComplete(s, i + |head|, body, quote, control);
  }

  lemma SkipQuotedSound(s: string, i: nat, control: char) returns (bang: bool, quote: char, body: seq<QuotedChar>)
    requires SkipQuoted(s, i, control).Some? && SkipQuoted(s, i, control).value < |s|
    ensures GoodQuote(bang, quote, body, control) && At(s, i, RenderQuoted(bang, quote, body, control))
    ensures s[i] == if bang then '!' else quote
    ensures SkipQuoted(s, i, control) == Some(i + |RenderQuoted(bang, quote, body, control)|)
  {
    hide RenderBody, QuoteEnd, BodyWithin, At;
    bang := s[i] == '!';
    quote := if bang then '"' else s[i];
    var head := QuoteHead(bang, quote);
    body := QuoteSound(s, i + |head|, quote, control);
    var inner := RenderBody(body, control);
    AtOne(s, i, s[i]);
    if bang {
      AtOne(s, i + 1, quote);
      AtJoin(s, i, ['!'], [quote]);
      assert ['!'] + [quote] == head;
    }
    AtOne(s, i + |head| + |inner|, quote);
    AtJoin(s, i, head, inner);
    AtJoin(s, i, head + inner, [quote]);
  }

  // ----- taking the first item of a text apart, and putting it back --------------

  lemma CutPlain(s: string, i: nat, t: Text, stop: char, control: char)
    requires t.Plain? && Reads(s, i, t, stop, control) && Balanced(t, stop, control)
    ensures i < |s| && s[i] == t.c && Reads(s, i + 1, t.rest, stop, control)
    ensures SkipQuoted(s, i, control) == None
    ensures |Render(t, control)| == 1 + |Render(t.rest, control)|
  {
    hide At;
    AtSplit(s, i, [t.c], Render(t.rest, control));
    AtOne(s, i, t.c);
    if Render(t.rest, control) != "" {
      AtIndex(s, i + 1, Render(t.rest, control), 0);
    }
  }

  lemma CutQuoted(s: string, i: nat, t: Text, stop: char, control: char) returns (e: nat)
    requires t.Quoted? && Balanced(t, stop, control) && Reads(s, i, t, stop, control)
    ensures i < |s| && SkipQuoted(s, i, control) == Some(e) && Reads(s, e, t.rest, stop, control)
    ensures s[i] == if t.bang then '!' else t.quote
    ensures e + |Render(t.rest, control)| == i + |Render(t, control)|
  {
    hide At, RenderQuoted, SkipQuoted, GoodQuote;
    var w := RenderQuoted(t.bang, t.quote, t.body, control);
    AtSplit(s, i, w, Render(t.rest, control));
    SkipQuotedComplete(s, i, t.bang, t.quote, t.body, control);
    e := i + |w|;
  }

  // j is the offset of the closing bracket.
  lemma CutGroup(s: string, i: nat, t: Text, stop: char, control: char) returns (j: nat)
    requires t.Group? && Reads(s, i, t, stop, control)
    ensures i < |s| && s[i] == t.open && Reads(s, i + 1, t.inner, CloserOf(t.open), control)
    ensures j == i + 1 + |Render(t.inner, control)| && Reads(s, j + 1, t.rest, stop, control)
    ensures j + 1 + |Render(t.rest, control)| == i + |Render(t, control)|
  {
    hide At, CloserOf;
    var inner, closer := Render(t.inner, control), CloserOf(t.open);
    j := i + 1 + |inner|;
    AtSplit(s, i, [t.open] + inner + [closer], Render(t.rest, control));
    AtSplit(s, i, [t.open] + inner, [closer]);
    AtSplit(s, i, [t.open], inner);
    AtOne(s, i, t.open);
    AtOne(s, j, closer);
  }

  lemma EmptyText(s: string, i: nat, stop: char, control: char) returns (t: Text)
    requires i < |s| && s[i] == stop
    ensures Reads(s, i, t, stop, control) && Balanced(t, stop, control) && |Render(t, control)| == 0
  {
    t := Empty;
  }

  lemma JoinPlain(s: string, i: nat, t: Text, stop: char, control: char)
    requires t.Plain? && i < |s| && s[i] == t.c && Reads(s, i + 1, t.rest, stop, control)
    requires SkipQuoted(s, i, control) == None && !Opener(t.c) && t.c != stop && Balanced(t.rest, stop, control)
    ensures Reads(s, i, t, stop, control) && Balanced(t, stop, control)
    ensures |Render(t, control)| == 1 + |Render(t.rest, control)|
  {
    hide At;
    AtOne(s, i, t.c);
    AtJoin(s, i, [t.c], Render(t.rest, control));
    if Render(t.rest, control) != "" {
      AtIndex(s, i + 1, Render(t.rest, control), 0);
    }
  }

  lemma JoinQuoted(s: string, i: nat, rest: Text, e: nat, stop: char, control: char) returns (t: Text)
    requires i < |s| && SkipQuoted(s, i, control) == Some(e) && e < |s| && Reads(s, e, rest, stop, control)
    requires s[i] != stop && Balanced(rest, stop, control)
    ensures Reads(s, i, t, stop, control) && Balanced(t, stop, control)
    ensures e + |Render(rest, control)| == i + |Render(t, control)|
  {
    hide At, RenderQuoted, SkipQuoted, GoodQuote;
    var bang, quote, body := SkipQuotedSound(s, i, control);
    t := Quoted(bang, quote, body, rest);
    AtJoin(s, i, RenderQuoted(bang, quote, body, control), Render(rest, control));
  }

  lemma JoinGroup(s: string, i: nat, t: Text, stop: char, control: char)
    requires t.Group? && i < |s| && s[i] == t.open && Reads(s, i + 1, t.inner, CloserOf(t.open), control)
    requires Reads(s, i + 2 + |Render(t.inner, control)|, t.rest, stop, control)
    requires Opener(t.open) && t.open != stop
    requires Balanced(t.inner, CloserOf(t.open), control) && Balanced(t.rest, stop, control)
    ensures Reads(s, i, t, stop, control) && Balanced(t, stop, control)
    ensures i + 2 + |Render(t.inner, control)| + |Render(t.rest, control)| == i + |Render(t, control)|
  {
    hide At, CloserOf, Opener;
    var inner, closer := Render(t.inner, control), CloserOf(t.open);
    AtOne(s, i, t.open);
    AtOne(s, i + 1 + |inner|, closer);
    AtJoin(s, i, [t.open], inner);
    AtJoin(s, i, [t.open] + inner, [closer]);
    AtJoin(s, i, [t.open] + inner + [closer], Render(t.rest, control));
  }

  // ----- groups --------------------------------------------------------------

  // What remains once the innermost group of `stack` has closed just before j.
  function AfterClose(s: string, j: nat, stack: string, control: char): nat
    requires j <= |s| && stack != ""
  {
    if |stack| == 1 then j else GroupEnd(s, j, stack[..|stack| - 1], control)
  }

  lemma {:induction false} GroupComplete(s: string, i: nat, t: Text, stack: string, control: char)
    requires stack != "" && Balanced(t, CloserOf(stack[|stack| - 1]), control)
    requires Reads(s, i, t, CloserOf(stack[|stack| - 1]), control)
    ensures GroupEnd(s, i, stack, control) == AfterClose(s, i + |Render(t, control)| + 1, stack, control)
    decreases t
  {
    hide SkipQuoted, RenderQuoted, GoodQuote, QuoteEnd;
    var closer := CloserOf(stack[|stack| - 1]);
    if t.Empty? { return; }
    hide Render, GroupEnd;
    match t
    case Plain(c, rest) =>
      CutPlain(s, i, t, closer, control);
      GroupPasses(s, i, stack, control);
      GroupComplete(s, i + 1, rest, stack, control);
    case Quoted(_, _, _, rest) =>
      var e := CutQuoted(s, i, t, closer, control);
      GroupPasses(s, i, stack, control);
      GroupComplete(s, e, rest, stack, control);
    case Group(open, inner, rest) =>
      var j := CutGroup(s, i, t, closer, control);
      GroupPasses(s, i, stack, control);
      GroupComplete(s, i + 1, inner, stack + [open], control);
      assert (stack + [open])[..|stack|] == stack;
      GroupComplete(s, j + 1, rest, stack, control);
  }

  // One round of the group scan on anything but the bracket that closes the group.
  lemma GroupPasses(s: string, i: nat, stack: string, control: char)
    requires i < |s| && stack != "" && s[i] != CloserOf(stack[|stack| - 1])
    ensures var quoted := SkipQuoted(s, i, control);
      GroupEnd(s, i, stack, control)
      == if quoted.Some? then GroupEnd(s, quoted.value, stack, control)
         else GroupEnd(s, i + 1, if Opener(s[i]) then stack + [s[i]] else stack, control)
  {
  }

  lemma {:induction false} GroupSound(s: string, i: nat, stack: string, control: char) returns (t: Text)
    requires i <= |s| && stack != "" && GroupEnd(s, i, stack, control) < |s|
    ensures Balanced(t, CloserOf(stack[|stack| - 1]), control)
    ensures Reads(s, i, t, CloserOf(stack[|stack| - 1]), control)
    ensures GroupEnd(s, i, stack, control) == AfterClose(s, i + |Render(t, control)| + 1, stack, control)
    decreases |s| - i
  {
    hide SkipQuoted, Render, RenderQuoted, QuoteEnd, Balanced;
    var closer := CloserOf(stack[|stack| - 1]);
    var quoted := SkipQuoted(s, i, control);
    if quoted.Some? {
      var rest := GroupSound(s, quoted.value, stack, control);
      t := JoinQuoted(s, i, rest, quoted.value, closer, control);
    } else if Opener(s[i]) {
      var deeper := stack + [s[i]];
      assert deeper[..|stack|] == stack;
      var inner := GroupSound(s, i + 1, deeper, control);
      var rest := GroupSound(s, i + 2 + |Render(inner, control)|, stack, control);
      t := Group(s[i], inner, rest);
      JoinGroup(s, i, t, closer, control);
    } else if s[i] == closer {
      t := EmptyText(s, i, closer, control);
    } else {
      var rest := GroupSound(s, i + 1, stack, control);
      t := Plain(s[i], rest);
      JoinPlain(s, i, t, closer, control);
    }
  }

  // ----- captures --------------------------------------------------------------

  lemma {:induction false} CaptureComplete(s: string, i: nat, t: Text, delimiter: char, control: char)
    requires Balanced(t, delimiter, control) && Reads(s, i, t, delimiter, control)
    ensures CaptureEnd(s, i, delimiter, control) == i + |Render(t, control)|
    decreases t
  {
    hide SkipQuoted, RenderQuoted, GoodQuote, QuoteEnd;
    match t
    case Empty =>
    case Plain(c, rest) =>
      CutPlain(s, i, t, delimiter, control);
      CaptureComplete(s, i + 1, rest, delimiter, control);
    case Quoted(_, _, _, rest) =>
      var e := CutQuoted(s, i, t, delimiter, control);
      CaptureComplete(s, e, rest, delimiter, control);
    case Group(open, inner, rest) =>
      var j := CutGroup(s, i, t, delimiter, control);
      GroupComplete(s, i + 1, inner, [open], control);
      CaptureComplete(s, j + 1, rest, delimiter, control);
  }

  lemma {:induction false} CaptureSound(s: string, i: nat, delimiter: char, control: char) returns (t: Text)
    requires i <= |s| && CaptureEnd(s, i, delimiter, control) < |s|
    ensures Balanced(t, delimiter, control) && Reads(s, i, t, delimiter, control)
    ensures CaptureEnd(s, i, delimiter, control) == i + |Render(t, control)|
    decreases |s| - i
  {
    hide SkipQuoted, Render, RenderQuoted, QuoteEnd, Balanced;
    var quoted := SkipQuoted(s, i, control);
    if s[i] == delimiter {
      t := EmptyText(s, i, delimiter, control);
    } else if quoted.Some? {
      var rest := CaptureSound(s, quoted.value, delimiter, control);
      t := JoinQuoted(s, i, rest, quoted.value, delimiter, control);
    } else if Opener(s[i]) {
      var inner := GroupSound(s, i + 1, [s[i]], control);
      var rest := CaptureSound(s, i + 2 + |Render(inner, control)|, delimiter, control);
      t := Group(s[i], inner, rest);
      JoinGroup(s, i, t, delimiter, control);
    } else {
      var rest := CaptureSound(s, i + 1, delimiter, control);
      t := Plain(s[i], rest);
      JoinPlain(s, i, t, delimiter, control);
    }
  }

  // No delimiter stands at the top level from i on: no balanced text leads to one, be it that
  // there is none or that a quote or a group left open holds it.
  ghost predicate NoneAtTop(s: string, i: nat, delimiter: char, control: char) {
    forall t: Text :: Balanced(t, delimiter, control) ==> !Reads(s, i, t, delimiter, control)
  }

  // Just then a capture runs to the end of the text.
  lemma RunsToEnd(s: string, i: nat, delimiter: char, control: char)
    requires i <= |s|
    ensures CaptureEnd(s, i, delimiter, control) == |s| <==> NoneAtTop(s, i, delimiter, control)
  {
    hide CaptureEnd, Balanced, Reads, Render;
    if CaptureEnd(s, i, delimiter, control) < |s| {
      var t := CaptureSound(s, i, delimiter, control);
    } else {
      forall t: Text | Balanced(t, delimiter, control) ensures !Reads(s, i, t, delimiter, control) {
        if Reads(s, i, t, delimiter, control) { ReadsInside(s, i, t, delimiter, control); }
      }
    }
  }

  lemma ReadsInside(s: string, i: nat, t: Text, delimiter: char, control: char)
    requires Balanced(t, delimiter, control) && Reads(s, i, t, delimiter, control)
    ensures i <= |s| && CaptureEnd(s, i, delimiter, control) < |s|
  {
    CaptureComplete(s, i, t, delimiter, control);
  }

  // A group is skipped to its end exactly, whatever follows it.
  lemma GroupSkipped(open: char, inner: Text, rest: string, control: char)
    requires Opener(open) && Balanced(inner, CloserOf(open), control)
    ensures var w := [open] + Render(inner, control) + [CloserOf(open)];
            SkipGroup(w + rest, 0, control) == Some(|w|)
  {
    var s := [open] + Render(inner, control) + [CloserOf(open)] + rest;
    assert s[1..1 + |Render(inner, control)|] == Render(inner, control);
    GroupComplete(s, 1, inner, [open], control);
  }

  // So a parenthesis, a bracket and a brace each close what their like opens.
  lemma BracketsSkipped(inner: Text, rest: string, control: char)
    ensures Balanced(inner, ')', control) ==>
      var w := "(" + Render(inner, control) + ")"; SkipGroup(w + rest, 0, control) == Some(|w|)
    ensures Balanced(inner, ']', control) ==>
      var w := "[" + Render(inner, control) + "]"; SkipGroup(w + rest, 0, control) == Some(|w|)
    ensures Balanced(inner, '}', control) ==>
      var w := "{" + Render(inner, control) + "}"; SkipGroup(w + rest, 0, control) == Some(|w|)
  {
    hide SkipGroup, Balanced, Render;
    if Balanced(inner, ')', control) { GroupSkipped('(', inner, rest, control); }
    if Balanced(inner, ']', control) { GroupSkipped('[', inner, rest, control); }
    if Balanced(inner, '}', control) { GroupSkipped('{', inner, rest, control); }
  }

  // ----- whole patterns --------------------------------------------------------

  // An instance of a pattern, step by step: a literal with the blanks in front
  // of it, or a capture with the text that fills it.
  datatype Step = Lit(blanks: string, c: char) | Cap(slot: int, w: Text, delimiter: char)
  datatype Steps = Done | Next(head: Step, rest: Steps)

  function StepText(step: Step, control: char): string {
    match step
    case Lit(blanks, c) => blanks + [c]
    case Cap(_, w, delimiter) => Render(w, control) + [delimiter]
  }

  function StepsText(steps: Steps, control: char): string {
    match steps
    case Done => ""
    case Next(head, rest) => StepText(head, control) + StepsText(rest, control)
  }

  function StepWidth(step: Step): nat { if step.Cap? then 3 else 1 }

  // Blanks may stand in front of a last semicolon that is optional, and of any other mark that
  // does not repeat the one before it.
  predicate Padded(p: string, pi: nat, semis: bool)
    requires pi < |p|
  {
    (p[pi..] == ";" && !semis) || (pi > 0 && !PawnAlphanum(p[pi]) && p[pi] != p[pi - 1])
  }

  ghost predicate StepFits(step: Step, p: string, pi: nat, semis: bool, control: char) {
    match step
    case Cap(slot, w, delimiter) =>
      && pi + 2 < |p| && p[pi] == '%' && 0 <= slot <= 9 && p[pi + 1] == "0123456789"[slot] && delimiter == p[pi + 2]
      && Balanced(w, delimiter, control)
    case Lit(blanks, c) =>
      && pi < |p| && c == p[pi] && c != '%'
      && (forall k | 0 <= k < |blanks| :: blanks[k] <= ' ')
      && (if Padded(p, pi, semis) then c > ' ' else blanks == "")
  }

  // The steps spell an instance of the pattern from position pi up to `stop`.
  ghost predicate InstanceUpTo(steps: Steps, p: string, pi: nat, stop: nat, semis: bool, control: char) {
    match steps
    case Done => pi == stop
    case Next(head, rest) =>
      StepFits(head, p, pi, semis, control) && InstanceUpTo(rest, p, pi + StepWidth(head), stop, semis, control)
  }

  ghost predicate Instance(steps: Steps, p: string, pi: nat, semis: bool, control: char) {
    InstanceUpTo(steps, p, pi, |p|, semis, control)
  }

  // The captures once a step has been taken at offset si.
  function StepArgs(step: Step, si: nat, args: Captures, control: char): Captures {
    if step.Lit? then args else args[step.slot := Range(si, si + |StepText(step, control)| - 1)]
  }

  function StepsArgs(steps: Steps, si: nat, args: Captures, control: char): Captures
    decreases steps
  {
    match steps
    case Done => args
    case Next(head, rest) =>
      StepsArgs(rest, si + |StepText(head, control)|, StepArgs(head, si, args, control), control)
  }

  // A pattern that ends in a word does not match in front of more word.
  ghost predicate WordBoundary(s: string, e: nat, p: string)
    requires e <= |s|
  {
    p != "" && PawnAlphanum(p[|p| - 1]) && e < |s| ==> !PawnAlphanum(s[e])
  }

  lemma {:induction false} BlanksSkipped(s: string, i: nat, blanks: string, c: char)
    requires At(s, i, blanks + [c]) && c > ' '
    requires forall k | 0 <= k < |blanks| :: blanks[k] <= ' '
    ensures SkipBlanks(s, i) == i + |blanks|
    decreases |blanks|
  {
    assert s[i] == s[i..i + |blanks| + 1][0];
    if blanks != "" {
      assert s[i + 1..i + |blanks| + 1] == s[i..i + |blanks| + 1][1..] == blanks[1..] + [c];
      BlanksSkipped(s, i + 1, blanks[1..], c);
    }
  }

  // The matcher takes a step that fits.
  lemma StepTaken(s: string, si: nat, p: string, pi: nat, semis: bool, control: char, args: Captures, step: Step)
    requires StepFits(step, p, pi, semis, control) && At(s, si, StepText(step, control))
    ensures pi + StepWidth(step) <= |p|
    ensures MatchFrom(s, si, p, pi, semis, control, args)
         == MatchFrom(s, si + |StepText(step, control)|, p, pi + StepWidth(step), semis, control,
                      StepArgs(step, si, args, control))
  {
    hide CaptureEnd, Render, SkipBlanks, Balanced, MatchRound;
    StepTakenInRound(s, si, p, pi, semis, control, args, step);
  }

  lemma StepTakenInRound(s: string, si: nat, p: string, pi: nat, semis: bool, control: char, args: Captures, step: Step)
    requires StepFits(step, p, pi, semis, control) && At(s, si, StepText(step, control))
    ensures pi + StepWidth(step) <= |p|
    ensures MatchRound(s, si, p, pi, semis, control, args)
         == On(si + |StepText(step, control)|, pi + StepWidth(step), StepArgs(step, si, args, control))
  {
    hide CaptureEnd, Render, SkipBlanks, Balanced;
    var text := StepText(step, control);
    AtIndex(s, si, text, |text| - 1);
    hide At;
    if step.Cap? {
      assert CaptureEnd(s, si, step.delimiter, control) == si + |text| - 1 by {
        AtSplit(s, si, Render(step.w, control), [step.delimiter]);
        CaptureComplete(s, si, step.w, step.delimiter, control);
      }
    } else if BlanksAllowed(p, pi, semis) {
      BlanksSkipped(s, si, step.blanks, step.c);
    }
  }

  // The matcher takes all the steps of an instance.
  lemma {:induction false} StepsTaken(s: string, si: nat, p: string, pi: nat, stop: nat, semis: bool, control: char,
                                      args: Captures, steps: Steps)
    requires pi <= |p| && InstanceUpTo(steps, p, pi, stop, semis, control)
    requires At(s, si, StepsText(steps, control))
    ensures stop <= |p| && si + |StepsText(steps, control)| <= |s|
    ensures MatchFrom(s, si, p, pi, semis, control, args)
         == MatchFrom(s, si + |StepsText(steps, control)|, p, stop, semis, control, StepsArgs(steps, si, args, control))
    decreases steps
  {
    hide StepText, StepArgs, StepFits, MatchFrom;
    if steps.Done? { return; }
    var head := steps.head;
    AtSplit(s, si, StepText(head, control), StepsText(steps.rest, control));
    assert |StepsText(steps, control)| == |StepText(head, control)| + |StepsText(steps.rest, control)|;
    assert StepsArgs(steps, si, args, control)
        == StepsArgs(steps.rest, si + |StepText(head, control)|, StepArgs(head, si, args, control), control);
    assert InstanceUpTo(steps.rest, p, pi + StepWidth(head), stop, semis, control);
    hide At, StepsText, StepsArgs, InstanceUpTo;
    StepTaken(s, si, p, pi, semis, control, args, head);
    StepsTaken(s, si + |StepText(head, control)|, p, pi + StepWidth(head), stop, semis, control,
               StepArgs(head, si, args, control), steps.rest);
  }

  lemma MatchComplete(s: string, si: nat, p: string, pi: nat, semis: bool, control: char, args: Captures, steps: Steps)
    requires pi <= |p| && p != "" && Instance(steps, p, pi, semis, control)
    requires At(s, si, StepsText(steps, control))
    requires WordBoundary(s, si + |StepsText(steps, control)|, p)
    ensures MatchFrom(s, si, p, pi, semis, control, args)
         == Matched(si + |StepsText(steps, control)|, StepsArgs(steps, si, args, control))
  {
    hide At, StepsText, StepsArgs, InstanceUpTo, MatchRound;
    StepsTaken(s, si, p, pi, |p|, semis, control, args, steps);
  }

  // The end of the text stands in for the pattern's last semicolon: behind the steps there are
  // only blanks, or the last capture begins there, and no semicolon at the top level ends it.
  ghost predicate Blank(s: string, e: nat) { forall k | e <= k < |s| :: s[k] <= ' ' }

  ghost predicate CutShort(s: string, si: nat, p: string, pi: nat, semis: bool, control: char, steps: Steps,
                           capture: bool)
  {
    var e := si + |StepsText(steps, control)|;
    && !semis && p != "" && p[|p| - 1] == ';' && At(s, si, StepsText(steps, control))
    && if capture then
         && |p| >= 3 && CaptureMark(p, |p| - 3) && InstanceUpTo(steps, p, pi, |p| - 3, semis, control)
         && NoneAtTop(s, e, ';', control)
       else InstanceUpTo(steps, p, pi, |p| - 1, semis, control) && Blank(s, e)
  }

  // The captures of a match that is cut short.
  function ShortArgs(s: string, si: nat, p: string, control: char, args: Captures, steps: Steps, capture: bool):
    Captures
    requires capture ==> |p| >= 3 && CaptureMark(p, |p| - 3)
  {
    var all := StepsArgs(steps, si, args, control);
    if capture then all[Label(p, |p| - 3) := Range(si + |StepsText(steps, control)|, |s|)] else all
  }

  lemma {:induction false} BlankToEnd(s: string, e: nat)
    requires e <= |s|
    ensures Blank(s, e) <==> SkipBlanks(s, e) == |s|
    decreases |s| - e
  {
    if e < |s| && s[e] <= ' ' { BlankToEnd(s, e + 1); }
  }

  // Where the line ends like that, the matcher accepts it.
  lemma ShortComplete(s: string, si: nat, p: string, pi: nat, semis: bool, control: char, args: Captures, steps: Steps,
                      capture: bool)
    requires pi <= |p| && CutShort(s, si, p, pi, semis, control, steps, capture)
    ensures MatchFrom(s, si, p, pi, semis, control, args)
         == Matched(|s|, ShortArgs(s, si, p, control, args, steps, capture))
  {
    hide At, StepsText, StepsArgs, InstanceUpTo, CaptureEnd, SkipBlanks, Blank, MatchFrom, CaptureMark, Label,
        NoneAtTop;
    var stop := if capture then |p| - 3 else |p| - 1;
    StepsTaken(s, si, p, pi, stop, semis, control, args, steps);
    var e := si + |StepsText(steps, control)|;
    if capture {
      RunsToEnd(s, e, ';', control);
      CaptureToEnd(s, e, p, control, StepsArgs(steps, si, args, control));
    } else {
      BlankToEnd(s, e);
      BlanksToEnd(s, e, p, control, StepsArgs(steps, si, args, control));
    }
  }

  lemma CaptureToEnd(s: string, e: nat, p: string, control: char, args: Captures)
    requires e <= |s| && |p| >= 3 && CaptureMark(p, |p| - 3) && p[|p| - 1] == ';'
             && CaptureEnd(s, e, ';', control) == |s|
    ensures MatchFrom(s, e, p, |p| - 3, false, control, args)
         == Matched(|s|, args[Label(p, |p| - 3) := Range(e, |s|)])
  {
    hide CaptureEnd, SkipBlanks;
    AtPatternEnd(s, |s|, p, control, args[Label(p, |p| - 3) := Range(e, |s|)]);
  }

  lemma BlanksToEnd(s: string, e: nat, p: string, control: char, args: Captures)
    requires e <= |s| && p != "" && p[|p| - 1] == ';' && SkipBlanks(s, e) == |s|
    ensures MatchFrom(s, e, p, |p| - 1, false, control, args) == Matched(|s|, args)
  {
    hide CaptureEnd, SkipBlanks;
    AtPatternEnd(s, |s|, p, control, args);
  }

  lemma AtPatternEnd(s: string, e: nat, p: string, control: char, args: Captures)
    requires e <= |s| && p != "" && p[|p| - 1] == ';'
    ensures MatchFrom(s, e, p, |p|, false, control, args) == Matched(e, args)
  {
  }

  // What a successful match from (si, pi) means.
  ghost predicate MatchMeaning(s: string, si: nat, p: string, pi: nat, semis: bool, control: char, args: Captures,
                               m: Match, steps: Steps)
  {
    && m.Matched? && si <= m.end <= |s|
    && (|| CutShort(s, si, p, pi, semis, control, steps, false)
        || CutShort(s, si, p, pi, semis, control, steps, true)
        || (&& Instance(steps, p, pi, semis, control) && At(s, si, StepsText(steps, control))
            && WordBoundary(s, m.end, p)
            && m == Matched(si + |StepsText(steps, control)|, StepsArgs(steps, si, args, control))))
  }

  lemma PrependStep(s: string, si: nat, p: string, pi: nat, semis: bool, control: char, args: Captures, m: Match,
                    steps: Steps)
    requires steps.Next? && StepFits(steps.head, p, pi, semis, control) && At(s, si, StepText(steps.head, control))
    requires MatchMeaning(s, si + |StepText(steps.head, control)|, p, pi + StepWidth(steps.head), semis, control,
                          StepArgs(steps.head, si, args, control), m, steps.rest)
    ensures MatchMeaning(s, si, p, pi, semis, control, args, m, steps)
  {
    hide StepText, StepArgs, StepFits, CaptureMark, NoneAtTop, Blank;
    AtJoin(s, si, StepText(steps.head, control), StepsText(steps.rest, control));
    assert |StepsText(steps, control)| == |StepText(steps.head, control)| + |StepsText(steps.rest, control)|;
  }

  // A successful match stands at the end of the pattern, takes a step that fits,
  // or lets the end of the text stand in for the last semicolon.
  lemma FirstStep(s: string, si: nat, p: string, pi: nat, semis: bool, control: char, args: Captures)
    returns (soft: bool, step: Step)
    requires si <= |s| && pi < |p| && MatchFrom(s, si, p, pi, semis, control, args).Matched?
    ensures soft ==> MatchMeaning(s, si, p, pi, semis, control, args, MatchFrom(s, si, p, pi, semis, control, args),
        Done)
    ensures !soft ==> StepFits(step, p, pi, semis, control) && At(s, si, StepText(step, control))
  {
    hide CaptureEnd, Render, Balanced, Blank, PawnAlphanum, NoneAtTop;
    step := Lit("", p[pi]);
    if p[pi] == '%' {
      var e := CaptureEnd(s, si, p[pi + 2], control);
      soft := e == |s|;
      assert At(s, si, "");
      RunsToEnd(s, si, p[pi + 2], control);
      if !soft {
        var w := CaptureSound(s, si, p[pi + 2], control);
        step := Cap(Label(p, pi), w, p[pi + 2]);
        AtJoin(s, si, Render(w, control), [p[pi + 2]]);
      }
    } else {
      var j := if BlanksAllowed(p, pi, semis) then SkipBlanks(s, si) else si;
      soft := j == |s|;
      assert At(s, si, "");
      BlankToEnd(s, si);
      if !soft {
        step := Lit(s[si..j], p[pi]);
        AtOne(s, j, p[pi]);
        AtJoin(s, si, s[si..j], [p[pi]]);
      }
    }
  }

  lemma MatchEnds(s: string, si: nat, p: string, semis: bool, control: char, args: Captures)
    requires si <= |s| && p != "" && MatchFrom(s, si, p, |p|, semis, control, args).Matched?
    ensures MatchMeaning(s, si, p, |p|, semis, control, args, MatchFrom(s, si, p, |p|, semis, control, args), Done)
  {
    hide PawnAlphanum;
    assert At(s, si, "");
  }

  lemma {:induction false} MatchSound(s: string, si: nat, p: string, pi: nat, semis: bool, control: char,
                                      args: Captures)
    returns (steps: Steps)
    requires si <= |s| && pi <= |p| && p != ""
    requires MatchFrom(s, si, p, pi, semis, control, args).Matched?
    ensures MatchMeaning(s, si, p, pi, semis, control, args, MatchFrom(s, si, p, pi, semis, control, args), steps)
    decreases |p| - pi
  {
    hide StepText, StepArgs, StepFits, MatchRound, MatchMeaning, PawnAlphanum;
    if pi == |p| {
      MatchEnds(s, si, p, semis, control, args);
      return Done;
    }
    hide MatchFrom;
    var soft, step := FirstStep(s, si, p, pi, semis, control, args);
    if soft { return Done; }
    StepTaken(s, si, p, pi, semis, control, args, step);
    var rest := MatchSound(s, si + |StepText(step, control)|, p, pi + StepWidth(step), semis, control,
                           StepArgs(step, si, args, control));
    steps := Next(step, rest);
    PrependStep(s, si, p, pi, semis, control, args, MatchFrom(s, si, p, pi, semis, control, args), steps);
  }

  // ----- main results ----------------------------------------------------------

  ghost predicate MatchesAs(s: string, p: string, steps: Steps, semis: bool, control: char) {
    var prefix := PrefixLength(p, 0);
    && prefix > 0 && At(s, 0, p[..prefix]) && At(s, prefix, StepsText(steps, control))
    && Instance(steps, p, prefix, semis, control)
    && WordBoundary(s, prefix + |StepsText(steps, control)|, p)
  }

  // With mandatory semicolons the matcher accepts exactly the instances of the pattern.
  lemma MatchIffInstance(s: string, p: string, control: char)
    ensures MatchPattern(s, p, true, control).Matched?
       <==> exists steps :: MatchesAs(s, p, steps, true, control)
  {
    hide Instance, MatchFrom, StepsText, StepsArgs;
    if MatchPattern(s, p, true, control).Matched? {
      var prefix := PrefixLength(p, 0);
      var steps := MatchSound(s, prefix, p, prefix, true, control, map[]);
      assert MatchesAs(s, p, steps, true, control);
    }
    if steps :| MatchesAs(s, p, steps, true, control) {
      InstanceMatches(s, p, steps, true, control);
    }
  }

  ghost predicate MatchesShort(s: string, p: string, steps: Steps, capture: bool, control: char) {
    var prefix := PrefixLength(p, 0);
    prefix > 0 && At(s, 0, p[..prefix]) && CutShort(s, prefix, p, prefix, false, control, steps, capture)
  }

  // Without them it accepts as well what is an instance up to the last semicolon, with only
  // blanks behind it, or up to the last capture, which then runs to the end of the line; and
  // nothing else.
  lemma MatchIsInstanceOrLineEnd(s: string, p: string, control: char)
    ensures MatchPattern(s, p, false, control).Matched?
       <==> (|| (exists steps :: MatchesAs(s, p, steps, false, control))
             || exists steps, capture :: MatchesShort(s, p, steps, capture, control))
  {
    hide Instance, MatchFrom, StepsText, StepsArgs, CutShort;
    if MatchPattern(s, p, false, control).Matched? {
      var prefix := PrefixLength(p, 0);
      var steps := MatchSound(s, prefix, p, prefix, false, control, map[]);
      assert || MatchesAs(s, p, steps, false, control) || MatchesShort(s, p, steps, false, control)
             || MatchesShort(s, p, steps, true, control);
    }
    if steps :| MatchesAs(s, p, steps, false, control) {
      InstanceMatches(s, p, steps, false, control);
    }
    if steps, capture :| MatchesShort(s, p, steps, capture, control) {
      ShortMatches(s, p, steps, capture, control);
    }
  }

  // Such a line is matched to its end, with these captures.
  lemma ShortMatches(s: string, p: string, steps: Steps, capture: bool, control: char)
    requires MatchesShort(s, p, steps, capture, control)
    ensures capture ==> |p| >= 3 && CaptureMark(p, |p| - 3)
    ensures MatchPattern(s, p, false, control)
         == Matched(|s|, ShortArgs(s, PrefixLength(p, 0), p, control, map[], steps, capture))
  {
    hide MatchFrom, StepsText, StepsArgs, InstanceUpTo;
    ShortComplete(s, PrefixLength(p, 0), p, PrefixLength(p, 0), false, control, map[], steps, capture);
  }

  // An instance is matched to its end, with the captures it was built from.
  lemma InstanceMatches(s: string, p: string, steps: Steps, semis: bool, control: char)
    requires MatchesAs(s, p, steps, semis, control)
    ensures var prefix := PrefixLength(p, 0);
      MatchPattern(s, p, semis, control)
        == Matched(prefix + |StepsText(steps, control)|, StepsArgs(steps, prefix, map[], control))
  {
    hide Instance, MatchFrom, StepsText, StepsArgs;
    var prefix := PrefixLength(p, 0);
    MatchComplete(s, prefix, p, prefix, semis, control, map[], steps);
  }

  ghost predicate Uses(steps: Steps, slot: int) {
    steps.Next? && ((steps.head.Cap? && steps.head.slot == slot) || Uses(steps.rest, slot))
  }

  ghost predicate Distinct(steps: Steps) {
    steps.Next? ==> (steps.head.Cap? ==> !Uses(steps.rest, steps.head.slot)) && Distinct(steps.rest)
  }

  // The text that fills the capture of a slot.
  function Filling(steps: Steps, slot: int): Text
    requires Uses(steps, slot)
  {
    if steps.head.Cap? && steps.head.slot == slot then steps.head.w else Filling(steps.rest, slot)
  }

  ghost predicate Captured(s: string, args: Captures, slot: int, w: string) {
    slot in args && args[slot].start <= args[slot].end <= |s| && s[args[slot].start..args[slot].end] == w
  }

  lemma {:induction false} UnusedSlotKept(steps: Steps, si: nat, args: Captures, control: char, slot: int)
    requires slot in args && !Uses(steps, slot)
    ensures slot in StepsArgs(steps, si, args, control) && StepsArgs(steps, si, args, control)[slot] == args[slot]
    decreases steps
  {
    if steps.Next? {
      UnusedSlotKept(steps.rest, si + |StepText(steps.head, control)|, StepArgs(steps.head, si, args, control),
          control, slot);
    }
  }

  lemma {:induction false} FillingCaptured(s: string, steps: Steps, si: nat, args: Captures, control: char, slot: int)
    requires Uses(steps, slot) && Distinct(steps) && At(s, si, StepsText(steps, control))
    ensures Captured(s, StepsArgs(steps, si, args, control), slot, Render(Filling(steps, slot), control))
    decreases steps
  {
    var text := StepText(steps.head, control);
    var next, later := si + |text|, StepArgs(steps.head, si, args, control);
    AtSplit(s, si, text, StepsText(steps.rest, control));
    if steps.head.Cap? && steps.head.slot == slot {
      UnusedSlotKept(steps.rest, next, later, control, slot);
      AtSplit(s, si, Render(steps.head.w, control), [steps.head.delimiter]);
    } else {
      FillingCaptured(s, steps.rest, next, later, control, slot);
    }
  }

  // Instantiate, then match: each capture comes back as the text it was filled with.
  lemma CapturesRoundTrip(s: string, p: string, steps: Steps, semis: bool, control: char, slot: int)
    requires MatchesAs(s, p, steps, semis, control) && Distinct(steps) && Uses(steps, slot)
    ensures var m := MatchPattern(s, p, semis, control);
            m.Matched? && Captured(s, m.args, slot, Render(Filling(steps, slot), control))
  {
    InstanceMatches(s, p, steps, semis, control);
    FillingCaptured(s, steps, PrefixLength(p, 0), map[], control, slot);
  }
}
