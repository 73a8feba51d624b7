// What substituting into a macro body means (preprocess/pattern.go, substituteMacroBody): the
// body is a list of pieces, and each parameter outside quotes stands for the capture with its
// own digit. With the matcher in front, that is the text which filled the pattern's parameter.
module BodyLanguage {
  import opened Chars
  import opened PatternMatch
  import opened PatternLanguage
  import opened MacroBody

  // A character, a text in double quotes, one whose quote is never closed, or a parameter.
  datatype Piece = Plain(c: char) | InQuotes(text: string) | OpenQuote(text: string) | Param(digit: char)

  function PieceText(p: Piece): string {
    match p
    case Plain(c) => [c]
    case InQuotes(text) => "\"" + text + "\""
    case OpenQuote(text) => "\"" + text
    case Param(digit) => ['%', digit]
  }

  function Spelled(pieces: seq<Piece>): string {
    if pieces == [] then "" else PieceText(pieces[0]) + Spelled(pieces[1..])
  }

  function Slot(digit: char): int { digit as int - '0' as int }

  // A parameter stands for the text that its digit was filled with, if it was; all else for itself.
  function FilledPiece(p: Piece, fill: map<int, string>): string {
    if p.Param? && Slot(p.digit) in fill then fill[Slot(p.digit)] else PieceText(p)
  }

  function Filled(pieces: seq<Piece>, fill: map<int, string>): string {
    if pieces == [] then "" else FilledPiece(pieces[0], fill) + Filled(pieces[1..], fill)
  }

  ghost predicate Unquoted(text: string) { forall k | 0 <= k < |text| :: text[k] != '"' }

  predicate DigitNext(text: string) { text != "" && '0' <= text[0] <= '9' }

  // The pieces read back as they were written.
  ghost predicate Fits(pieces: seq<Piece>) {
    pieces != [] ==>
      Fits(pieces[1..]) &&
       match pieces[0]
       case Plain(c) => c != '"' && !(c == '%' && DigitNext(Spelled(pieces[1..])))
       case InQuotes(text) => Unquoted(text)
       case OpenQuote(text) => Unquoted(text) && |pieces| == 1
       case Param(digit) => '0' <= digit <= '9'
  }

  // The captures that can be used, as texts.
  function Fillings(args: Captures, input: string): map<int, string> {
    map slot | slot in args && args[slot].start <= args[slot].end <= |input| ::
      input[args[slot].start..args[slot].end]
  }

  lemma {:induction false} OpenUnchanged(body: string, i: nat, input: string, args: Captures)
    requires i <= |body| && Unquoted(body[i..])
    ensures Substituted(body, i, true, input, args) == body[i..]
    decreases |body| - i
  {
    if i < |body| {
      assert body[i] == body[i..][0] && body[i + 1..] == body[i..][1..];
      OpenUnchanged(body, i + 1, input, args);
      assert body[i..] == [body[i]] + body[i + 1..];
    }
  }

  // Substituting into the pieces from the i-th character on.
  lemma {:induction false} FillsFrom(body: string, i: nat, pieces: seq<Piece>, input: string, args: Captures)
    requires i <= |body| && Fits(pieces) && body[i..] == Spelled(pieces)
    ensures Substituted(body, i, false, input, args) == Filled(pieces, Fillings(args, input))
    decreases |pieces|
  {
    if pieces == [] { return; }
    var p, rest := pieces[0], pieces[1..];
    var next := i + |PieceText(p)|;
    FillsOne(body, i, pieces, input, args);
    hide Substituted, Fillings, FilledPiece, PieceText;
    assert body[next..] == body[i..][|PieceText(p)|..] == Spelled(rest);
    FillsFrom(body, next, rest, input, args);
  }

  lemma FillsOne(body: string, i: nat, pieces: seq<Piece>, input: string, args: Captures)
    requires i <= |body| && pieces != [] && Fits(pieces) && body[i..] == Spelled(pieces)
    ensures var next := i + |PieceText(pieces[0])|;
            && next <= |body|
            && Substituted(body, i, false, input, args)
               == FilledPiece(pieces[0], Fillings(args, input)) + Substituted(body, next, false, input, args)
  {
    var p, rest := pieces[0], Spelled(pieces[1..]);
    FirstFits(pieces);
    NoParameter(p, Fillings(args, input));
    var text := PieceText(p);
    hide *;
    PieceStands(body, i, text, rest);
    match p
    case Plain(c) => FillsPlain(body, i, text, c, rest, input, args);
    case InQuotes(inner) => FillsQuoted(body, i, text, inner, rest, input, args);
    case OpenQuote(inner) => FillsOpen(body, i, text, inner, rest, input, args);
    case Param(digit) => FillsParam(body, i, text, digit, rest, input, args);
  }

  lemma FirstFits(pieces: seq<Piece>)
    requires pieces != [] && Fits(pieces)
    ensures var p, rest := pieces[0], Spelled(pieces[1..]);
            && Spelled(pieces) == PieceText(p) + rest
            && match p
               case Plain(c) => PieceText(p) == [c] && c != '"' && !(c == '%' && DigitNext(rest))
               case InQuotes(inner) => Unquoted(inner) && PieceText(p) == "\"" + inner + "\""
               case OpenQuote(inner) => Unquoted(inner) && PieceText(p) == "\"" + inner && rest == ""
               case Param(digit) => '0' <= digit <= '9' && PieceText(p) == ['%', digit]
  {
    hide Unquoted, DigitNext;
    assert |pieces| == 1 ==> pieces[1..] == [];
  }

  lemma NoParameter(p: Piece, fill: map<int, string>)
    ensures !p.Param? ==> FilledPiece(p, fill) == PieceText(p)
  {
  }

  lemma PieceStands(body: string, i: nat, text: string, rest: string)
    requires i <= |body| && body[i..] == text + rest
    ensures Stands(body, i, text, rest)
  {
    assert body[i..i + |text|] == body[i..][..|text|] && body[i + |text|..] == body[i..][|text|..];
  }

  // The text of a piece stands at i, and `rest` behind it.
  ghost predicate Stands(body: string, i: nat, text: string, rest: string) {
    i + |text| <= |body| && body[i..i + |text|] == text && body[i + |text|..] == rest
  }

  lemma FillsPlain(body: string, i: nat, text: string, c: char, rest: string, input: string, args: Captures)
    requires Stands(body, i, text, rest) && text == [c] && c != '"' && !(c == '%' && DigitNext(rest))
    ensures Substituted(body, i, false, input, args) == text + Substituted(body, i + |text|, false, input, args)
  {
    assert body[i] == body[i..i + 1][0];
    assert i + 1 < |body| ==> body[i + 1] == body[i + 1..][0];
  }

  lemma FillsQuoted(body: string, i: nat, text: string, inner: string, rest: string, input: string, args: Captures)
    requires Stands(body, i, text, rest) && Unquoted(inner) && text == "\"" + inner + "\""
    ensures Substituted(body, i, false, input, args) == text + Substituted(body, i + |text|, false, input, args)
  {
    var j := i + |inner| + 1;
    assert body[i] == body[i..j + 1][0] == '"' && body[j] == body[i..j + 1][|inner| + 1] == '"';
    forall k | i + 1 <= k < j ensures body[k] != '"' {
      assert body[k] == body[i..j + 1][k - i] == inner[k - i - 1];
    }
    QuotedUnchanged(body, i + 1, j, input, args);
    assert Substituted(body, i, false, input, args) == [body[i]] + Substituted(body, i + 1, true, input, args);
    hide Substituted;
    assert body[i + 1..j + 1] == inner + "\"";
    Reassociate("\"", inner + "\"", Substituted(body, j + 1, false, input, args));
    assert "\"" + (inner + "\"") == text;
  }

  lemma FillsOpen(body: string, i: nat, text: string, inner: string, rest: string, input: string, args: Captures)
    requires Stands(body, i, text, rest) && Unquoted(inner) && text == "\"" + inner && rest == ""
    ensures Substituted(body, i, false, input, args) == text + Substituted(body, i + |text|, false, input, args)
  {
    assert body[i..] == body[i..i + |text|];
    assert body[i] == body[i..][0] && body[i + 1..] == body[i..][1..] == inner;
    OpenUnchanged(body, i + 1, input, args);
  }

  lemma FillsParam(body: string, i: nat, text: string, digit: char, rest: string, input: string, args: Captures)
    requires Stands(body, i, text, rest) && text == ['%', digit] && '0' <= digit <= '9'
    ensures Substituted(body, i, false, input, args)
            == FilledPiece(Param(digit), Fillings(args, input)) + Substituted(body, i + |text|, false, input, args)
  {
    hide Substituted;
    assert body[i] == body[i..i + 2][0] && body[i + 1] == body[i..i + 2][1];
    ParamHere(body, i, digit, input, args);
  }

  lemma ParamHere(body: string, i: nat, digit: char, input: string, args: Captures)
    requires i + 1 < |body| && body[i] == '%' && body[i + 1] == digit && '0' <= digit <= '9'
    ensures Substituted(body, i, false, input, args)
            == FilledPiece(Param(digit), Fillings(args, input)) + Substituted(body, i + 2, false, input, args)
  {
    assert body[i..i + 2] == ['%', digit];
  }

  // ----- every body is such a list -------------------------------------------------------------------

  lemma {:induction false} QuoteOrNone(text: string, i: nat) returns (j: nat)
    requires i <= |text|
    ensures i <= j <= |text| && Unquoted(text[i..j]) && (j < |text| ==> text[j] == '"')
    decreases |text| - i
  {
    j := i;
    if i < |text| && text[i] != '"' {
      j := QuoteOrNone(text, i + 1);
      assert text[i..j] == [text[i]] + text[i + 1..j];
    }
  }

  lemma {:induction false} ReadsPieces(body: string, i: nat) returns (pieces: seq<Piece>)
    requires i <= |body|
    ensures Fits(pieces) && Spelled(pieces) == body[i..]
    decreases |body| - i
  {
    pieces := [];
    if i == |body| { return; }
    var p, next := Piece.Plain(body[i]), i + 1;
    if body[i] == '"' {
      var j := QuoteOrNone(body, i + 1);
      if j == |body| {
        p, next := OpenQuote(body[i + 1..]), j;
        assert body[i + 1..j] == body[i + 1..];
      } else {
        p, next := InQuotes(body[i + 1..j]), j + 1;
      }
    } else if body[i] == '%' && i + 1 < |body| && '0' <= body[i + 1] <= '9' {
      p, next := Param(body[i + 1]), i + 2;
    }
    assert PieceText(p) == body[i..next];
    var rest := ReadsPieces(body, next);
    pieces := [p] + rest;
    assert body[i..] == body[i..next] + body[next..];
    assert pieces[1..] == rest;
    assert i + 1 < |body| ==> body[i + 1..][0] == body[i + 1];
    assert p.OpenQuote? ==> rest == [] by { NothingSpelled(rest); }
  }

  lemma NothingSpelled(pieces: seq<Piece>)
    ensures Spelled(pieces) == "" ==> pieces == []
  {
  }

  // The text of a body with captures put in is that of its pieces with each parameter filled.
  lemma SubstitutesExactly(body: string, input: string, args: Captures, text: string)
    ensures Substituted(body, 0, false, input, args) == text <==>
            exists pieces :: Fits(pieces) && Spelled(pieces) == body && Filled(pieces, Fillings(args, input)) == text
  {
    var pieces := ReadsPieces(body, 0);
    assert body[0..] == body;
    forall others | Fits(others) && Spelled(others) == body
      ensures Substituted(body, 0, false, input, args) == Filled(others, Fillings(args, input))
    {
      FillsFrom(body, 0, others, input, args);
    }
  }

  // ----- behind the matcher ---------------------------------------------------------------------------

  // What filled the pattern's parameters; of two with the same digit the later one counts.
  function Written(steps: Steps, control: char): map<int, string> {
    match steps
    case Done => map[]
    case Next(head, rest) =>
      (if head.Cap? then map[head.slot := Render(head.w, control)] else map[]) + Written(rest, control)
  }

  lemma {:induction false} WrittenCaptured(s: string, steps: Steps, si: nat, args: Captures, control: char)
    requires At(s, si, StepsText(steps, control))
    ensures Fillings(StepsArgs(steps, si, args, control), s) == Fillings(args, s) + Written(steps, control)
    decreases steps
  {
    hide At, Fillings, StepText, StepArgs, Render;
    if steps.Done? {
      NothingWritten(args, s);
      return;
    }
    var text := StepText(steps.head, control);
    var next, later := si + |text|, StepArgs(steps.head, si, args, control);
    AtSplit(s, si, text, StepsText(steps.rest, control));
    WrittenCaptured(s, steps.rest, next, later, control);
    StepFills(s, steps.head, si, args, control);
    var one: map<int, string> :=
      if steps.head.Cap? then map[steps.head.slot := Render(steps.head.w, control)] else map[];
    hide StepsText, StepsArgs;
    AddedInOrder(Fillings(args, s), one, Written(steps.rest, control));
  }

  lemma NothingWritten(args: Captures, s: string)
    ensures Fillings(args, s) + map[] == Fillings(args, s)
  {
  }

  lemma AddedInOrder(a: map<int, string>, b: map<int, string>, c: map<int, string>)
    ensures (a + b) + c == a + (b + c)
  {
  }

  lemma StepFills(s: string, step: Step, si: nat, args: Captures, control: char)
    requires At(s, si, StepText(step, control))
    ensures Fillings(StepArgs(step, si, args, control), s)
            == Fillings(args, s) + if step.Cap? then map[step.slot := Render(step.w, control)] else map[]
  {
    if step.Cap? { AtSplit(s, si, Render(step.w, control), [step.delimiter]); }
  }

  // Match an instance of a pattern, then substitute into a body: each parameter of the body
  // becomes the text that filled the pattern's parameter with the same digit.
  lemma InstanceSubstituted(s: string, p: string, steps: Steps, semis: bool, control: char, pieces: seq<Piece>)
    requires MatchesAs(s, p, steps, semis, control) && Fits(pieces)
    ensures var m := MatchPattern(s, p, semis, control);
            && m.Matched?
            && Substituted(Spelled(pieces), 0, false, s, m.args) == Filled(pieces, Written(steps, control))
  {
    hide Substituted, Filled;
    var prefix := PrefixLength(p, 0);
    InstanceMatches(s, p, steps, semis, control);
    WrittenCaptured(s, steps, prefix, map[], control);
    var body := Spelled(pieces);
    assert body[0..] == body;
    FillsFrom(body, 0, pieces, s, StepsArgs(steps, prefix, map[], control));
    assert Fillings(map[], s) == map[];
    assert map[] + Written(steps, control) == Written(steps, control);
  }
}
