// Substituting captures into a macro body (preprocess/pattern.go,
// substituteMacroBody), with the segments that map the result to its sources.
module MacroBody {
  import opened Chars
  import opened PatternMatch

  datatype Source = Literal(start: nat, end: nat) | Captured(range: Range)
  datatype Segment = Segment(start: nat, end: nat, source: Source)

  predicate Parameter(body: string, i: nat) {
    i + 1 < |body| && body[i] == '%' && Digit(body[i + 1])
  }

  predicate Usable(args: Captures, slot: int, input: string) {
    slot in args && args[slot].start <= args[slot].end <= |input|
  }

  function SlotAt(body: string, i: nat): int
    requires Parameter(body, i)
  {
    body[i + 1] as int - '0' as int
  }

  // What a parameter outside quotes stands for; one that captured nothing stays as written.
  function ParameterText(body: string, i: nat, input: string, args: Captures): string
    requires Parameter(body, i)
  {
    var slot := SlotAt(body, i);
    if Usable(args, slot, input) then input[args[slot].start..args[slot].end] else body[i..i + 2]
  }

  // The meaning of a body, character by character.
  function Substituted(body: string, i: nat, inString: bool, input: string, args: Captures): string
    requires i <= |body|
    decreases |body| - i
  {
    if i == |body| then ""
    else if !inString && Parameter(body, i) then
      ParameterText(body, i, input, args) + Substituted(body, i + 2, inString, input, args)
    else
      [body[i]] + Substituted(body, i + 1, if body[i] == '"' then !inString else inString, input, args)
  }

  ghost predicate SourceSpells(source: Source, w: string, body: string, input: string) {
    match source
    case Literal(start, end) => start <= end <= |body| && w == body[start..end]
    case Captured(range) => range.start <= range.end <= |input| && w == input[range.start..range.end]
  }

  // The segments are non-empty, adjoin, cover the text, and each spells its source.
  ghost predicate Maps(segments: seq<Segment>, text: string, body: string, input: string) {
    && (if segments == [] then text == "" else segments[0].start == 0 && segments[|segments| - 1].end == |text|)
    && (forall k | 0 <= k < |segments| :: SegmentSpells(segments[k], text, body, input))
    && (forall k | 0 < k < |segments| :: segments[k - 1].end == segments[k].start)
  }

  ghost predicate SegmentSpells(segment: Segment, text: string, body: string, input: string) {
    && segment.start < segment.end <= |text|
    && SourceSpells(segment.source, text[segment.start..segment.end], body, input)
  }

  method AppendText(text: string, segments: seq<Segment>, piece: string, source: Source, ghost body: string,
                    ghost input: string) returns (text': string, segments': seq<Segment>)
    requires Maps(segments, text, body, input) && SourceSpells(source, piece, body, input)
    ensures text' == text + piece && Maps(segments', text', body, input)
  {
    if piece == "" { return text, segments; }
    var segment := Segment(|text|, |text| + |piece|, source);
    text', segments' := text + piece, segments + [segment];
    forall k | 0 <= k < |segments'| ensures SegmentSpells(segments'[k], text', body, input) {
      if k < |segments| {
        assert SegmentSpells(segments[k], text, body, input);
        assert text'[segments[k].start..segments[k].end] == text[segments[k].start..segments[k].end];
      } else {
        assert text'[|text|..|text'|] == piece;
      }
    }
  }

  method SubstituteMacroBody(body: string, input: string, args: Captures)
    returns (text: string, segments: seq<Segment>)
    ensures text == Substituted(body, 0, false, input, args)
    ensures Maps(segments, text, body, input)
  {
    text, segments := "", [];
    var inString, literalStart, index := false, 0, 0;
    ghost var emitted := "";
    ghost var meaning := Substituted(body, 0, false, input, args);
    assert Maps(segments, text, body, input);
    EndOfBody(body, input, args);
    hide Maps, Substituted, ParameterText;
    while index < |body|
      invariant literalStart <= index <= |body|
      invariant emitted == text + body[literalStart..index]
      invariant emitted + Substituted(body, index, inString, input, args) == meaning
      invariant Maps(segments, text, body, input)
    {
      if !inString && index + 1 < |body| && body[index] == '%' && '0' <= body[index + 1] <= '9' {
        text, segments := FlushAndReplace(body, literalStart, index, input, args, text, segments);
        emitted := Replace(body, index, input, args, emitted, text);
        index := index + 2;
        literalStart := index;
      } else {
        emitted := Advance(body, literalStart, index, inString, input, args, emitted, text);
        if body[index] == '"' { inString := !inString; }
        index := index + 1;
      }
    }
    text, segments := FlushLiteral(body, literalStart, |body|, input, text, segments);
  }

  method FlushLiteral(body: string, literalStart: nat, index: nat, ghost input: string, text: string,
                      segments: seq<Segment>) returns (text': string, segments': seq<Segment>)
    requires literalStart <= index <= |body| && Maps(segments, text, body, input)
    ensures text' == text + body[literalStart..index] && Maps(segments', text', body, input)
  {
    text', segments' := AppendText(text, segments, body[literalStart..index], Literal(literalStart, index), body,
        input);
  }

  lemma EndOfBody(body: string, input: string, args: Captures)
    ensures forall inString :: Substituted(body, |body|, inString, input, args) == ""
  {
  }

  // The branch of the loop that meets a parameter outside quotes.
  method FlushAndReplace(body: string, literalStart: nat, index: nat, input: string, args: Captures, text: string,
                         segments: seq<Segment>) returns (text': string, segments': seq<Segment>)
    requires literalStart <= index && Parameter(body, index) && Maps(segments, text, body, input)
    ensures text' == text + body[literalStart..index] + ParameterText(body, index, input, args)
    ensures Maps(segments', text', body, input)
  {
    text', segments' := FlushLiteral(body, literalStart, index, input, text, segments);
    var slot := body[index + 1] as int - '0' as int;
    if slot in args && args[slot].start <= args[slot].end <= |input| {
      text', segments' := AppendText(text', segments', input[args[slot].start..args[slot].end], Captured(args[slot]),
          body, input);
    } else {
      text', segments' := AppendText(text', segments', body[index..index + 2], Literal(index, index + 2), body, input);
    }
  }

  lemma Advance(body: string, from: nat, i: nat, inString: bool, input: string, args: Captures, emitted: string,
                text: string) returns (emitted': string)
    requires from <= i < |body| && (inString || !Parameter(body, i)) && emitted == text + body[from..i]
    ensures emitted' == text + body[from..i + 1]
    ensures emitted + Substituted(body, i, inString, input, args)
         == emitted' + Substituted(body, i + 1, if body[i] == '"' then !inString else inString, input, args)
  {
    var piece := [body[i]];
    var rest := Substituted(body, i + 1, if body[i] == '"' then !inString else inString, input, args);
    assert Substituted(body, i, inString, input, args) == piece + rest;
    hide Substituted;
    emitted' := emitted + piece;
    assert body[from..i + 1] == body[from..i] + piece;
    Reassociate(text, body[from..i], piece);
    Reassociate(emitted, piece, rest);
  }

  lemma Replace(body: string, i: nat, input: string, args: Captures, emitted: string, text: string)
    returns (emitted': string)
    requires Parameter(body, i) && text == emitted + ParameterText(body, i, input, args)
    ensures emitted' == text + body[i + 2..i + 2]
    ensures emitted + Substituted(body, i, false, input, args)
            == emitted' + Substituted(body, i + 2, false, input, args)
  {
    var piece, rest := ParameterText(body, i, input, args), Substituted(body, i + 2, false, input, args);
    assert Substituted(body, i, false, input, args) == piece + rest;
    hide Substituted, ParameterText;
    emitted' := text;
    assert body[i + 2..i + 2] == "" && text + "" == text;
    Reassociate(emitted, piece, rest);
  }

  // Quoted text is copied as it stands.
  lemma {:induction false} QuotedUnchanged(body: string, i: nat, j: nat, input: string, args: Captures)
    requires i <= j < |body| && body[j] == '"' && forall k | i <= k < j :: body[k] != '"'
    ensures Substituted(body, i, true, input, args)
         == body[i..j + 1] + Substituted(body, j + 1, false, input, args)
    decreases j - i
  {
    hide Parameter, ParameterText;
    if i < j {
      QuotedUnchanged(body, i + 1, j, input, args);
      assert body[i..j + 1] == [body[i]] + body[i + 1..j + 1];
    }
  }

  // A body without captured parameters is copied as it stands.
  lemma {:induction false} NothingCaptured(body: string, i: nat, inString: bool, input: string, args: Captures)
    requires i <= |body| && forall slot | slot in args :: !Usable(args, slot, input)
    ensures Substituted(body, i, inString, input, args) == body[i..]
    decreases |body| - i
  {
    if i < |body| {
      if !inString && Parameter(body, i) {
        NothingCaptured(body, i + 2, inString, input, args);
        assert body[i..] == body[i..i + 2] + body[i + 2..];
      } else {
        NothingCaptured(body, i + 1, if body[i] == '"' then !inString else inString, input, args);
        assert body[i..] == [body[i]] + body[i + 1..];
      }
    }
  }
}
