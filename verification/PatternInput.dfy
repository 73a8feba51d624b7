// Pattern matching over tokens (preprocess/pattern.go): the text shown to the
// matcher, the tokens a match consumes, and the text that replaces them.
module PatternInput {
  import opened Tokens

  // A token of the expansion pipeline (preprocess/ptok.go), without its positions.
  datatype Ptok = Ptok(kind: Kind, text: string, leading: string, trailing: string,
                       hidden: set<string>, seen: map<string, string>, depth: nat)

  datatype Input = Input(text: string, starts: seq<nat>, ends: seq<nat>, trailingEnds: seq<nat>)

  predicate LineBreak(c: char) { c == '\r' || c == '\n' }

  // The part of the trivia before the first line break.
  function SameLine(trailing: string): (r: string)
    ensures r <= trailing && (r == trailing || LineBreak(trailing[|r|]))
    ensures forall k | 0 <= k < |r| :: !LineBreak(r[k])
  {
    if trailing == "" || LineBreak(trailing[0]) then "" else [trailing[0]] + SameLine(trailing[1..])
  }

  function AddToken(input: Input, t: Ptok): Input {
    var end := |input.text| + |t.text|;
    var kept := SameLine(t.trailing);
    Input(input.text + t.text + kept, input.starts + [|input.text|], input.ends + [end],
          input.trailingEnds + [end + |kept|])
  }

  // The tokens from `index` on are added up to the end of the line.
  function InputFrom(tokens: seq<Ptok>, index: nat, input: Input): Input
    decreases |tokens| - index
  {
    if index >= |tokens| then input
    else if SameLine(tokens[index].trailing) != tokens[index].trailing then AddToken(input, tokens[index])
    else InputFrom(tokens, index + 1, AddToken(input, tokens[index]))
  }

  function MakeInput(tokens: seq<Ptok>, start: nat): Input { InputFrom(tokens, start, Input("", [], [], [])) }

  datatype Consumed = Consumed(count: nat, suffixOffset: int, trailing: nat, aligned: bool)

  function ConsumedFrom(input: Input, end: nat, index: nat, consumed: nat): Consumed
    requires |input.starts| == |input.ends| == |input.trailingEnds|
    decreases |input.ends| - index
  {
    if index >= |input.ends| then Consumed(consumed, -1, 0, consumed > 0 && end <= |input.text|)
    else if input.ends[index] == end then Consumed(index + 1, -1, 0, true)
    else if input.ends[index] > end then
      if end > input.starts[index] then Consumed(index + 1, end - input.starts[index], 0, true)
      else Consumed(consumed, -1, 0, consumed > 0 && end <= input.starts[index])
    else if end <= input.trailingEnds[index] then Consumed(index + 1, -1, end - input.ends[index], true)
    else ConsumedFrom(input, end, index + 1, index + 1)
  }

  // ----- the loops --------------------------------------------------------------

  method MakePatternTokenInput(tokens: seq<Ptok>, start: nat) returns (input: Input)
    ensures input == MakeInput(tokens, start)
  {
    input := Input("", [], [], []);
    var index := start;
    while index < |tokens|
      invariant InputFrom(tokens, index, input) == MakeInput(tokens, start)
    {
      var newline := FirstLineBreak(tokens[index].trailing);
      input := AddToken(input, tokens[index]);
      if newline < |tokens[index].trailing| { break; }
      index := index + 1;
    }
  }

  lemma {:induction false} SameLineIs(text: string, e: nat)
    requires e <= |text| && (forall k | 0 <= k < e :: !LineBreak(text[k])) && (e < |text| ==> LineBreak(text[e]))
    ensures text[..e] == SameLine(text)
    decreases |text|
  {
    if e > 0 {
      SameLineIs(text[1..], e - 1);
      assert text[..e] == [text[0]] + text[1..][..e - 1];
    }
  }

  // The offset of the first line break, or the length of the text.
  method FirstLineBreak(text: string) returns (e: nat)
    ensures e <= |text| && text[..e] == SameLine(text)
  {
    e := 0;
    while e < |text| && !LineBreak(text[e])
      invariant e <= |text|
      invariant forall k | 0 <= k < e :: !LineBreak(text[k])
    {
      e := e + 1;
    }
    SameLineIs(text, e);
  }

  method ConsumedTokens(input: Input, end: nat) returns (r: Consumed)
    requires |input.starts| == |input.ends| == |input.trailingEnds|
    ensures r == ConsumedFrom(input, end, 0, 0)
  {
    var consumed := 0;
    for index := 0 to |input.ends|
      invariant consumed == index
      invariant ConsumedFrom(input, end, index, consumed) == ConsumedFrom(input, end, 0, 0)
    {
      var tokenEnd := input.ends[index];
      if tokenEnd == end { return Consumed(index + 1, -1, 0, true); }
      if tokenEnd > end {
        if end > input.starts[index] { return Consumed(index + 1, end - input.starts[index], 0, true); }
        return Consumed(consumed, -1, 0, consumed > 0 && end <= input.starts[index]);
      }
      if end <= input.trailingEnds[index] { return Consumed(index + 1, -1, end - tokenEnd, true); }
      consumed := index + 1;
    }
    return Consumed(consumed, -1, 0, consumed > 0 && end <= |input.text|);
  }

  // ----- conservation -------------------------------------------------------------

  // The spelling of count tokens, each with its trailing trivia.
  function Spelling(tokens: seq<Ptok>, start: nat, count: nat): string
    requires start + count <= |tokens|
  {
    if count == 0 then ""
    else Spelling(tokens, start, count - 1) + tokens[start + count - 1].text + tokens[start + count - 1].trailing
  }

  // The input describes the first tokens from `start` on, at their offsets; only
  // the last of them may have been cut at a line break.
  ghost predicate DescribesAt(input: Input, tokens: seq<Ptok>, start: nat, k: nat)
    requires k < |input.ends| && |input.starts| == |input.trailingEnds| == |input.ends|
    requires start + |input.ends| <= |tokens|
  {
    && input.starts[k] == |Spelling(tokens, start, k)|
    && input.ends[k] == input.starts[k] + |tokens[start + k].text|
    && input.trailingEnds[k] == input.ends[k] + |SameLine(tokens[start + k].trailing)|
    && input.trailingEnds[k] <= |input.text|
    && input.text[..input.trailingEnds[k]]
       == Spelling(tokens, start, k) + tokens[start + k].text + SameLine(tokens[start + k].trailing)
    && (k + 1 < |input.ends| ==> SameLine(tokens[start + k].trailing) == tokens[start + k].trailing)
  }

  ghost predicate Describes(input: Input, tokens: seq<Ptok>, start: nat) {
    var n := |input.ends|;
    && |input.starts| == |input.trailingEnds| == n && start + n <= |tokens|
    && (forall k | 0 <= k < n :: DescribesAt(input, tokens, start, k))
    && |input.text| == if n == 0 then 0 else input.trailingEnds[n - 1]
  }

  lemma AddDescribed(input: Input, tokens: seq<Ptok>, start: nat)
    requires Describes(input, tokens, start) && start + |input.ends| < |tokens|
    requires input.text == Spelling(tokens, start, |input.ends|)
    requires |input.ends| > 0 ==> var t := tokens[start + |input.ends| - 1]; SameLine(t.trailing) == t.trailing
    ensures Describes(AddToken(input, tokens[start + |input.ends|]), tokens, start)
  {
    hide DescribesAt, Spelling, SameLine;
    var n := |input.ends|;
    var more := AddToken(input, tokens[start + n]);
    forall k | 0 <= k < n + 1 ensures DescribesAt(more, tokens, start, k) {
      if k < n {
        EarlierDescribed(input, tokens, start, k);
      } else {
        LastDescribed(input, tokens, start);
      }
    }
  }

  lemma EarlierDescribed(input: Input, tokens: seq<Ptok>, start: nat, k: nat)
    requires Describes(input, tokens, start) && k < |input.ends| && start + |input.ends| < |tokens|
    requires k == |input.ends| - 1 ==> var t := tokens[start + k]; SameLine(t.trailing) == t.trailing
    ensures DescribesAt(AddToken(input, tokens[start + |input.ends|]), tokens, start, k)
  {
    hide Spelling, SameLine;
    var more := AddToken(input, tokens[start + |input.ends|]);
    assert DescribesAt(input, tokens, start, k);
    assert more.text[..input.trailingEnds[k]] == input.text[..input.trailingEnds[k]];
  }

  lemma LastDescribed(input: Input, tokens: seq<Ptok>, start: nat)
    requires Describes(input, tokens, start) && start + |input.ends| < |tokens|
    requires input.text == Spelling(tokens, start, |input.ends|)
    ensures DescribesAt(AddToken(input, tokens[start + |input.ends|]), tokens, start, |input.ends|)
  {
    var n := |input.ends|;
    var more := AddToken(input, tokens[start + n]);
    assert more.text[..more.trailingEnds[n]] == more.text;
  }

  lemma DescribesLength(input: Input, tokens: seq<Ptok>, start: nat)
    requires Describes(input, tokens, start)
    ensures start + |input.ends| <= |tokens|
  {
  }

  // A token that does not end its line is shown with all its trivia.
  lemma AddSpelled(input: Input, tokens: seq<Ptok>, start: nat)
    requires start + |input.ends| < |tokens| && input.text == Spelling(tokens, start, |input.ends|)
    requires var t := tokens[start + |input.ends|]; SameLine(t.trailing) == t.trailing
    ensures var more := AddToken(input, tokens[start + |input.ends|]);
            |more.ends| == |input.ends| + 1 && more.text == Spelling(tokens, start, |more.ends|)
  {
    hide SameLine;
  }

  lemma {:induction false} InputDescribes(tokens: seq<Ptok>, start: nat, index: nat, input: Input)
    requires start <= index && |input.ends| == index - start && Describes(input, tokens, start)
    requires index <= |tokens| && input.text == Spelling(tokens, start, index - start)
    requires index > start ==> SameLine(tokens[index - 1].trailing) == tokens[index - 1].trailing
    ensures Describes(InputFrom(tokens, index, input), tokens, start)
    decreases |tokens| - index
  {
    hide Describes, SameLine, Spelling, AddToken;
    if index == |tokens| { return; }
    DescribesLength(input, tokens, start);
    AddDescribed(input, tokens, start);
    if SameLine(tokens[index].trailing) == tokens[index].trailing {
      AddSpelled(input, tokens, start);
      InputDescribes(tokens, start, index + 1, AddToken(input, tokens[index]));
    }
  }

  lemma MakeInputDescribes(tokens: seq<Ptok>, start: nat)
    requires start <= |tokens|
    ensures Describes(MakeInput(tokens, start), tokens, start)
  {
    InputDescribes(tokens, start, start, Input("", [], [], []));
  }

  // What consuming up to `end` leaves behind: the rest of a token cut in two,
  // then the trivia that was not consumed.
  function LeftOver(tokens: seq<Ptok>, start: nat, c: Consumed): string
    requires 0 < c.count && start + c.count <= |tokens|
    requires c.suffixOffset <= |tokens[start + c.count - 1].text|
             && c.trailing <= |tokens[start + c.count - 1].trailing|
  {
    var t := tokens[start + c.count - 1];
    (if c.suffixOffset >= 0 then t.text[c.suffixOffset..] else "") + t.trailing[c.trailing..]
  }

  ghost predicate Conserves(tokens: seq<Ptok>, start: nat, input: Input, end: nat, c: Consumed) {
    && c.aligned && 0 < c.count <= |input.ends| && start + c.count <= |tokens| && end <= |input.text|
    && c.suffixOffset <= |tokens[start + c.count - 1].text| && c.trailing <= |tokens[start + c.count - 1].trailing|
    && Spelling(tokens, start, c.count) == input.text[..end] + LeftOver(tokens, start, c)
  }

  lemma CutInText(a: string, b: string, c: string, shown: string, cut: nat)
    requires cut <= |b|
    ensures a + b + c == (a + b + shown)[..|a| + cut] + (b[cut..] + c)
  {
    assert (a + b + shown)[..|a| + cut] == a + b[..cut];
    assert b == b[..cut] + b[cut..];
  }

  lemma CutInTrivia(a: string, b: string, c: string, shown: string, cut: nat)
    requires shown <= c && cut <= |shown|
    ensures a + b + c == (a + b + shown)[..|a| + |b| + cut] + c[cut..]
  {
    assert (a + b + shown)[..|a| + |b| + cut] == a + b + c[..cut];
    assert c == c[..cut] + c[cut..];
  }

  // The three ways a match can end in the k-th token or its trivia.
  lemma ConsumedThere(input: Input, end: nat, k: nat)
    requires |input.starts| == |input.ends| == |input.trailingEnds| && k < |input.ends|
    requires input.starts[k] < end <= input.trailingEnds[k]
    ensures ConsumedFrom(input, end, k, k)
         == if end < input.ends[k] then Consumed(k + 1, end - input.starts[k], 0, true)
            else Consumed(k + 1, -1, end - input.ends[k], true)
  {
  }

  lemma LeftOverIs(tokens: seq<Ptok>, start: nat, k: nat, cut: nat, inText: bool)
    requires start + k < |tokens|
    requires cut <= if inText then |tokens[start + k].text| else |tokens[start + k].trailing|
    ensures inText ==> LeftOver(tokens, start, Consumed(k + 1, cut, 0, true))
                       == tokens[start + k].text[cut..] + tokens[start + k].trailing
    ensures !inText ==> LeftOver(tokens, start, Consumed(k + 1, -1, cut, true)) == tokens[start + k].trailing[cut..]
  {
    assert tokens[start + k].trailing[0..] == tokens[start + k].trailing;
  }

  lemma ConsumedAt(tokens: seq<Ptok>, start: nat, input: Input, end: nat, k: nat)
    requires Describes(input, tokens, start) && k < |input.ends|
    requires input.starts[k] < end <= input.trailingEnds[k]
    ensures Conserves(tokens, start, input, end, ConsumedFrom(input, end, k, k))
  {
    hide Spelling, SameLine, ConsumedFrom, LeftOver;
    assert DescribesAt(input, tokens, start, k);
    ConsumedThere(input, end, k);
    var t := tokens[start + k];
    var before, kept := Spelling(tokens, start, k), SameLine(t.trailing);
    PrefixOfPrefix(input.text, end, input.trailingEnds[k], before + t.text + kept);
    SpellingMore(tokens, start, k);
    var inText := end < input.ends[k];
    var cut := if inText then end - input.starts[k] else end - input.ends[k];
    LeftOverIs(tokens, start, k, cut, inText);
    hide DescribesAt, Describes;
    if inText {
      CutInText(before, t.text, t.trailing, kept, cut);
    } else {
      CutInTrivia(before, t.text, t.trailing, kept, cut);
    }
  }

  lemma PrefixOfPrefix(text: string, e: nat, f: nat, shown: string)
    requires e <= f <= |text| && text[..f] == shown
    ensures text[..e] == shown[..e]
  {
    assert text[..e] == text[..f][..e];
  }

  lemma SpellingMore(tokens: seq<Ptok>, start: nat, k: nat)
    requires start + k < |tokens|
    ensures Spelling(tokens, start, k + 1)
         == Spelling(tokens, start, k) + tokens[start + k].text + tokens[start + k].trailing
  {
  }

  lemma {:induction false} ConsumedConserves(tokens: seq<Ptok>, start: nat, input: Input, end: nat, k: nat)
    requires Describes(input, tokens, start) && k < |input.ends|
    requires input.starts[k] < end <= |input.text|
    ensures Conserves(tokens, start, input, end, ConsumedFrom(input, end, k, k))
    decreases |input.ends| - k
  {
    assert DescribesAt(input, tokens, start, k);
    if end <= input.trailingEnds[k] {
      ConsumedAt(tokens, start, input, end, k);
    } else {
      assert DescribesAt(input, tokens, start, k + 1);
      assert Spelling(tokens, start, k + 1)
          == Spelling(tokens, start, k) + tokens[start + k].text + tokens[start + k].trailing;
      ConsumedConserves(tokens, start, input, end, k + 1);
    }
  }

  // Every non-empty stretch of the shown text ends at a token, inside one, or in
  // the trivia after one, and the consumed tokens spell it and what is left over.
  lemma SpellingConserved(tokens: seq<Ptok>, start: nat, end: nat)
    requires start < |tokens|
    ensures var input := MakeInput(tokens, start);
      && |input.starts| == |input.ends| == |input.trailingEnds|
      && (0 < end <= |input.text| ==> Conserves(tokens, start, input, end, ConsumedFrom(input, end, 0, 0)))
  {
    MakeInputDescribes(tokens, start);
    var input := MakeInput(tokens, start);
    if 0 < end <= |input.text| {
      assert DescribesAt(input, tokens, start, 0);
      ConsumedConserves(tokens, start, input, end, 0);
    }
  }

  ghost predicate EndsItsLine(t: Ptok) { exists j | 0 <= j < |t.trailing| :: LineBreak(t.trailing[j]) }

  // Every token from `start` on is shown, up to the first with a line break behind it.
  lemma {:induction false} ShownToLineEnd(tokens: seq<Ptok>, start: nat, index: nat, input: Input)
    requires start <= index <= |tokens| && |input.ends| == index - start
    requires forall k | start <= k < index :: !EndsItsLine(tokens[k])
    ensures var n := |InputFrom(tokens, index, input).ends|;
            && index - start <= n && start + n <= |tokens|
            && (start + n < |tokens| ==> n > 0 && EndsItsLine(tokens[start + n - 1]))
            && forall k | start <= k < start + n - 1 :: !EndsItsLine(tokens[k])
    decreases |tokens| - index
  {
    if index < |tokens| {
      var trailing := tokens[index].trailing;
      var kept := SameLine(trailing);
      if kept == trailing {
        assert forall j | 0 <= j < |trailing| :: !LineBreak(kept[j]);
        ShownToLineEnd(tokens, start, index + 1, AddToken(input, tokens[index]));
      } else {
        assert LineBreak(trailing[|kept|]);
      }
    }
  }
}
