// How lines are cut from a file's tokens (preprocess/directives.go, preprocess/engine.go), said
// of the tokens: a line reaches to the first token that ends it, and its first words say what
// it is.
module LineCuts {
  import opened Tokens
  import opened Conditionals
  import opened Frames

  // The first token from pos on that ends its line is the one before `end`, or there is none.
  ghost predicate EndsAt(items: seq<Item>, pos: nat, end: nat) {
    && pos <= end <= |items| && (forall k | pos <= k < end - 1 :: !items[k].ends)
    && (pos == end ==> end == |items|) && (end < |items| ==> items[end - 1].ends)
  }

  lemma {:induction false} EndIsFound(items: seq<Item>, pos: nat, end: nat)
    requires pos <= |items|
    ensures EndsAt(items, pos, end) <==> LineEnd(items, pos) == end
    decreases |items| - pos
  {
    if pos < |items| && !items[pos].ends {
      EndIsFound(items, pos + 1, end);
      assert EndsAt(items, pos, end) <==> EndsAt(items, pos + 1, end);
    }
  }

  // A line that starts with no # is plain text up to its end.
  lemma PlainIsCut(items: seq<Item>, pos: nat, end: nat)
    requires pos < |items| && items[pos].tok.kind != Hash && EndsAt(items, pos, end)
    ensures LineCut(items, pos) == Cut(Other(PlainText(Toks(items[pos..end]), items[end - 1].joined)), end)
  {
    EndIsFound(items, pos, end);
  }

  // The directives of conditional compilation.
  datatype Opening = AtIf | AtElseIf | AtElse | AtEndIf
  {
    function Word(): string {
      match this
      case AtIf => "if"
      case AtElseIf => "elseif"
      case AtElse => "else"
      case AtEndIf => "endif"
    }

    function Reads(cond: seq<Tok>): Line {
      match this
      case AtIf => If(cond)
      case AtElseIf => ElseIf(cond)
      case AtElse => Else
      case AtEndIf => EndIf
    }
  }

  // A # and one of their words make that directive, with the rest of the word's line for its
  // condition.
  lemma ConditionalIsCut(items: seq<Item>, pos: nat, d: Opening, end: nat)
    requires pos + 1 < |items| && items[pos].tok.kind == Hash && items[pos + 1].tok.kind != Hash
    requires items[pos + 1].tok.text == d.Word()
    requires if items[pos + 1].ends then end == pos + 2 else EndsAt(items, pos + 2, end)
    ensures pos + 2 <= end && LineCut(items, pos) == Cut(d.Reads(Toks(items[pos + 2..end])), end)
  {
    hide Classify, LineEnd, NamesMacro, EndsAt, PlainCut;
    WordIs(d);
    if items[pos + 1].ends {
      assert end == pos + 2;
    } else {
      EndIsFound(items, pos + 2, end);
      EndsBehind(items, pos + 2, end);
    }
    assert DirectiveEnd(items, pos + 1) == end && Body(items, pos + 1) == pos + 2;
  }

  lemma EndsBehind(items: seq<Item>, pos: nat, end: nat)
    requires EndsAt(items, pos, end)
    ensures pos <= end <= |items|
  {
  }

  lemma WordIs(d: Opening)
    ensures Classify(d.Word()) == match d case AtIf => IfWord case AtElseIf => ElseIfWord
                                          case AtElse => ElseWord case AtEndIf => EndIfWord
  {
  }

  // Any other word makes no conditional.
  lemma OthersAreCut(items: seq<Item>, pos: nat)
    requires pos < |items|
    requires items[pos].tok.kind == Hash && pos + 1 < |items| ==>
               forall d: Opening :: items[pos + 1].tok.text != d.Word()
    ensures LineCut(items, pos).line.Other?
  {
    if pos + 1 < |items| {
      var text := items[pos + 1].tok.text;
      assert items[pos].tok.kind == Hash ==>
          text != AtIf.Word() && text != AtElseIf.Word() && text != AtElse.Word() && text != AtEndIf.Word();
    }
    hide LineEnd, NamesMacro;
  }

  // The lines of a file are its tokens, cut one behind the other.
  lemma LinesAreCuts(items: seq<Item>, pos: nat)
    requires pos < |items|
    ensures Lines(items, pos) == [LineCut(items, pos).line] + Lines(items, LineCut(items, pos).end)
    ensures Lines(items, |items|) == []
  {
    hide LineCut;
  }
}
