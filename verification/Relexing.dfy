// A token's text, lexed on its own, is that token again (lexer/scanner.go and the scanning
// files beside it): no token looks at what stands behind it to decide what it is.
module Relexing {
  import opened Chars
  import opened Scanning

  // t is the part of src between two offsets.
  datatype Cut = Cut(src: string, start: nat, end: nat)
  {
    ghost predicate Valid() { start <= end <= |src| }

    function Text(): (t: string)
      requires Valid()
      ensures |t| == end - start
    {
      src[start..end]
    }
  }

  lemma PeekCut(c: Cut, pos: nat)
    requires c.Valid() && c.start <= pos
    ensures Peek(c.Text(), pos - c.start) == if pos < c.end then Peek(c.src, pos) else '\0'
  {
  }

  lemma {:induction false} RunCut(c: Cut, pos: nat, k: Class)
    requires c.Valid() && c.start <= pos && pos <= |c.src| && RunEnd(c.src, pos, k) <= c.end
    ensures RunEnd(c.Text(), pos - c.start, k) == RunEnd(c.src, pos, k) - c.start
    decreases |c.src| - pos
  {
    PeekCut(c, pos);
    if In(Peek(c.src, pos), k) && pos < c.end { RunCut(c, pos + 1, k); }
  }

  lemma {:induction false} DigitsCut(c: Cut, pos: nat, k: Class)
    requires c.Valid() && c.start <= pos && pos <= |c.src| && DigitsEnd(c.src, pos, k) <= c.end
    ensures DigitsEnd(c.Text(), pos - c.start, k) == DigitsEnd(c.src, pos, k) - c.start
    decreases |c.src| - pos
  {
    PeekCut(c, pos);
    PeekCut(c, pos + 1);
    if In(Peek(c.src, pos), k) || (Peek(c.src, pos) == '_' && In(Peek(c.src, pos + 1), k)) {
      DigitsCut(c, pos + 1, k);
    }
  }

  lemma {:induction false} LineCommentCut(c: Cut, pos: nat)
    requires c.Valid() && c.start <= pos <= |c.src| && LineCommentEnd(c.src, pos) == c.end
    ensures LineCommentEnd(c.Text(), pos - c.start) == c.end - c.start
    decreases |c.src| - pos
  {
    if pos < |c.src| && c.src[pos] != '\n' && c.src[pos] != '\r' { LineCommentCut(c, pos + 1); }
  }

  lemma {:induction false} BlockCommentCut(c: Cut, pos: nat)
    requires c.Valid() && c.start <= pos <= |c.src| && BlockCommentEnd(c.src, pos) == c.end
    ensures BlockCommentEnd(c.Text(), pos - c.start) == c.end - c.start
    decreases |c.src| - pos
  {
    PeekCut(c, pos + 1);
    if pos < |c.src| && !(c.src[pos] == '*' && Peek(c.src, pos + 1) == '/') { BlockCommentCut(c, pos + 1); }
  }

  lemma {:induction false} QuotedCut(c: Cut, pos: nat, quote: char)
    requires c.Valid() && c.start <= pos <= |c.src| && QuotedEnd(c.src, pos, quote).end == c.end
    ensures QuotedEnd(c.Text(), pos - c.start, quote) == Quoted(c.end - c.start, QuotedEnd(c.src, pos, quote).closed)
    decreases |c.src| - pos
  {
    if pos == |c.src| || c.src[pos] == '\n' { return; }
    if c.src[pos] == '\\' {
      QuotedCut(c, if pos + 1 < |c.src| then pos + 2 else pos + 1, quote);
    } else if c.src[pos] != quote {
      QuotedCut(c, pos + 1, quote);
    }
  }

  lemma FractionCut(c: Cut, pos: nat)
    requires c.Valid() && c.start <= pos <= |c.src| && FractionEnd(c.src, pos) <= c.end
    ensures FractionEnd(c.Text(), pos - c.start) == FractionEnd(c.src, pos) - c.start
  {
    PeekCut(c, pos);
    PeekCut(c, pos + 1);
    if Peek(c.src, pos) == '.' && Digit(Peek(c.src, pos + 1)) { DigitsCut(c, pos + 1, Decimal); }
  }

  lemma ExponentCut(c: Cut, pos: nat)
    requires c.Valid() && c.start <= pos <= |c.src| && ExponentEnd(c.src, pos) == c.end
    ensures ExponentEnd(c.Text(), pos - c.start) == c.end - c.start
  {
    PeekCut(c, pos);
    PeekCut(c, pos + 1);
    PeekCut(c, pos + 2);
    var sign := Peek(c.src, pos + 1) == '+' || Peek(c.src, pos + 1) == '-';
    var first := if sign then pos + 2 else pos + 1;
    if (Peek(c.src, pos) == 'e' || Peek(c.src, pos) == 'E') && Digit(Peek(c.src, first)) {
      DigitsCut(c, first, Decimal);
    }
  }

  lemma NumberCut(c: Cut)
    requires c.Valid() && c.start < |c.src|
    requires Digit(c.src[c.start]) || (c.src[c.start] == '.' && Digit(Peek(c.src, c.start + 1)))
    requires ScanNumber(c.src, c.start).end == c.end
    ensures c.Text() != [] && (Digit(c.Text()[0]) || (c.Text()[0] == '.' && Digit(Peek(c.Text(), 1))))
    ensures ScanNumber(c.Text(), 0) == Scanned(ScanNumber(c.src, c.start).kind, c.end - c.start)
  {
    hide DigitsEnd, FractionEnd, ExponentEnd;
    PeekCut(c, c.start + 1);
    var first, x := c.src[c.start], Peek(c.src, c.start + 1);
    if first == '0' && (x == 'x' || x == 'X') {
      DigitsCut(c, c.start + 2, Hexadecimal);
    } else if first == '0' && (x == 'b' || x == 'B') {
      DigitsCut(c, c.start + 2, Binary);
    } else {
      var whole := DigitsEnd(c.src, c.start, Decimal);
      var point := FractionEnd(c.src, whole);
      DigitsCut(c, c.start, Decimal);
      FractionCut(c, whole);
      ExponentCut(c, point);
      if first == '.' { PointFirst(c.src, c.start); }
    }
  }

  lemma PointFirst(src: string, pos: nat)
    requires pos < |src| && src[pos] == '.' && Digit(Peek(src, pos + 1))
    ensures DigitsEnd(src, pos, Decimal) == pos && pos + 2 <= FractionEnd(src, pos)
  {
    assert In(Peek(src, pos + 1), Decimal) && !In('.', Decimal);
  }

  lemma OperatorCut(c: Cut)
    requires c.Valid() && c.start < |c.src| && ScanOperator(c.src, c.start).end == c.end
    ensures c.Text() != [] && ScanOperator(c.Text(), 0) == Scanned(ScanOperator(c.src, c.start).kind, c.end - c.start)
  {
    hide MultiOperator, SingleOperator;
    PeekCut(c, c.start + 1);
    PeekCut(c, c.start + 2);
    PeekCut(c, c.start + 3);
    MultiCut(c.src[c.start], Peek(c.src, c.start + 1), Peek(c.src, c.start + 2), Peek(c.src, c.start + 3));
  }

  // An operator is decided by its own characters: NULs behind it change nothing.
  lemma MultiCut(a: char, b: char, c: char, d: char)
    ensures var m := MultiOperator(a, b, c, d);
            if m.None? then MultiOperator(a, '\0', '\0', '\0').None?
            else 1 < m.value.0 <= 4
                 && MultiOperator(a, b, if m.value.0 > 2 then c else '\0', if m.value.0 > 3 then d else '\0') == m
  {
  }

  lemma WordCut(c: Cut)
    requires c.Valid() && c.start < |c.src| && PawnAlpha(c.src[c.start]) && ScanWord(c.src, c.start).end == c.end
    ensures c.Text() != [] && PawnAlpha(c.Text()[0])
    ensures ScanWord(c.Text(), 0) == Scanned(ScanWord(c.src, c.start).kind, c.end - c.start)
  {
    hide LookupKeyword;
    RunCut(c, c.start, Word);
    assert c.Text()[0..|c.Text()|] == c.Text();
  }

  lemma RunStarts(src: string, pos: nat, k: Class)
    requires pos < |src| && In(src[pos], k)
    ensures pos + 1 <= RunEnd(src, pos, k)
  {
  }

  // Every token of every source.
  lemma TokenAlone(src: string, pos: nat)
    requires pos < |src|
    ensures var r := Scan(src, pos);
            Scan(src[pos..r.end], 0) == Scanned(r.kind, r.end - pos)
  {
    hide RunEnd, ScanNumber, ScanWord, ScanOperator, LineCommentEnd, BlockCommentEnd, QuotedEnd;
    var r := Scan(src, pos);
    var c := Cut(src, pos, r.end);
    var first, next := src[pos], Peek(src, pos + 1);
    PeekCut(c, pos + 1);
    PeekCut(c, pos + 2);
    if In(first, Blanks) { RunCut(c, pos, Blanks); }
    else if first == '\n' || ContinuesLine(src, pos) {}
    else if first == '/' && next == '/' { LineCommentCut(c, pos + 2); }
    else if first == '/' && next == '*' { BlockCommentCut(c, pos + 2); }
    else if PawnAlpha(first) { WordCut(c); }
    else if Digit(first) || (first == '.' && Digit(next)) { NumberCut(c); }
    else if first == '"' { QuotedCut(c, pos + 1, '"'); }
    else if first == '\'' { QuotedCut(c, pos + 1, '\''); }
    else if first == '!' && next == '"' { QuotedCut(c, pos + 2, '"'); }
    else if first == '%' && (Digit(next) || next == '%') {
      if next != '%' {
        RunStarts(src, pos + 1, Decimal);
        RunCut(c, pos + 1, Decimal);
      }
    } else { OperatorCut(c); }
  }
}
