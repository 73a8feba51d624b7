// What the text of each sort of token looks like (lexer/scanner.go and the scanning files
// beside it), said of the text alone: the scanner reads a token of that sort if and only if
// such a text stands there.
module TokenShapes {
  import opened Chars
  import opened Tokens
  import opened Scanning

  // ----- string and character literals ----------------------------------------------------------

  // A character of a literal: one that stands for itself, or a backslash with any character.
  datatype Part = Plain(c: char) | Pair(c: char)

  function PartText(p: Part): string { if p.Plain? then [p.c] else ['\\', p.c] }

  function Spelled(parts: seq<Part>): string {
    if parts == [] then "" else PartText(parts[0]) + Spelled(parts[1..])
  }

  ghost predicate Inside(parts: seq<Part>, quote: char) {
    forall k | 0 <= k < |parts| && parts[k].Plain? ::
      parts[k].c != quote && parts[k].c != '\\' && parts[k].c != '\n'
  }

  // From `first` on there are such characters, then the quote, and it ends there.
  ghost predicate ClosedBy(src: string, first: nat, parts: seq<Part>, quote: char, end: nat) {
    Inside(parts, quote) && At(src, first, Spelled(parts) + [quote]) && end == first + |Spelled(parts)| + 1
  }

  // There are such characters up to a newline or the end, or up to a backslash that ends the text.
  ghost predicate OpenUpTo(src: string, first: nat, parts: seq<Part>, quote: char, end: nat) {
    && Inside(parts, quote) && At(src, first, Spelled(parts))
    && var e := first + |Spelled(parts)|;
       if e < |src| && src[e] == '\\' then end == e + 1 == |src| else end == e && (e < |src| ==> src[e] == '\n')
  }

  lemma SpelledMore(p: Part, parts: seq<Part>)
    ensures Spelled([p] + parts) == PartText(p) + Spelled(parts)
  {
    assert ([p] + parts)[1..] == parts;
  }

  // What is read behind an opening quote.
  lemma {:induction false} ReadsParts(src: string, first: nat, quote: char) returns (parts: seq<Part>)
    requires first <= |src| && quote != '\\' && quote != '\n'
    ensures var q := QuotedEnd(src, first, quote);
            if q.closed then ClosedBy(src, first, parts, quote, q.end) else OpenUpTo(src, first, parts, quote, q.end)
    decreases |src| - first
  {
    parts := [];
    if first == |src| || src[first] == '\n' || src[first] == quote || (src[first] == '\\' && first + 1 == |src|) {
      assert At(src, first, Spelled([]));
      AtOne(src, first, quote);
      return;
    }
    var p := if src[first] == '\\' then Pair(src[first + 1]) else Plain(src[first]);
    var text := PartText(p);
    assert At(src, first, text);
    var rest := ReadsParts(src, first + |text|, quote);
    parts := [p] + rest;
    hide At;
    SpelledMore(p, rest);
    PartBefore(src, first, p, rest, quote);
  }

  lemma PartBefore(src: string, first: nat, p: Part, rest: seq<Part>, quote: char)
    requires At(src, first, PartText(p)) && (p.Plain? ==> Inside([p], quote))
    ensures forall end | ClosedBy(src, first + |PartText(p)|, rest, quote, end) ::
              ClosedBy(src, first, [p] + rest, quote, end)
    ensures forall end | OpenUpTo(src, first + |PartText(p)|, rest, quote, end) ::
              OpenUpTo(src, first, [p] + rest, quote, end)
  {
    hide At, PartText;
    SpelledMore(p, rest);
    var next := first + |PartText(p)|;
    Reassociate(PartText(p), Spelled(rest), [quote]);
    if At(src, next, Spelled(rest) + [quote]) { AtJoin(src, first, PartText(p), Spelled(rest) + [quote]); }
    if At(src, next, Spelled(rest)) { AtJoin(src, first, PartText(p), Spelled(rest)); }
  }

  // And where they stand they are read.
  lemma {:induction false} PartsRead(src: string, first: nat, parts: seq<Part>, quote: char, end: nat)
    requires quote != '\\' && quote != '\n'
    requires ClosedBy(src, first, parts, quote, end) || OpenUpTo(src, first, parts, quote, end)
    ensures first <= |src|
    ensures ClosedBy(src, first, parts, quote, end) ==> QuotedEnd(src, first, quote) == Quoted(end, true)
    ensures OpenUpTo(src, first, parts, quote, end) ==> QuotedEnd(src, first, quote) == Quoted(end, false)
    decreases |parts|
  {
    if parts == [] {
      AtOne(src, first, quote);
      assert [] + [quote] == [quote];
      return;
    }
    var p, rest := parts[0], parts[1..];
    assert parts == [p] + rest;
    PartAfter(src, first, p, rest, quote, end);
    PartRead(src, first, p, quote);
    hide At, ClosedBy, OpenUpTo, PartText, QuotedEnd;
    PartsRead(src, first + |PartText(p)|, rest, quote, end);
  }

  lemma PartRead(src: string, first: nat, p: Part, quote: char)
    requires quote != '\\' && quote != '\n' && At(src, first, PartText(p)) && Inside([p], quote)
    ensures first + |PartText(p)| <= |src|
    ensures QuotedEnd(src, first, quote) == QuotedEnd(src, first + |PartText(p)|, quote)
  {
    AtIndex(src, first, PartText(p), 0);
    assert p.Plain? ==> [p][0].c != quote && [p][0].c != '\\' && [p][0].c != '\n';
  }

  lemma PartAfter(src: string, first: nat, p: Part, rest: seq<Part>, quote: char, end: nat)
    ensures var next, all := first + |PartText(p)|, [p] + rest;
            && (ClosedBy(src, first, all, quote, end) ==>
                  At(src, first, PartText(p)) && Inside([p], quote) && ClosedBy(src, next, rest, quote, end))
            && (OpenUpTo(src, first, all, quote, end) ==>
                  At(src, first, PartText(p)) && Inside([p], quote) && OpenUpTo(src, next, rest, quote, end))
  {
    hide At, PartText;
    SpelledMore(p, rest);
    InsideBoth(p, rest, quote);
    Reassociate(PartText(p), Spelled(rest), [quote]);
    if At(src, first, PartText(p) + (Spelled(rest) + [quote])) {
      AtSplit(src, first, PartText(p), Spelled(rest) + [quote]);
    }
    if At(src, first, PartText(p) + Spelled(rest)) { AtSplit(src, first, PartText(p), Spelled(rest)); }
  }

  lemma InsideBoth(p: Part, rest: seq<Part>, quote: char)
    ensures Inside([p] + rest, quote) ==> Inside([p], quote) && Inside(rest, quote)
  {
    var all := [p] + rest;
    assert all[0] == p && all[1..] == rest;
    assert forall k | 0 <= k < |rest| :: all[k + 1] == rest[k];
  }

  // A closed literal from `first` on, and one that is not.
  ghost predicate Closed(src: string, first: nat, quote: char, end: nat) {
    exists parts :: ClosedBy(src, first, parts, quote, end)
  }

  ghost predicate Open(src: string, first: nat, quote: char, end: nat) {
    exists parts :: OpenUpTo(src, first, parts, quote, end)
  }

  // How each sort of literal starts.
  predicate Starts(src: string, pos: nat, first: nat, quote: char, kind: Kind) {
    pos < |src| &&
    match kind
    case StringLiteral => quote == '"' && src[pos] == '"' && first == pos + 1
    case CharLiteral => quote == '\'' && src[pos] == '\'' && first == pos + 1
    case PackedString => quote == '"' && src[pos] == '!' && first == pos + 2 <= |src| && src[pos + 1] == '"'
    case _ => false
  }

  // Where a literal starts, one is read up to `end` if and only if it is closed there; and an
  // unknown token up to `end` if and only if it is not closed and its line or the text ends there.
  lemma LiteralExactly(src: string, pos: nat, first: nat, quote: char, kind: Kind, end: nat)
    requires Starts(src, pos, first, quote, kind)
    ensures Scan(src, pos) == Scanned(kind, end) <==> Closed(src, first, quote, end)
    ensures Scan(src, pos) == Scanned(Unknown, end) <==> Open(src, first, quote, end)
    ensures Scan(src, pos).kind == kind || Scan(src, pos).kind == Unknown
  {
    hide Scan, QuotedEnd, ClosedBy, OpenUpTo;
    LiteralScanned(src, pos, first, quote, kind);
    var parts := ReadsParts(src, first, quote);
    forall others | ClosedBy(src, first, others, quote, end)
      ensures QuotedEnd(src, first, quote) == Quoted(end, true)
    {
      PartsRead(src, first, others, quote, end);
    }
    forall others | OpenUpTo(src, first, others, quote, end)
      ensures QuotedEnd(src, first, quote) == Quoted(end, false)
    {
      PartsRead(src, first, others, quote, end);
    }
  }

  lemma LiteralScanned(src: string, pos: nat, first: nat, quote: char, kind: Kind)
    requires Starts(src, pos, first, quote, kind)
    ensures quote != '\\' && quote != '\n' && pos < first <= |src| && kind != EOF && kind != Unknown
    ensures var q := QuotedEnd(src, first, quote); Scan(src, pos) == Scanned(if q.closed then kind else Unknown, q.end)
  {
    hide ScanWord, ScanNumber, ScanOperator, QuotedEnd, RunEnd, LineCommentEnd, BlockCommentEnd;
  }

  lemma OthersAreNone(src: string, pos: nat)
    requires pos < |src|
    ensures PawnAlpha(src[pos]) ==> !Literal(ScanWord(src, pos).kind)
    ensures !Literal(ScanOperator(src, pos).kind)
  {
  }

  predicate Literal(k: Kind) { k.StringLiteral? || k.CharLiteral? || k.PackedString? }

  // Literals are read nowhere else.
  lemma LiteralsStart(src: string, pos: nat)
    requires pos <= |src|
    ensures var k := Scan(src, pos).kind;
            Literal(k) ==> exists first, quote :: Starts(src, pos, first, quote, k)
  {
    hide QuotedEnd, ScanWord, ScanNumber, ScanOperator, RunEnd, LineCommentEnd, BlockCommentEnd;
    if pos < |src| { OthersAreNone(src, pos); }
    var k := Scan(src, pos).kind;
    if pos < |src| && k == StringLiteral && src[pos] == '"' { assert Starts(src, pos, pos + 1, '"', k); }
    if pos < |src| && k == CharLiteral && src[pos] == '\'' { assert Starts(src, pos, pos + 1, '\'', k); }
    if pos < |src| && k == PackedString && src[pos] == '!' { assert Starts(src, pos, pos + 2, '"', k); }
  }

  // ----- comments and blanks ----------------------------------------------------------------------

  predicate LineEndAt(src: string, i: nat) { i < |src| && (src[i] == '\n' || src[i] == '\r') }

  // A line comment reaches to the end of its line, or of the text.
  lemma LineCommentExactly(src: string, pos: nat, end: nat)
    requires pos + 1 < |src| && src[pos] == '/' && src[pos + 1] == '/'
    ensures Scan(src, pos) == Scanned(Comment, end) <==>
            && pos + 2 <= end <= |src| && (end < |src| ==> LineEndAt(src, end))
            && forall i | pos + 2 <= i < end :: !LineEndAt(src, i)
  {
    LineCommentUpTo(src, pos + 2);
    assert Scan(src, pos) == Scanned(Comment, LineCommentEnd(src, pos + 2)) by { hide LineCommentEnd; }
    hide LineCommentEnd, Scan;
    var e := LineCommentEnd(src, pos + 2);
    var here, there := LineEndAt(src, end), LineEndAt(src, e);
  }

  lemma {:induction false} LineCommentUpTo(src: string, pos: nat)
    requires pos <= |src|
    ensures var e := LineCommentEnd(src, pos);
            (e < |src| ==> LineEndAt(src, e)) && forall i | pos <= i < e :: !LineEndAt(src, i)
    decreases |src| - pos
  {
    if pos < |src| && !LineEndAt(src, pos) { LineCommentUpTo(src, pos + 1); }
  }

  predicate CloseAt(src: string, i: nat) { i + 1 < |src| && src[i] == '*' && src[i + 1] == '/' }

  // A block comment ends behind the first closing mark, or with the text where there is none.
  ghost predicate BlockUpTo(src: string, inside: nat, end: nat) {
    && inside <= end <= |src|
    && if end >= inside + 2 && CloseAt(src, end - 2) then forall i | inside <= i < end - 2 :: !CloseAt(src, i)
       else end == |src| && forall i | inside <= i :: !CloseAt(src, i)
  }

  lemma BlockCommentExactly(src: string, pos: nat, end: nat)
    requires pos + 1 < |src| && src[pos] == '/' && src[pos + 1] == '*'
    ensures Scan(src, pos) == Scanned(Comment, end) <==> BlockUpTo(src, pos + 2, end)
  {
    BlockCommentUpTo(src, pos + 2);
    assert Scan(src, pos) == Scanned(Comment, BlockCommentEnd(src, pos + 2)) by { hide BlockCommentEnd; }
    hide BlockCommentEnd, Scan;
    var e := BlockCommentEnd(src, pos + 2);
    var here, there := end >= 2 && CloseAt(src, end - 2), e >= 2 && CloseAt(src, e - 2);
  }

  lemma {:induction false} BlockCommentUpTo(src: string, pos: nat)
    requires pos <= |src|
    ensures BlockUpTo(src, pos, BlockCommentEnd(src, pos))
    decreases |src| - pos
  {
    if pos < |src| && !CloseAt(src, pos) { BlockCommentUpTo(src, pos + 1); }
  }

  predicate BlankAt(src: string, i: nat) { i < |src| && (src[i] == ' ' || src[i] == '\t' || src[i] == '\r') }

  lemma BlanksExactly(src: string, pos: nat, end: nat)
    requires BlankAt(src, pos)
    ensures Scan(src, pos) == Scanned(Whitespace, end) <==>
            pos < end <= |src| && !BlankAt(src, end) && forall i | pos <= i < end :: BlankAt(src, i)
  {
    var e := RunEnd(src, pos, Blanks);
    BlanksUpTo(src, pos);
    assert Scan(src, pos) == Scanned(Whitespace, e) by { hide RunEnd; }
    hide RunEnd, Scan;
  }

  lemma {:induction false} BlanksUpTo(src: string, pos: nat)
    requires pos <= |src|
    ensures var e := RunEnd(src, pos, Blanks); !BlankAt(src, e) && forall i | pos <= i < e :: BlankAt(src, i)
    decreases |src| - pos
  {
    if BlankAt(src, pos) { BlanksUpTo(src, pos + 1); }
  }

  // A line end outside comments and literals is a token of its own; behind a backslash it
  // continues the line.
  lemma LineEndsExactly(src: string, pos: nat, end: nat)
    requires pos <= |src|
    ensures Scan(src, pos) == Scanned(Newline, end) <==> At(src, pos, "\n") && end == pos + 1
    ensures Scan(src, pos) == Scanned(LineContinuation, end) <==>
            || (At(src, pos, "\\\n") && end == pos + 2) || (At(src, pos, "\\\r\n") && end == pos + 3)
  {
    hide Scan;
    if pos < |src| {
      LineEndScanned(src, pos);
      AtOne(src, pos, '\n');
      assert pos + 1 < |src| ==> src[pos..pos + 2] == [src[pos], src[pos + 1]];
      assert pos + 2 < |src| ==> src[pos..pos + 3] == [src[pos], src[pos + 1], src[pos + 2]];
    }
  }

  lemma LineEndScanned(src: string, pos: nat)
    requires pos < |src|
    ensures var r := Scan(src, pos);
            if src[pos] == '\n' then r == Scanned(Newline, pos + 1)
            else if ContinuesLine(src, pos) then
              r == Scanned(LineContinuation, if Peek(src, pos + 1) == '\n' then pos + 2 else pos + 3)
            else !EndsLine(r.kind)
  {
    hide RunEnd, LineCommentEnd, BlockCommentEnd, ScanWord, ScanNumber, ScanQuoted, ScanOperator;
    NoLineEnds(src, pos);
    QuotedKinds(src, pos);
  }

  lemma QuotedKinds(src: string, pos: nat)
    requires pos < |src|
    ensures var a, b := ScanQuoted(src, pos, pos + 1, '"', StringLiteral).kind,
                ScanQuoted(src, pos, pos + 1, '\'', CharLiteral).kind;
            (a == StringLiteral || a == Unknown) && (b == CharLiteral || b == Unknown)
    ensures pos + 1 < |src| ==>
              var c := ScanQuoted(src, pos, pos + 2, '"', PackedString).kind; c == PackedString || c == Unknown
  {
    hide QuotedEnd;
  }

  predicate EndsLine(k: Kind) { k.Newline? || k.LineContinuation? }

  lemma NoLineEnds(src: string, pos: nat)
    requires pos < |src|
    ensures PawnAlpha(src[pos]) ==> !EndsLine(ScanWord(src, pos).kind)
    ensures Digit(src[pos]) || (src[pos] == '.' && Digit(Peek(src, pos + 1))) ==> !EndsLine(ScanNumber(src, pos).kind)
    ensures !EndsLine(ScanOperator(src, pos).kind)
  {
    hide QuotedEnd, RunEnd;
  }

  // ----- numbers ------------------------------------------------------------------------------------

  // A digit, or one underscore in front of a digit.
  predicate DigitAt(src: string, i: nat, k: Class) {
    i < |src| && (In(src[i], k) || (src[i] == '_' && i + 1 < |src| && In(src[i + 1], k)))
  }

  // Digits from a to b and no further.
  ghost predicate Stretch(src: string, a: nat, b: nat, k: Class) {
    a <= b <= |src| && (forall i | a <= i < b :: DigitAt(src, i, k)) && !DigitAt(src, b, k)
  }

  predicate PlainDigitAt(src: string, i: nat) { i < |src| && '0' <= src[i] <= '9' }

  predicate OneOf(src: string, i: nat, a: char, b: char) { i < |src| && (src[i] == a || src[i] == b) }

  // From the whole part, which ends at w: a point and digits up to f, if a digit stands behind it.
  ghost predicate Fraction(src: string, w: nat, f: nat) {
    if w < |src| && src[w] == '.' && PlainDigitAt(src, w + 1) then Stretch(src, w + 1, f, Decimal) else f == w
  }

  // An e, perhaps a sign, and digits, if there are any.
  ghost predicate Exponent(src: string, f: nat, end: nat) {
    var first := if OneOf(src, f + 1, '+', '-') then f + 2 else f + 1;
    if OneOf(src, f, 'e', 'E') && PlainDigitAt(src, first) then Stretch(src, first, end, Decimal) else end == f
  }

  ghost predicate DecimalUpTo(src: string, pos: nat, kind: Kind, w: nat, f: nat, end: nat) {
    && Stretch(src, pos, w, Decimal) && Fraction(src, w, f) && Exponent(src, f, end)
    && kind == (if f == w && end == f then IntLiteral else FloatLiteral)
  }

  ghost predicate NumberUpTo(src: string, pos: nat, kind: Kind, end: nat) {
    if OneOf(src, pos, '0', '0') && OneOf(src, pos + 1, 'x', 'X') then
      kind == IntLiteral && Stretch(src, pos + 2, end, Hexadecimal)
    else if OneOf(src, pos, '0', '0') && OneOf(src, pos + 1, 'b', 'B') then
      kind == IntLiteral && Stretch(src, pos + 2, end, Binary)
    else exists w: nat, f: nat :: DecimalUpTo(src, pos, kind, w, f, end)
  }

  // Where a number starts, it is read with this kind and end if and only if it is this number.
  lemma NumberExactly(src: string, pos: nat, kind: Kind, end: nat)
    requires PlainDigitAt(src, pos) || (OneOf(src, pos, '.', '.') && PlainDigitAt(src, pos + 1))
    ensures Scan(src, pos) == Scanned(kind, end) <==> NumberUpTo(src, pos, kind, end)
  {
    hide Scan, DigitsEnd, Stretch, In, DecimalUpTo, FractionEnd, ExponentEnd, ScanNumber;
    NumberScanned(src, pos);
    NumberCases(src, pos);
    if pos + 2 <= |src| {
      StretchOnly(src, pos + 2, end, Hexadecimal);
      StretchOnly(src, pos + 2, end, Binary);
    }
    DecimalExactly(src, pos, kind, end);
  }

  lemma NumberScanned(src: string, pos: nat)
    requires PlainDigitAt(src, pos) || (OneOf(src, pos, '.', '.') && PlainDigitAt(src, pos + 1))
    ensures Scan(src, pos) == ScanNumber(src, pos)
  {
    hide ScanNumber, ScanOperator, ScanWord, ScanQuoted, RunEnd, LineCommentEnd, BlockCommentEnd;
  }

  lemma NumberCases(src: string, pos: nat)
    requires PlainDigitAt(src, pos) || (OneOf(src, pos, '.', '.') && PlainDigitAt(src, pos + 1))
    ensures var zero := OneOf(src, pos, '0', '0');
            if zero && OneOf(src, pos + 1, 'x', 'X') then
              ScanNumber(src, pos) == Scanned(IntLiteral, DigitsEnd(src, pos + 2, Hexadecimal))
            else if zero && OneOf(src, pos + 1, 'b', 'B') then
              ScanNumber(src, pos) == Scanned(IntLiteral, DigitsEnd(src, pos + 2, Binary))
            else
              var w := DigitsEnd(src, pos, Decimal);
              var e := ExponentEnd(src, FractionEnd(src, w));
              ScanNumber(src, pos) == Scanned(if e > w then FloatLiteral else IntLiteral, e)
  {
    hide DigitsEnd, FractionEnd, ExponentEnd;
  }

  // Digits reach exactly one end.
  lemma StretchOnly(src: string, a: nat, b: nat, k: Class)
    requires a <= |src|
    ensures Stretch(src, a, b, k) <==> b == DigitsEnd(src, a, k)
  {
    DigitsStretch(src, a, k);
    hide DigitsEnd, In;
    var e := DigitsEnd(src, a, k);
    var here, there := DigitAt(src, b, k), DigitAt(src, e, k);
  }

  lemma {:induction false} DigitsStretch(src: string, a: nat, k: Class)
    requires a <= |src|
    ensures Stretch(src, a, DigitsEnd(src, a, k), k)
    decreases |src| - a
  {
    assert DigitAt(src, a, k) <==> In(Peek(src, a), k) || (Peek(src, a) == '_' && In(Peek(src, a + 1), k));
    hide In;
    if DigitAt(src, a, k) { DigitsStretch(src, a + 1, k); }
  }

  lemma FractionOnly(src: string, w: nat, f: nat)
    requires w <= |src|
    ensures Fraction(src, w, f) <==> f == FractionEnd(src, w)
    ensures FractionEnd(src, w) <= |src|
  {
    hide Stretch, DigitsEnd;
    if w + 1 <= |src| { StretchOnly(src, w + 1, f, Decimal); }
  }

  lemma ExponentOnly(src: string, f: nat, end: nat)
    requires f <= |src|
    ensures Exponent(src, f, end) <==> end == ExponentEnd(src, f)
  {
    hide Stretch, DigitsEnd;
    if f + 1 <= |src| { StretchOnly(src, f + 1, end, Decimal); }
    if f + 2 <= |src| { StretchOnly(src, f + 2, end, Decimal); }
  }

  lemma DecimalExactly(src: string, pos: nat, kind: Kind, end: nat)
    requires pos <= |src|
    ensures var w := DigitsEnd(src, pos, Decimal);
            var e := ExponentEnd(src, FractionEnd(src, w));
            (exists w: nat, f: nat :: DecimalUpTo(src, pos, kind, w, f, end)) <==>
            kind == (if e > w then FloatLiteral else IntLiteral) && end == e
  {
    hide Stretch, DigitsEnd, Fraction, Exponent, FractionEnd, ExponentEnd;
    var w0 := DigitsEnd(src, pos, Decimal);
    var f0 := FractionEnd(src, w0);
    var e0 := ExponentEnd(src, f0);
    StretchOnly(src, pos, w0, Decimal);
    FractionOnly(src, w0, f0);
    ExponentOnly(src, f0, e0);
    forall w: nat, f: nat | DecimalUpTo(src, pos, kind, w, f, end) ensures w == w0 && f == f0 && end == e0 {
      StretchOnly(src, pos, w, Decimal);
      FractionOnly(src, w0, f);
      ExponentOnly(src, f0, end);
    }
    if kind == (if e0 > w0 then FloatLiteral else IntLiteral) && end == e0 {
      assert DecimalUpTo(src, pos, kind, w0, f0, end);
    }
  }

  // A parameter is a percent sign and another, or all the digits there are.
  lemma ParameterExactly(src: string, pos: nat, end: nat)
    requires pos <= |src|
    ensures Scan(src, pos) == Scanned(MacroParam, end) <==>
            && OneOf(src, pos, '%', '%')
            && if OneOf(src, pos + 1, '%', '%') then end == pos + 2
               else
                 && pos + 2 <= end <= |src| && !PlainDigitAt(src, end)
                 && forall i | pos + 1 <= i < end :: PlainDigitAt(src, i)
  {
    hide Scan, RunEnd;
    if Scan(src, pos).kind == MacroParam || OneOf(src, pos, '%', '%') { ParameterScanned(src, pos); }
    if pos + 1 <= |src| { DigitsUpTo(src, pos + 1); }
    var e := if pos + 1 <= |src| then RunEnd(src, pos + 1, Decimal) else end;
    var here, there := PlainDigitAt(src, pos + 1), PlainDigitAt(src, end);
  }

  lemma ParameterScanned(src: string, pos: nat)
    requires pos < |src| && (Scan(src, pos).kind == MacroParam || src[pos] == '%')
    ensures src[pos] == '%'
    ensures if OneOf(src, pos + 1, '%', '%') then Scan(src, pos) == Scanned(MacroParam, pos + 2)
            else if PlainDigitAt(src, pos + 1) then Scan(src, pos) == Scanned(MacroParam, RunEnd(src, pos + 1, Decimal))
            else Scan(src, pos).kind != MacroParam
  {
    hide RunEnd, LineCommentEnd, BlockCommentEnd, ScanWord, ScanNumber, ScanQuoted, ScanOperator;
    NoParameters(src, pos);
    QuotedKinds(src, pos);
  }

  lemma {:induction false} DigitsUpTo(src: string, pos: nat)
    requires pos <= |src|
    ensures var e := RunEnd(src, pos, Decimal);
            !PlainDigitAt(src, e) && forall i | pos <= i < e :: PlainDigitAt(src, i)
    decreases |src| - pos
  {
    if PlainDigitAt(src, pos) { DigitsUpTo(src, pos + 1); }
  }

  lemma NoParameters(src: string, pos: nat)
    requires pos < |src|
    ensures PawnAlpha(src[pos]) ==> !ScanWord(src, pos).kind.MacroParam?
    ensures !ScanOperator(src, pos).kind.MacroParam?
  {
    hide QuotedEnd, RunEnd;
  }
}
