// The scanner (lexer/scanner.go, lexer/literals_operators.go, lexer/words_numbers.go):
// raw tokens, their kinds and their positions.
module Scanning {
  import opened Chars
  import opened Tokens

  datatype Position = Position(offset: nat, line: nat, col: nat)

  datatype Raw = Raw(kind: Kind, start: Position, end: Position)

  // ----- characters ------------------------------------------------------------------------

  datatype Class = Blanks | Word | Decimal | Hexadecimal | Binary

  predicate In(c: char, k: Class) {
    match k
    case Blanks => c == ' ' || c == '\t' || c == '\r'
    case Word => PawnAlphanum(c)
    case Decimal => Digit(c)
    case Hexadecimal => Digit(c) || 'a' <= c <= 'f' || 'A' <= c <= 'F'
    case Binary => c == '0' || c == '1'
  }

  // The character at i; NUL behind the end.
  function Peek(src: string, i: nat): char {
    if i < |src| then src[i] else '\0'
  }

  // ----- where each sort of token ends ------------------------------------------------------

  function RunEnd(src: string, pos: nat, k: Class): (end: nat)
    requires pos <= |src|
    ensures pos <= end <= |src|
    decreases |src| - pos
  {
    if In(Peek(src, pos), k) then RunEnd(src, pos + 1, k) else pos
  }

  // Digits, with a `_` in front of any of them.
  function DigitsEnd(src: string, pos: nat, k: Class): (end: nat)
    requires pos <= |src|
    ensures pos <= end <= |src|
    decreases |src| - pos
  {
    if In(Peek(src, pos), k) || (Peek(src, pos) == '_' && In(Peek(src, pos + 1), k)) then DigitsEnd(src, pos + 1, k)
    else pos
  }

  function LineCommentEnd(src: string, pos: nat): (end: nat)
    requires pos <= |src|
    ensures pos <= end <= |src|
    decreases |src| - pos
  {
    if pos == |src| || src[pos] == '\n' || src[pos] == '\r' then pos else LineCommentEnd(src, pos + 1)
  }

  function BlockCommentEnd(src: string, pos: nat): (end: nat)
    requires pos <= |src|
    ensures pos <= end <= |src|
    decreases |src| - pos
  {
    if pos == |src| then pos
    else if src[pos] == '*' && Peek(src, pos + 1) == '/' then pos + 2
    else BlockCommentEnd(src, pos + 1)
  }

  datatype Quoted = Quoted(end: nat, closed: bool)

  // From behind an opening quote.
  function QuotedEnd(src: string, pos: nat, quote: char): (q: Quoted)
    requires pos <= |src|
    ensures pos <= q.end <= |src|
    decreases |src| - pos
  {
    if pos == |src| || src[pos] == '\n' then Quoted(pos, false)
    else if src[pos] == '\\' then QuotedEnd(src, if pos + 1 < |src| then pos + 2 else pos + 1, quote)
    else if src[pos] == quote then Quoted(pos + 1, true)
    else QuotedEnd(src, pos + 1, quote)
  }

  datatype Scanned = Scanned(kind: Kind, end: nat)

  function ScanNumber(src: string, pos: nat): (r: Scanned)
    requires pos < |src| && (Digit(src[pos]) || (src[pos] == '.' && Digit(Peek(src, pos + 1))))
    ensures pos < r.end <= |src| && (r.kind == IntLiteral || r.kind == FloatLiteral)
  {
    var x := Peek(src, pos + 1);
    if src[pos] == '0' && (x == 'x' || x == 'X') then Scanned(IntLiteral, DigitsEnd(src, pos + 2, Hexadecimal))
    else if src[pos] == '0' && (x == 'b' || x == 'B') then Scanned(IntLiteral, DigitsEnd(src, pos + 2, Binary))
    else
      var whole := DigitsEnd(src, pos, Decimal);
      var point := FractionEnd(src, whole);
      var end := ExponentEnd(src, point);
      Scanned(if end > whole then FloatLiteral else IntLiteral, end)
  }

  function FractionEnd(src: string, pos: nat): (end: nat)
    requires pos <= |src|
    ensures pos <= end <= |src|
  {
    if Peek(src, pos) == '.' && Digit(Peek(src, pos + 1)) then DigitsEnd(src, pos + 1, Decimal) else pos
  }

  function ExponentEnd(src: string, pos: nat): (end: nat)
    requires pos <= |src|
    ensures pos <= end <= |src|
  {
    if Peek(src, pos) == 'e' || Peek(src, pos) == 'E' then
      var sign := Peek(src, pos + 1) == '+' || Peek(src, pos + 1) == '-';
      var first := if sign then pos + 2 else pos + 1;
      if Digit(Peek(src, first)) then DigitsEnd(src, first, Decimal) else pos
    else pos
  }

  // A keyword's kind, by its spelling.
  function LookupKeyword(text: string): Option<Kind> {
    var s := StorageWord(text);
    var c := ControlWord(text);
    if s.Some? then s else if c.Some? then c else OtherWord(text)
  }

  function StorageWord(text: string): Option<Kind> {
    if text == "public" then Some(KwPublic) else if text == "stock" then Some(KwStock)
    else if text == "static" then Some(KwStatic) else if text == "native" then Some(KwNative)
    else if text == "forward" then Some(KwForward) else if text == "const" then Some(KwConst)
    else if text == "new" then Some(KwNew) else if text == "decl" then Some(KwDecl)
    else if text == "enum" then Some(KwEnum) else None
  }

  function ControlWord(text: string): Option<Kind> {
    if text == "switch" then Some(KwSwitch) else if text == "case" then Some(KwCase)
    else if text == "default" then Some(KwDefault) else if text == "if" then Some(KwIf)
    else if text == "else" then Some(KwElse) else if text == "for" then Some(KwFor)
    else if text == "while" then Some(KwWhile) else if text == "do" then Some(KwDo)
    else if text == "return" then Some(KwReturn) else None
  }

  function OtherWord(text: string): Option<Kind> {
    if text == "break" then Some(KwBreak) else if text == "continue" then Some(KwContinue)
    else if text == "goto" then Some(KwGoto) else if text == "sizeof" then Some(KwSizeof)
    else if text == "tagof" then Some(KwTagof) else if text == "state" then Some(KwState)
    else if text == "defined" then Some(KwDefined) else if text == "operator" then Some(KwOperator)
    else if text == "null" then Some(KwNull) else None
  }

  function ScanWord(src: string, pos: nat): (r: Scanned)
    requires pos < |src| && PawnAlpha(src[pos])
    ensures pos < r.end <= |src| && r.kind != EOF && !r.kind.IsTrivia()
  {
    var end := RunEnd(src, pos, Word);
    var keyword := LookupKeyword(src[pos..end]);
    Scanned(if keyword.Some? then keyword.value else Identifier, end)
  }

  // ----- operators ----------------------------------------------------------------------------

  function MultiOperator(a: char, b: char, c: char, d: char): Option<(nat, Kind)> {
    if a == '>' then
      if b == '>' && c == '>' && d == '=' then Some((4, UshrAssign))
      else if b == '>' && c == '>' then Some((3, Ushr))
      else if b == '>' && c == '=' then Some((3, ShrAssign))
      else if b == '>' then Some((2, Shr))
      else if b == '=' then Some((2, GtEq))
      else None
    else if a == '<' then
      if b == '<' && c == '=' then Some((3, ShlAssign))
      else if b == '<' then Some((2, Shl))
      else if b == '=' then Some((2, LtEq))
      else None
    else if a == '.' then
      if b == '.' && c == '.' then Some((3, Ellipsis)) else if b == '.' then Some((2, DotDot)) else None
    else if a == '+' || a == '-' then
      if a == '+' && b == '+' then Some((2, PlusPlus))
      else if a == '-' && b == '-' then Some((2, MinusMinus))
      else AssignmentOperator(a, b)
    else if a == '*' || a == '/' || a == '%' || a == '^' then AssignmentOperator(a, b)
    else if a == '&' then
      if b == '&' then Some((2, AndAnd)) else if b == '=' then Some((2, AndAssign)) else None
    else if a == '|' then
      if b == '|' then Some((2, OrOr)) else if b == '=' then Some((2, OrAssign)) else None
    else if a == '=' && b == '=' then Some((2, Eq))
    else if a == '!' && b == '=' then Some((2, NotEq))
    else if a == ':' && b == ':' then Some((2, ColonColon))
    else None
  }

  function AssignmentOperator(a: char, b: char): Option<(nat, Kind)> {
    if b != '=' then None
    else if a == '+' then Some((2, PlusAssign))
    else if a == '-' then Some((2, MinusAssign))
    else if a == '*' then Some((2, StarAssign))
    else if a == '/' then Some((2, SlashAssign))
    else if a == '%' then Some((2, PercentAssign))
    else if a == '^' then Some((2, XorAssign))
    else None
  }

  function SingleOperator(c: char): Option<Kind> {
    if c == '+' then Some(Plus) else if c == '-' then Some(Minus) else if c == '*' then Some(Star)
    else if c == '/' then Some(Slash) else if c == '%' then Some(Percent) else if c == '=' then Some(Assign)
    else if c == '<' then Some(Lt) else if c == '>' then Some(Gt) else if c == '&' then Some(Amp)
    else if c == '|' then Some(Pipe) else if c == '^' then Some(Caret) else if c == '~' then Some(Tilde)
    else if c == '!' then Some(Bang) else if c == '?' then Some(Question) else if c == ':' then Some(Colon)
    else if c == ';' then Some(Semicolon) else if c == ',' then Some(Comma) else if c == '.' then Some(Dot)
    else if c == '(' then Some(LParen) else if c == ')' then Some(RParen) else if c == '[' then Some(LBracket)
    else if c == ']' then Some(RBracket) else if c == '{' then Some(LBrace) else if c == '}' then Some(RBrace)
    else if c == '#' then Some(Hash) else if c == '@' then Some(AtSign) else None
  }

  function ScanOperator(src: string, pos: nat): (r: Scanned)
    requires pos < |src|
    ensures pos < r.end <= |src| && r.kind != EOF && !r.kind.IsTrivia()
  {
    var multi := MultiOperator(src[pos], Peek(src, pos + 1), Peek(src, pos + 2), Peek(src, pos + 3));
    if multi.Some? then Scanned(multi.value.1, pos + multi.value.0)
    else
      var single := SingleOperator(src[pos]);
      Scanned(if single.Some? then single.value else Unknown, pos + 1)
  }

  // ----- one raw token ----------------------------------------------------------------------------

  predicate ContinuesLine(src: string, pos: nat) {
    Peek(src, pos) == '\\' && (Peek(src, pos + 1) == '\n' || (Peek(src, pos + 1) == '\r' && Peek(src, pos + 2) == '\n'))
  }

  function ScanQuoted(src: string, pos: nat, first: nat, quote: char, kind: Kind): (r: Scanned)
    requires pos < first <= |src| && kind != EOF && !kind.IsTrivia()
    ensures pos < r.end <= |src| && r.kind != EOF && !r.kind.IsTrivia()
  {
    var q := QuotedEnd(src, first, quote);
    Scanned(if q.closed then kind else Unknown, q.end)
  }

  // The kind of the token at pos and where it ends.
  function Scan(src: string, pos: nat): (r: Scanned)
    requires pos <= |src|
    ensures pos <= r.end <= |src|
    ensures if pos == |src| then r.kind == EOF && r.end == pos else r.kind != EOF && pos < r.end
  {
    if pos == |src| then Scanned(EOF, pos)
    else
      var c, next := src[pos], Peek(src, pos + 1);
      if In(c, Blanks) then Scanned(Whitespace, RunEnd(src, pos, Blanks))
      else if c == '\n' then Scanned(Newline, pos + 1)
      else if ContinuesLine(src, pos) then Scanned(LineContinuation, if next == '\r' then pos + 3 else pos + 2)
      else if c == '/' && next == '/' then Scanned(Comment, LineCommentEnd(src, pos + 2))
      else if c == '/' && next == '*' then Scanned(Comment, BlockCommentEnd(src, pos + 2))
      else if PawnAlpha(c) then ScanWord(src, pos)
      else if Digit(c) || (c == '.' && Digit(next)) then ScanNumber(src, pos)
      else if c == '"' then ScanQuoted(src, pos, pos + 1, '"', StringLiteral)
      else if c == '\'' then ScanQuoted(src, pos, pos + 1, '\'', CharLiteral)
      else if c == '!' && next == '"' then ScanQuoted(src, pos, pos + 2, '"', PackedString)
      else if c == '%' && (Digit(next) || next == '%') then
        Scanned(MacroParam, if next == '%' then pos + 2 else RunEnd(src, pos + 1, Decimal))
      else ScanOperator(src, pos)
  }

  // ----- positions ----------------------------------------------------------------------------------

  function LineOf(src: string, offset: nat): nat
    requires offset <= |src|
  {
    if offset == 0 then 1 else LineOf(src, offset - 1) + if src[offset - 1] == '\n' then 1 else 0
  }

  function ColOf(src: string, offset: nat): nat
    requires offset <= |src|
  {
    if offset == 0 || src[offset - 1] == '\n' then 1 else ColOf(src, offset - 1) + 1
  }

  function PositionAt(src: string, offset: nat): Position
    requires offset <= |src|
  {
    Position(offset, LineOf(src, offset), ColOf(src, offset))
  }

  function RawAt(src: string, pos: nat): (r: Raw)
    requires pos <= |src|
    ensures r.start.offset == pos && pos <= r.end.offset <= |src|
    ensures r.kind == EOF <==> pos == |src|
    ensures r.kind != EOF ==> pos < r.end.offset
  {
    var s := Scan(src, pos);
    Raw(s.kind, PositionAt(src, pos), PositionAt(src, s.end))
  }

  // ----- the scanner itself -----------------------------------------------------------------------

  class Scanner {
    const src: string
    var pos: nat
    var line: nat
    var col: nat

    constructor (src: string)
      ensures this.src == src && pos == 0 && Valid()
    {
      this.src := src;
      pos, line, col := 0, 1, 1;
    }

    // The line and column kept along are those of pos.
    ghost predicate Valid()
      reads this
    {
      pos <= |src| && Here() == PositionAt(src, pos)
    }

    function Here(): Position
      reads this
    {
      Position(pos, line, col)
    }

    function Ahead(i: nat): char
      reads this`pos
    {
      Peek(src, pos + i)
    }

    method Advance()
      requires Valid() && pos < |src|
      modifies this
      ensures Valid() && pos == old(pos) + 1
    {
      var c := src[pos];
      pos := pos + 1;
      if c == '\n' {
        line := line + 1;
        col := 1;
      } else {
        col := col + 1;
      }
    }

    method AdvanceBy(n: nat)
      requires Valid() && pos + n <= |src|
      modifies this
      ensures Valid() && pos == old(pos) + n
    {
      for i := 0 to n
        invariant Valid() && pos == old(pos) + i
      {
        Advance();
      }
    }

    method SkipRun(k: Class)
      requires Valid()
      modifies this
      ensures Valid() && pos == RunEnd(src, old(pos), k)
    {
      while In(Ahead(0), k)
        invariant Valid() && RunEnd(src, pos, k) == RunEnd(src, old(pos), k)
        decreases |src| - pos
      {
        Advance();
      }
    }

    method SkipDigits(k: Class)
      requires Valid()
      modifies this
      ensures Valid() && pos == DigitsEnd(src, old(pos), k)
    {
      while In(Ahead(0), k) || (Ahead(0) == '_' && In(Ahead(1), k))
        invariant Valid() && DigitsEnd(src, pos, k) == DigitsEnd(src, old(pos), k)
        decreases |src| - pos
      {
        Advance();
      }
    }

    method SkipLineComment()
      requires Valid()
      modifies this
      ensures Valid() && pos == LineCommentEnd(src, old(pos))
    {
      while pos < |src| && Ahead(0) != '\n' && Ahead(0) != '\r'
        invariant Valid() && LineCommentEnd(src, pos) == LineCommentEnd(src, old(pos))
      {
        Advance();
      }
    }

    method SkipBlockComment()
      requires Valid()
      modifies this
      ensures Valid() && pos == BlockCommentEnd(src, old(pos))
    {
      while pos < |src|
        invariant Valid() && BlockCommentEnd(src, pos) == BlockCommentEnd(src, old(pos))
      {
        if Ahead(0) == '*' && Ahead(1) == '/' {
          AdvanceBy(2);
          return;
        }
        Advance();
      }
    }

    method SkipQuoted(quote: char) returns (closed: bool)
      requires Valid() && quote != '\\' && quote != '\n'
      modifies this
      ensures Valid() && Quoted(pos, closed) == QuotedEnd(src, old(pos), quote)
    {
      while pos < |src|
        invariant Valid() && QuotedEnd(src, pos, quote) == QuotedEnd(src, old(pos), quote)
      {
        var c := Ahead(0);
        if c == '\\' {
          Advance();
          if pos < |src| { Advance(); }
          continue;
        }
        if c == quote {
          Advance();
          return true;
        }
        if c == '\n' { break; }
        Advance();
      }
      closed := false;
    }

    method Number() returns (kind: Kind)
      requires Valid() && pos < |src| && (Digit(src[pos]) || (src[pos] == '.' && Digit(Peek(src, pos + 1))))
      modifies this
      ensures Valid() && Scanned(kind, pos) == ScanNumber(src, old(pos))
    {
      hide DigitsEnd, Digit, LineOf, ColOf;
      var isFloat := false;
      if Ahead(0) == '0' && (Ahead(1) == 'x' || Ahead(1) == 'X') {
        AdvanceBy(2);
        SkipDigits(Hexadecimal);
        return IntLiteral;
      }
      if Ahead(0) == '0' && (Ahead(1) == 'b' || Ahead(1) == 'B') {
        AdvanceBy(2);
        SkipDigits(Binary);
        return IntLiteral;
      }
      SkipDigits(Decimal);
      if Ahead(0) == '.' && Digit(Ahead(1)) {
        isFloat := true;
        Advance();
        SkipDigits(Decimal);
      }
      if Ahead(0) == 'e' || Ahead(0) == 'E' {
        var la := if Ahead(1) == '+' || Ahead(1) == '-' then 2 else 1;
        if Digit(Ahead(la)) {
          isFloat := true;
          AdvanceBy(la);
          SkipDigits(Decimal);
        }
      }
      kind := if isFloat then FloatLiteral else IntLiteral;
    }

    method Operator() returns (kind: Kind)
      requires Valid() && pos < |src|
      modifies this
      ensures Valid() && Scanned(kind, pos) == ScanOperator(src, old(pos))
    {
      var multi := MultiOperator(Ahead(0), Ahead(1), Ahead(2), Ahead(3));
      if multi.Some? {
        AdvanceBy(multi.value.0);
        return multi.value.1;
      }
      var single := SingleOperator(Ahead(0));
      Advance();
      kind := if single.Some? then single.value else Unknown;
    }

    method NextRaw() returns (r: Raw)
      requires Valid()
      modifies this
      ensures Valid() && r == RawAt(src, old(pos)) && pos == r.end.offset
    {
      var start := Here();
      var kind := NextKind();
      r := Raw(kind, start, Here());
    }

    method NextKind() returns (kind: Kind)
      requires Valid()
      modifies this
      ensures Valid() && Scanned(kind, pos) == Scan(src, old(pos))
    {
      hide ScanWord, ScanNumber, ScanQuoted, ScanOperator, LineOf, ColOf;
      if pos >= |src| { return EOF; }
      var c, next := Ahead(0), Ahead(1);
      if In(c, Blanks) {
        SkipRun(Blanks);
        return Whitespace;
      }
      if c == '\n' {
        Advance();
        return Newline;
      }
      if c == '\\' && (next == '\n' || (next == '\r' && Ahead(2) == '\n')) {
        Advance();
        if Ahead(0) == '\r' { Advance(); }
        if Ahead(0) == '\n' { Advance(); }
        return LineContinuation;
      }
      if c == '/' && (next == '/' || next == '*') {
        AdvanceBy(2);
        if next == '/' { SkipLineComment(); } else { SkipBlockComment(); }
        return Comment;
      }
      kind := NextSyntax();
    }

    // The tokens that are no trivia.
    method NextSyntax() returns (kind: Kind)
      requires Valid() && pos < |src| && !In(src[pos], Blanks) && src[pos] != '\n' && !ContinuesLine(src, pos)
      requires !(src[pos] == '/' && (Peek(src, pos + 1) == '/' || Peek(src, pos + 1) == '*'))
      modifies this
      ensures Valid() && Scanned(kind, pos) == Scan(src, old(pos))
    {
      hide ScanNumber, ScanOperator, LookupKeyword, LineOf, ColOf;
      var start, c, next := pos, Ahead(0), Ahead(1);
      if PawnAlpha(c) {
        SkipRun(Word);
        var keyword := LookupKeyword(src[start..pos]);
        return if keyword.Some? then keyword.value else Identifier;
      }
      if Digit(c) || (c == '.' && Digit(next)) {
        kind := Number();
        return;
      }
      if c == '%' && (Digit(next) || next == '%') {
        Advance();
        if Ahead(0) == '%' { Advance(); } else { SkipRun(Decimal); }
        return MacroParam;
      }
      if c == '"' || c == '\'' || (c == '!' && next == '"') {
        if c == '!' { Advance(); }
        Advance();
        var closed := SkipQuoted(if c == '\'' then '\'' else '"');
        return if !closed then Unknown else if c == '!' then PackedString
               else if c == '"' then StringLiteral else CharLiteral;
      }
      kind := Operator();
    }
  }
}
