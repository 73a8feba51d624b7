// What the scanner's tokens are spelled like (token/token.go, lexer/literals_operators.go,
// lexer/words_numbers.go): operators by maximal munch, keywords by the whole word.
module Spellings {
  import opened Chars
  import opened Tokens
  import opened Scanning

  // The spelling of an operator, by the table of kind names.
  function OperatorSpelling(k: Kind): Option<string> {
    var c := CharSpelling(k);
    if c.Some? then Some([c.value]) else LongSpelling(k)
  }

  function CharSpelling(k: Kind): Option<char> {
    var c := ArithmeticChar(k);
    if c.Some? then c else PunctuationChar(k)
  }

  function ArithmeticChar(k: Kind): Option<char> {
    if k.Plus? then Some('+') else if k.Minus? then Some('-') else if k.Star? then Some('*')
    else if k.Slash? then Some('/') else if k.Percent? then Some('%') else if k.Assign? then Some('=')
    else if k.Lt? then Some('<') else if k.Gt? then Some('>') else if k.Amp? then Some('&')
    else if k.Pipe? then Some('|') else if k.Caret? then Some('^') else if k.Tilde? then Some('~')
    else if k.Bang? then Some('!') else None
  }

  function PunctuationChar(k: Kind): Option<char> {
    if k.Question? then Some('?') else if k.Colon? then Some(':') else if k.Semicolon? then Some(';')
    else if k.Comma? then Some(',') else if k.Dot? then Some('.') else if k.LParen? then Some('(')
    else if k.RParen? then Some(')') else if k.LBracket? then Some('[') else if k.RBracket? then Some(']')
    else if k.LBrace? then Some('{') else if k.RBrace? then Some('}') else if k.Hash? then Some('#')
    else if k.AtSign? then Some('@') else None
  }

  function LongSpelling(k: Kind): Option<string> {
    var a, c := AssignmentSpelling(k), ComparisonSpelling(k);
    if a.Some? then a else if c.Some? then c else PairSpelling(k)
  }

  function AssignmentSpelling(k: Kind): Option<string> {
    if k.PlusAssign? then Some("+=") else if k.MinusAssign? then Some("-=") else if k.StarAssign? then Some("*=")
    else if k.SlashAssign? then Some("/=") else if k.PercentAssign? then Some("%=")
    else if k.ShlAssign? then Some("<<=") else if k.ShrAssign? then Some(">>=") else if k.UshrAssign? then Some(">>>=")
    else if k.AndAssign? then Some("&=") else if k.OrAssign? then Some("|=") else if k.XorAssign? then Some("^=")
    else None
  }

  function ComparisonSpelling(k: Kind): Option<string> {
    if k.Eq? then Some("==") else if k.NotEq? then Some("!=") else if k.LtEq? then Some("<=")
    else if k.GtEq? then Some(">=") else if k.Shl? then Some("<<") else if k.Shr? then Some(">>")
    else if k.Ushr? then Some(">>>") else None
  }

  function PairSpelling(k: Kind): Option<string> {
    if k.AndAnd? then Some("&&") else if k.OrOr? then Some("||") else if k.PlusPlus? then Some("++")
    else if k.MinusMinus? then Some("--") else if k.ColonColon? then Some("::") else if k.DotDot? then Some("..")
    else if k.Ellipsis? then Some("...") else None
  }

  // The spelling of a keyword, by the same table.
  function KeywordSpelling(k: Kind): Option<string> {
    var s := StorageSpelling(k);
    var c := ControlSpelling(k);
    if s.Some? then s else if c.Some? then c else OtherSpelling(k)
  }

  function StorageSpelling(k: Kind): Option<string> {
    if k.KwPublic? then Some("public") else if k.KwStock? then Some("stock")
    else if k.KwStatic? then Some("static") else if k.KwNative? then Some("native")
    else if k.KwForward? then Some("forward") else if k.KwConst? then Some("const")
    else if k.KwNew? then Some("new") else if k.KwDecl? then Some("decl")
    else if k.KwEnum? then Some("enum") else None
  }

  function ControlSpelling(k: Kind): Option<string> {
    if k.KwSwitch? then Some("switch") else if k.KwCase? then Some("case")
    else if k.KwDefault? then Some("default") else if k.KwIf? then Some("if")
    else if k.KwElse? then Some("else") else if k.KwFor? then Some("for")
    else if k.KwWhile? then Some("while") else if k.KwDo? then Some("do")
    else if k.KwReturn? then Some("return") else None
  }

  function OtherSpelling(k: Kind): Option<string> {
    if k.KwBreak? then Some("break") else if k.KwContinue? then Some("continue")
    else if k.KwGoto? then Some("goto") else if k.KwSizeof? then Some("sizeof")
    else if k.KwTagof? then Some("tagof") else if k.KwState? then Some("state")
    else if k.KwDefined? then Some("defined") else if k.KwOperator? then Some("operator")
    else if k.KwNull? then Some("null") else None
  }

  // An operator's spelling agrees with the next four characters, NUL behind the end.
  predicate Agrees(w: string, a: char, b: char, c: char, d: char)
    requires 0 < |w| <= 4
  {
    w[0] == a && (|w| > 1 ==> w[1] == b) && (|w| > 2 ==> w[2] == c) && (|w| > 3 ==> w[3] == d)
  }

  lemma AtAgrees(src: string, pos: nat, w: string)
    requires pos < |src| && 0 < |w| <= 4
    ensures At(src, pos, w) <==>
            pos + |w| <= |src| && Agrees(w, src[pos], Peek(src, pos + 1), Peek(src, pos + 2), Peek(src, pos + 3))
  {
    if pos + |w| <= |src| {
      var s := src[pos..pos + |w|];
      assert s[0] == src[pos] && (|w| > 1 ==> s[1] == src[pos + 1]) && (|w| > 2 ==> s[2] == src[pos + 2])
             && (|w| > 3 ==> s[3] == src[pos + 3]);
    }
  }

  // The operator that starts with these characters.
  function Munched(a: char, b: char, c: char, d: char): Option<(nat, Kind)> {
    var multi := MultiOperator(a, b, c, d);
    if multi.Some? then multi
    else if SingleOperator(a).Some? then Some((1, SingleOperator(a).value))
    else None
  }

  predicate SpelledAs(k: Kind, n: nat, a: char, b: char, c: char, d: char) {
    && var w := OperatorSpelling(k);
    && w.Some? && 0 < |w.value| == n <= 4 && Agrees(w.value, a, b, c, d)
  }

  lemma AssignmentSpellings()
    ensures LongSpelling(PlusAssign) == Some("+=") && LongSpelling(MinusAssign) == Some("-=")
    ensures LongSpelling(StarAssign) == Some("*=") && LongSpelling(SlashAssign) == Some("/=")
    ensures LongSpelling(PercentAssign) == Some("%=") && LongSpelling(XorAssign) == Some("^=")
    ensures LongSpelling(AndAssign) == Some("&=") && LongSpelling(OrAssign) == Some("|=")
    ensures LongSpelling(ShlAssign) == Some("<<=") && LongSpelling(ShrAssign) == Some(">>=")
    ensures LongSpelling(UshrAssign) == Some(">>>=")
  {
  }

  lemma ComparisonSpellings()
    ensures LongSpelling(Eq) == Some("==") && LongSpelling(NotEq) == Some("!=")
    ensures LongSpelling(LtEq) == Some("<=") && LongSpelling(GtEq) == Some(">=")
    ensures LongSpelling(Shl) == Some("<<") && LongSpelling(Shr) == Some(">>") && LongSpelling(Ushr) == Some(">>>")
  {
  }

  lemma PairSpellings()
    ensures LongSpelling(AndAnd) == Some("&&") && LongSpelling(OrOr) == Some("||")
    ensures LongSpelling(PlusPlus) == Some("++") && LongSpelling(MinusMinus) == Some("--")
    ensures LongSpelling(ColonColon) == Some("::") && LongSpelling(DotDot) == Some("..")
    ensures LongSpelling(Ellipsis) == Some("...")
  {
  }

  lemma LongIsNoChar(k: Kind)
    ensures LongSpelling(k).Some? ==> CharSpelling(k).None?
  {
    hide ArithmeticChar, PunctuationChar, AssignmentSpelling, ComparisonSpelling, PairSpelling;
    if ArithmeticChar(k).Some? {
      ArithmeticIsNoAssignment(k);
      ArithmeticIsNoPair(k);
    }
    if PunctuationChar(k).Some? {
      PunctuationIsNoAssignment(k);
      PunctuationIsNoPair(k);
    }
  }

  lemma ArithmeticIsNoAssignment(k: Kind)
    requires ArithmeticChar(k).Some?
    ensures AssignmentSpelling(k).None?
  {
  }

  lemma ArithmeticIsNoPair(k: Kind)
    requires ArithmeticChar(k).Some?
    ensures ComparisonSpelling(k).None? && PairSpelling(k).None?
  {
  }

  lemma PunctuationIsNoAssignment(k: Kind)
    requires PunctuationChar(k).Some?
    ensures AssignmentSpelling(k).None?
  {
  }

  lemma PunctuationIsNoPair(k: Kind)
    requires PunctuationChar(k).Some?
    ensures ComparisonSpelling(k).None? && PairSpelling(k).None?
  {
  }

  lemma MultiIsSpelled(a: char, b: char, c: char, d: char)
    ensures var m := MultiOperator(a, b, c, d);
            m.Some? ==>
              && var w := LongSpelling(m.value.1);
              && w.Some? && 1 < |w.value| == m.value.0 <= 4 && Agrees(w.value, a, b, c, d)
              && CharSpelling(m.value.1).None?
  {
    hide CharSpelling, LongSpelling;
    AssignmentSpellings();
    ComparisonSpellings();
    PairSpellings();
    if MultiOperator(a, b, c, d).Some? { LongIsNoChar(MultiOperator(a, b, c, d).value.1); }
  }

  lemma SingleIsSpelled(a: char, k: Kind)
    ensures SingleOperator(a) == Some(k) ==> CharSpelling(k) == Some(a)
    ensures CharSpelling(k) == Some(a) ==> SingleOperator(a).Some?
  {
    SingleIsChar(a);
    CharIsSingle(a, k);
  }

  lemma SingleIsChar(a: char)
    ensures var m := SingleOperator(a); m.Some? ==> CharSpelling(m.value) == Some(a)
  {
    hide CharSpelling;
    ArithmeticChars();
    PunctuationChars();
    BracketChars();
  }

  lemma ArithmeticChars()
    ensures CharSpelling(Plus) == Some('+') && CharSpelling(Minus) == Some('-') && CharSpelling(Star) == Some('*')
    ensures CharSpelling(Slash) == Some('/') && CharSpelling(Percent) == Some('%') && CharSpelling(Assign) == Some('=')
    ensures CharSpelling(Lt) == Some('<') && CharSpelling(Gt) == Some('>') && CharSpelling(Amp) == Some('&')
    ensures CharSpelling(Pipe) == Some('|') && CharSpelling(Caret) == Some('^') && CharSpelling(Tilde) == Some('~')
    ensures CharSpelling(Bang) == Some('!')
  {
  }

  lemma PunctuationChars()
    ensures CharSpelling(Question) == Some('?') && CharSpelling(Colon) == Some(':')
    ensures CharSpelling(Semicolon) == Some(';') && CharSpelling(Comma) == Some(',') && CharSpelling(Dot) == Some('.')
    ensures CharSpelling(Hash) == Some('#') && CharSpelling(AtSign) == Some('@')
  {
  }

  lemma BracketChars()
    ensures CharSpelling(LParen) == Some('(') && CharSpelling(RParen) == Some(')')
    ensures CharSpelling(LBracket) == Some('[') && CharSpelling(RBracket) == Some(']')
    ensures CharSpelling(LBrace) == Some('{') && CharSpelling(RBrace) == Some('}')
  {
  }

  lemma CharIsSingle(a: char, k: Kind)
    ensures CharSpelling(k) == Some(a) ==> SingleOperator(a).Some?
  {
    hide SingleOperator, ArithmeticChar, PunctuationChar;
    ArithmeticIsSingle(k);
    PunctuationIsSingle(k);
  }

  lemma ArithmeticIsSingle(k: Kind)
    ensures var c := ArithmeticChar(k); c.Some? ==> SingleOperator(c.value).Some?
  {
    hide SingleOperator;
    SingleChars();
  }

  lemma PunctuationIsSingle(k: Kind)
    ensures var c := PunctuationChar(k); c.Some? ==> SingleOperator(c.value).Some?
  {
    hide SingleOperator;
    SingleChars();
  }

  lemma SingleChars()
    ensures forall a :: a in "+-*/%=<>&|^~!?:;,.()[]{}#@" ==> SingleOperator(a).Some?
  {
  }

  // The operator read at these characters is at least as long as w.
  predicate ReadsAsLong(w: string, a: char, b: char, c: char, d: char) {
    && 1 < |w| <= 4
    && (Agrees(w, a, b, c, d) ==> MultiOperator(a, b, c, d).Some? && |w| <= MultiOperator(a, b, c, d).value.0)
  }

  lemma AssignmentIsMunched(a: char, b: char, c: char, d: char, k: Kind)
    ensures var w := AssignmentSpelling(k); w.Some? ==> ReadsAsLong(w.value, a, b, c, d)
  {
  }

  lemma ComparisonIsMunched(a: char, b: char, c: char, d: char, k: Kind)
    ensures var w := ComparisonSpelling(k); w.Some? ==> ReadsAsLong(w.value, a, b, c, d)
  {
  }

  lemma PairIsMunched(a: char, b: char, c: char, d: char, k: Kind)
    ensures var w := PairSpelling(k); w.Some? ==> ReadsAsLong(w.value, a, b, c, d)
  {
  }

  lemma LongIsMunched(a: char, b: char, c: char, d: char, k: Kind)
    requires LongSpelling(k).Some?
    ensures ReadsAsLong(LongSpelling(k).value, a, b, c, d)
  {
    hide ReadsAsLong, AssignmentSpelling, ComparisonSpelling, PairSpelling;
    AssignmentIsMunched(a, b, c, d, k);
    ComparisonIsMunched(a, b, c, d, k);
    PairIsMunched(a, b, c, d, k);
  }

  lemma MultiIsLong(a: char, b: char, c: char, d: char)
    ensures var m := MultiOperator(a, b, c, d); m.Some? ==> m.value.0 > 1
  {
  }

  lemma MunchedIsSpelled(a: char, b: char, c: char, d: char)
    ensures var m := Munched(a, b, c, d);
            m.Some? ==> SpelledAs(m.value.1, m.value.0, a, b, c, d)
  {
    hide MultiOperator, SingleOperator, CharSpelling, LongSpelling;
    MultiIsSpelled(a, b, c, d);
    if SingleOperator(a).Some? { SingleIsSpelled(a, SingleOperator(a).value); }
  }

  lemma MunchedIsLongest(a: char, b: char, c: char, d: char, k: Kind)
    requires OperatorSpelling(k).Some?
    ensures var w := OperatorSpelling(k).value;
            && 0 < |w| <= 4
            && (Agrees(w, a, b, c, d) ==> Munched(a, b, c, d).Some? && |w| <= Munched(a, b, c, d).value.0)
  {
    hide MultiOperator, SingleOperator, CharSpelling, LongSpelling;
    MultiIsLong(a, b, c, d);
    if CharSpelling(k).None? {
      LongIsMunched(a, b, c, d, k);
    } else {
      SingleIsSpelled(a, k);
    }
  }

  lemma ScanIsMunched(src: string, pos: nat)
    requires pos < |src|
    ensures var m := Munched(src[pos], Peek(src, pos + 1), Peek(src, pos + 2), Peek(src, pos + 3));
            var r := ScanOperator(src, pos);
            if m.Some? then r == Scanned(m.value.1, pos + m.value.0) && r.kind != Unknown
            else r == Scanned(Unknown, pos + 1)
  {
    hide MultiOperator, SingleOperator, OperatorSpelling;
    var a, b, c, d := src[pos], Peek(src, pos + 1), Peek(src, pos + 2), Peek(src, pos + 3);
    MunchedIsSpelled(a, b, c, d);
    UnknownUnspelled();
  }

  lemma UnknownUnspelled()
    ensures OperatorSpelling(Unknown).None?
  {
  }

  // The scanned operator is there, and no operator that is there is longer. Where none
  // is, the character is unknown.
  lemma OperatorMunch(src: string, pos: nat, k: Kind)
    requires pos < |src|
    ensures var r := ScanOperator(src, pos);
            var w := OperatorSpelling(r.kind);
            if r.kind == Unknown then r.end == pos + 1
            else w.Some? && r.end == pos + |w.value| && At(src, pos, w.value)
    ensures var r := ScanOperator(src, pos);
            var w := OperatorSpelling(k);
            w.Some? && At(src, pos, w.value) ==> r.kind != Unknown && pos + |w.value| <= r.end
  {
    var a, b, c, d := src[pos], Peek(src, pos + 1), Peek(src, pos + 2), Peek(src, pos + 3);
    hide MultiOperator, SingleOperator, OperatorSpelling, ScanOperator, Munched, At;
    MunchedIsSpelled(a, b, c, d);
    ScanIsMunched(src, pos);
    if Munched(a, b, c, d).Some? { AtAgrees(src, pos, OperatorSpelling(Munched(a, b, c, d).value.1).value); }
    if OperatorSpelling(k).Some? {
      MunchedIsLongest(a, b, c, d, k);
      AtAgrees(src, pos, OperatorSpelling(k).value);
    }
  }

  // ----- words -------------------------------------------------------------------------------

  lemma StorageIsSpelled(text: string)
    ensures StorageWord(text).Some? ==> KeywordSpelling(StorageWord(text).value) == Some(text)
  {
  }

  lemma ControlIsSpelled(text: string)
    ensures ControlWord(text).Some? ==> KeywordSpelling(ControlWord(text).value) == Some(text)
  {
  }

  lemma OtherIsSpelled(text: string)
    ensures OtherWord(text).Some? ==> KeywordSpelling(OtherWord(text).value) == Some(text)
  {
  }

  lemma {:induction false} RunIsMaximal(src: string, pos: nat, k: Class)
    requires pos <= |src|
    ensures var end := RunEnd(src, pos, k);
            && (forall i | pos <= i < end :: In(src[i], k))
            && (end < |src| ==> !In(src[end], k))
    decreases |src| - pos
  {
    if In(Peek(src, pos), k) { RunIsMaximal(src, pos + 1, k); }
  }

  // A word reaches as far as it can. It is a keyword spelled by the whole of it, or an
  // identifier that no keyword spells.
  lemma WordMunch(src: string, pos: nat)
    requires pos < |src| && PawnAlpha(src[pos])
    ensures var r := Scan(src, pos);
            var text := src[pos..r.end];
            && (forall i | pos <= i < r.end :: PawnAlphanum(src[i]))
            && (r.end < |src| ==> !PawnAlphanum(src[r.end]))
            && (if r.kind == Identifier then forall k :: KeywordSpelling(k) != Some(text)
                else KeywordSpelling(r.kind) == Some(text))
  {
    hide StorageWord, ControlWord, OtherWord, KeywordSpelling, LookupKeyword;
    var r := Scan(src, pos);
    var text := src[pos..r.end];
    RunIsMaximal(src, pos, Word);
    assert r == ScanWord(src, pos);
    forall i | pos <= i < r.end ensures PawnAlphanum(src[i]) {
      assert In(src[i], Word);
    }
    assert r.end < |src| ==> !In(src[r.end], Word);
    LookupIsSpelled(text);
    forall k | KeywordSpelling(k) == Some(text) ensures LookupKeyword(text).Some? {
      SpelledIsFound(k, text);
    }
    IdentifierUnspelled();
  }

  lemma LookupIsSpelled(text: string)
    ensures LookupKeyword(text).Some? ==> KeywordSpelling(LookupKeyword(text).value) == Some(text)
  {
    hide StorageWord, ControlWord, OtherWord, KeywordSpelling;
    StorageIsSpelled(text);
    ControlIsSpelled(text);
    OtherIsSpelled(text);
  }

  // Every spelling of the table is looked up.
  lemma SpelledIsFound(k: Kind, text: string)
    requires KeywordSpelling(k) == Some(text)
    ensures LookupKeyword(text).Some?
  {
    hide StorageWord, ControlWord, OtherWord, StorageSpelling, ControlSpelling, OtherSpelling;
    StorageIsFound(k);
    ControlIsFound(k);
    OtherIsFound(k);
  }

  lemma StorageIsFound(k: Kind)
    ensures var w := StorageSpelling(k); w.Some? ==> StorageWord(w.value).Some?
  {
  }

  lemma ControlIsFound(k: Kind)
    ensures var w := ControlSpelling(k); w.Some? ==> ControlWord(w.value).Some?
  {
  }

  lemma OtherIsFound(k: Kind)
    ensures var w := OtherSpelling(k); w.Some? ==> OtherWord(w.value).Some?
  {
  }

  lemma IdentifierUnspelled()
    ensures KeywordSpelling(Identifier).None?
  {
  }
}
