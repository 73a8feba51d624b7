// The operators, row by row (expressions.go, preprocess/ifexpr.go): which group before which,
// and what they compute.
module OperatorTables {
  import opened Chars
  import opened Tokens
  import opened Pratt
  import opened PrattLanguage
  import opened Printing
  import C = ConditionEval

  // The row of a binary operator; those of a later row group first.
  function Row(k: Kind): (r: Option<nat>)
    ensures r.Some? ==> r.value < 10
  {
    if k.Star? || k.Slash? || k.Percent? then Some(9)
    else if k.Plus? || k.Minus? then Some(8)
    else if k.Shl? || k.Shr? || k.Ushr? then Some(7)
    else if k.Lt? || k.Gt? || k.LtEq? || k.GtEq? then Some(6)
    else if k.Eq? || k.NotEq? then Some(5)
    else if k.Amp? then Some(4)
    else if k.Caret? then Some(3)
    else if k.Pipe? then Some(2)
    else if k.AndAnd? then Some(1)
    else if k.OrOr? then Some(0)
    else None
  }

  predicate Assigns(k: Kind) {
    match k
    case Assign | PlusAssign | MinusAssign | StarAssign | SlashAssign | PercentAssign => true
    case ShlAssign | ShrAssign | UshrAssign | AndAssign | OrAssign | XorAssign => true
    case _ => false
  }

  // Powers grow with the rows.
  lemma PowerIsRow(k: Kind)
    ensures BindingPower(k) == if Row(k).Some? then BP_LOGICAL_OR + Row(k).value else 0
  {
  }

  // The ladder of conditions has the same rows, but no `>>>`.
  lemma RungIsRow(k: Kind)
    ensures Row(k).Some? && !k.Ushr? ==> C.LevelOf(k) == Row(k).value
    ensures Row(k).None? || k.Ushr? ==> C.LevelOf(k) == C.LEVELS
  {
  }

  lemma AssignmentsAre(k: Kind)
    ensures IsAssignOp(k) <==> Assigns(k)
  {
  }

  // Signs, and the two that count up and down.
  lemma PrefixesAre(k: Kind)
    ensures IsUnaryOp(k) <==> k.Plus? || k.Minus? || k.Tilde? || k.Bang? || k.MinusMinus? || k.PlusPlus?
    ensures C.IsSign(k) <==> k.Plus? || k.Minus? || k.Tilde? || k.Bang?
  {
  }

  // A token that stands for a value by itself.
  lemma LeavesAre(k: Kind)
    ensures IsLeafKind(k) <==> k.KwNull? || k.CharLiteral? || k.FloatLiteral? || k.IntLiteral? || k.Identifier?
  {
  }

  // ----- what groups with what ------------------------------------------------------------------------

  // An operand of one token.
  predicate Simple(t: Tok) { t.kind == IntLiteral || t.kind == FloatLiteral || t.kind == CharLiteral }

  // An operator that does not touch the operand in front of it.
  predicate Apart(op: Tok) { op.kind == Lt ==> !op.touches }

  // Of two operators the one of the later row groups first, and of the same row the first.
  lemma GroupsByRow(x: Tok, a: Tok, y: Tok, b: Tok, z: Tok, eof: Tok, tags: set<string>)
    requires Simple(x) && Simple(y) && Simple(z) && Apart(a) && Apart(b) && eof.kind == EOF
    requires Row(a.kind).Some? && Row(b.kind).Some?
    ensures var c := Input([x, a, y, b, z, eof], tags);
            && c.Valid()
            && ParseExpression(c, 0, 0, false)
               == Parsed(if Row(a.kind).value >= Row(b.kind).value then
                           Binary(b, Binary(a, Leaf(x), Leaf(y)), Leaf(z))
                         else Binary(a, Leaf(x), Binary(b, Leaf(y), Leaf(z))), 5)
  {
    hide Row, BindingPower, ParseExpression;
    PowerIsRow(a.kind);
    PowerIsRow(b.kind);
    GroupsByPower(x, a, y, b, z, eof, tags);
  }

  lemma GroupsByPower(x: Tok, a: Tok, y: Tok, b: Tok, z: Tok, eof: Tok, tags: set<string>)
    requires Simple(x) && Simple(y) && Simple(z) && Apart(a) && Apart(b) && eof.kind == EOF
    requires BindingPower(a.kind) > 0 && BindingPower(b.kind) > 0
    ensures var c := Input([x, a, y, b, z, eof], tags);
            && c.Valid()
            && ParseExpression(c, 0, 0, false)
               == Parsed(if BindingPower(a.kind) >= BindingPower(b.kind) then
                           Binary(b, Binary(a, Leaf(x), Leaf(y)), Leaf(z))
                         else Binary(a, Leaf(x), Binary(b, Leaf(y), Leaf(z))), 5)
  {
    hide BindingPower, ParseExpression, Fits, Spaced, Height, Flatten, Apart, Simple;
    FiveTokens(x, a, y, b, z);
    SimpleFits(x, tags);
    SimpleFits(y, tags);
    SimpleFits(z, tags);
    var powerA, powerB := BindingPower(a.kind), BindingPower(b.kind);
    var e := if powerA >= powerB then Binary(b, Binary(a, Leaf(x), Leaf(y)), Leaf(z))
             else Binary(a, Leaf(x), Binary(b, Leaf(y), Leaf(z)));
    if powerA >= powerB {
      OperationFits(a, Leaf(x), Leaf(y), powerB, tags);
      OperationFits(b, Binary(a, Leaf(x), Leaf(y)), Leaf(z), BP_ASSIGN, tags);
    } else {
      OperationFits(b, Leaf(y), Leaf(z), powerA + 1, tags);
      OperationFits(a, Leaf(x), Binary(b, Leaf(y), Leaf(z)), BP_ASSIGN, tags);
    }
    ParsePrinted(e, eof, tags);
    assert [x, a, y, b, z] + [eof] == [x, a, y, b, z, eof];
  }

  lemma FiveTokens(x: Tok, a: Tok, y: Tok, b: Tok, z: Tok)
    ensures Flatten(Binary(b, Binary(a, Leaf(x), Leaf(y)), Leaf(z))) == [x, a, y, b, z]
    ensures Flatten(Binary(a, Leaf(x), Binary(b, Leaf(y), Leaf(z)))) == [x, a, y, b, z]
    ensures Flatten(Assignment(a, Leaf(x), Assignment(b, Leaf(y), Leaf(z)))) == [x, a, y, b, z]
    ensures Flatten(Assignment(a, Leaf(x), Binary(b, Leaf(y), Leaf(z)))) == [x, a, y, b, z]
  {
    ThreeTokens(x, a, y);
    ThreeTokens(y, b, z);
    assert [x, a, y] + ([b] + [z]) == [x, a, y, b, z] == [x] + ([a] + [y, b, z]);
  }

  lemma ThreeTokens(x: Tok, a: Tok, y: Tok)
    ensures Flatten(Leaf(x)) == [x] && Flatten(Leaf(y)) == [y]
    ensures Flatten(Binary(a, Leaf(x), Leaf(y))) == [x, a, y] == Flatten(Assignment(a, Leaf(x), Leaf(y)))
  {
    var l, r := Leaf(x), Leaf(y);
    assert Flatten(l) == [x] && Flatten(r) == [y];
    assert [x] + ([a] + [y]) == [x, a, y];
    assert Flatten(Binary(a, l, r)) == Joined(Flatten(l), a, Flatten(r)) == Flatten(Assignment(a, l, r));
  }

  // An operation on two operands that fit.
  lemma OperationFits(op: Tok, l: Expr, r: Expr, level: nat, tags: set<string>)
    requires Spaced(l) && Spaced(r) && Apart(op) && Height(l) == Height(r) == 1
    ensures var bp := BindingPower(op.kind);
            bp > 0 && level <= bp && Fits(l, bp, tags) && Fits(r, bp + 1, tags) ==> Fits(Binary(op, l, r), level, tags)
    ensures IsAssignOp(op.kind) && level <= BP_ASSIGN && Fits(l, BP_LOGICAL_OR, tags) && Fits(r, BP_ASSIGN, tags) ==>
              Fits(Assignment(op, l, r), level, tags)
    ensures Spaced(Binary(op, l, r)) && Spaced(Assignment(op, l, r))
    ensures Height(Binary(op, l, r)) == Height(Assignment(op, l, r)) == 1
  {
    hide BindingPower, IsAssignOp;
  }

  lemma SimpleFits(t: Tok, tags: set<string>)
    requires Simple(t)
    ensures forall level: nat :: Fits(Leaf(t), level, tags)
    ensures Spaced(Leaf(t)) && Height(Leaf(t)) == 1
  {
  }

  // Assignments group to the right, and behind all binary operators.
  lemma AssignsLast(x: Tok, a: Tok, y: Tok, b: Tok, z: Tok, eof: Tok, tags: set<string>)
    requires Simple(x) && Simple(y) && Simple(z) && Apart(a) && Apart(b) && eof.kind == EOF && Assigns(a.kind)
    requires Assigns(b.kind) || Row(b.kind).Some?
    ensures var c := Input([x, a, y, b, z, eof], tags);
            && c.Valid()
            && ParseExpression(c, 0, 0, false)
               == Parsed(Assignment(a, Leaf(x), if Assigns(b.kind) then Assignment(b, Leaf(y), Leaf(z))
                                                else Binary(b, Leaf(y), Leaf(z))), 5)
  {
    hide BindingPower, ParseExpression, IsAssignOp, Row, Assigns, Fits, Spaced, Height, Flatten, Simple, Apart;
    AssignmentsAre(a.kind);
    AssignmentsAre(b.kind);
    PowerIsRow(b.kind);
    var e := Assignment(a, Leaf(x), if Assigns(b.kind) then Assignment(b, Leaf(y), Leaf(z))
                                    else Binary(b, Leaf(y), Leaf(z)));
    FiveTokens(x, a, y, b, z);
    SimpleFits(x, tags);
    SimpleFits(y, tags);
    SimpleFits(z, tags);
    OperationFits(b, Leaf(y), Leaf(z), BP_ASSIGN, tags);
    OperationFits(a, Leaf(x), e.right, BP_ASSIGN, tags);
    ParsePrinted(e, eof, tags);
    assert [x, a, y, b, z] + [eof] == [x, a, y, b, z, eof];
  }

  // ----- what they compute ------------------------------------------------------------------------------

  // r is x as a signed 64-bit number.
  predicate IsCell(r: int, x: int) {
    -0x8000_0000_0000_0000 <= r < 0x8000_0000_0000_0000 && (r - x) % 0x1_0000_0000_0000_0000 == 0
  }

  // q is a / b, rounded toward zero.
  predicate IsQuotient(q: int, a: int, b: int) {
    var rest := a - q * b;
    && (if a >= 0 then 0 <= rest else rest <= 0) && -Magnitude(b) < rest < Magnitude(b)
  }

  function Magnitude(b: int): int { if b < 0 then -b else b }

  function Bit(b: bool): Option<int> { Some(if b then 1 else 0) }

  lemma ComparisonsMean(tb: C.Tables, a: int, b: int)
    ensures C.Apply(tb, OrOr, a, b) == Bit(!(a == 0 && b == 0)) && C.Apply(tb, AndAnd, a, b) == Bit(!(a == 0 || b == 0))
    ensures C.Apply(tb, Eq, a, b) == Bit(a - b == 0) && C.Apply(tb, NotEq, a, b) == Bit(a - b != 0)
    ensures C.Apply(tb, Lt, a, b) == Bit(b - a > 0) && C.Apply(tb, Gt, a, b) == Bit(a - b > 0)
    ensures C.Apply(tb, LtEq, a, b) == Bit(!(a - b > 0)) && C.Apply(tb, GtEq, a, b) == Bit(!(b - a > 0))
  {
  }

  lemma SumsMean(tb: C.Tables, a: int, b: int)
    ensures var r := C.Apply(tb, Plus, a, b); r.Some? && IsCell(r.value, a + b)
    ensures var r := C.Apply(tb, Minus, a, b); r.Some? && IsCell(r.value, a - b)
    ensures var r := C.Apply(tb, Star, a, b); r.Some? && IsCell(r.value, a * b)
    ensures IsCell(C.Signed(Minus, a), -a) && C.Signed(Plus, a) == a
    ensures C.Signed(Bang, a) == (if a == 0 then 1 else 0) && C.Signed(Tilde, a) + a == -1
  {
  }

  // Division rounds toward zero, and the remainder has the sign of what is divided; by zero there
  // is neither.
  lemma DivisionMeans(tb: C.Tables, a: int, b: int)
    ensures b == 0 ==> C.Apply(tb, Slash, a, b) == None && C.Apply(tb, Percent, a, b) == None
    ensures b != 0 ==> exists q, r, s ::
              IsQuotient(q, a, b) && IsCell(r, q) && IsCell(s, a - q * b)
              && C.Apply(tb, Slash, a, b) == Some(r) && C.Apply(tb, Percent, a, b) == Some(s)
  {
    if b != 0 {
      var q := C.TruncDiv(a, b);
      QuotientIs(a, b);
      assert q * b == b * q;
      assert IsCell(C.Wrap64(q), q) && IsCell(C.Wrap64(a - q * b), a - q * b);
    }
  }

  lemma QuotientIs(a: int, b: int)
    requires b != 0
    ensures IsQuotient(C.TruncDiv(a, b), a, b)
  {
  }
}
