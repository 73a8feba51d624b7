// The precedence-climbing expression parser (expressions.go, literals.go), on
// token lists, as functions of the position. Parsing stops with Outside where it
// would leave this part of the grammar, or report a syntax error.
module Pratt {
  import opened Tokens
  import opened AngleClose

  datatype Expr =
    | Leaf(tok: Tok)
    | Unary(op: Tok, operand: Expr)
    | Binary(op: Tok, left: Expr, right: Expr)
    | Assignment(op: Tok, left: Expr, right: Expr)
    | Ternary(cond: Expr, question: Tok, consequence: Expr, colon: Tok, alternative: Expr)
    | Paren(open: Tok, inner: Expr, close: Tok)

  const MAX_PARSE_DEPTH: nat := 1000

  const BP_ASSIGN: nat := 2
  const BP_TERNARY: nat := 3
  const BP_LOGICAL_OR: nat := 4
  const BP_MULTIPLICATIVE: nat := 13
  const BP_UNARY: nat := 14

  // 0 for a token that is no binary operator.
  function BindingPower(k: Kind): (r: nat)
    ensures r == 0 || BP_LOGICAL_OR <= r <= BP_MULTIPLICATIVE
  {
    if k.OrOr? then 4
    else if k.AndAnd? then 5
    else if k.Pipe? then 6
    else if k.Caret? then 7
    else if k.Amp? then 8
    else if k.Eq? || k.NotEq? then 9
    else if k.Lt? || k.Gt? || k.LtEq? || k.GtEq? then 10
    else if k.Shl? || k.Shr? || k.Ushr? then 11
    else if k.Plus? || k.Minus? then 12
    else if k.Star? || k.Slash? || k.Percent? then 13
    else 0
  }

  predicate IsAssignOp(k: Kind) {
    k.Assign? || k.PlusAssign? || k.MinusAssign? || k.StarAssign? || k.SlashAssign? || k.PercentAssign?
    || k.ShlAssign? || k.ShrAssign? || k.UshrAssign? || k.AndAssign? || k.OrAssign? || k.XorAssign?
  }

  predicate IsUnaryOp(k: Kind) {
    k.Bang? || k.Tilde? || k.Minus? || k.Plus? || k.PlusPlus? || k.MinusMinus?
  }

  predicate IsLeafKind(k: Kind) {
    k.Identifier? || k.IntLiteral? || k.FloatLiteral? || k.CharLiteral? || k.KwNull?
  }

  // Tokens that would continue a primary expression outside this part of the grammar.
  predicate Continues(k: Kind) {
    k.LParen? || k.LBracket? || k.LBrace? || k.Dot? || k.ColonColon? || k.PlusPlus? || k.MinusMinus?
    || k.Identifier?
  }

  // The token list, ended by EOF, and the tags already declared.
  datatype Input = Input(toks: seq<Tok>, knownTags: set<string>) {
    ghost predicate Valid() {
      toks != [] && toks[|toks| - 1].kind == EOF && forall k | 0 <= k < |toks| - 1 :: toks[k].kind != EOF
    }

    function Kinds(): (r: seq<Kind>)
      ensures |r| == |toks| && forall k | 0 <= k < |r| :: r[k] == toks[k].kind
    {
      seq(|toks|, k requires 0 <= k < |toks| => toks[k].kind)
    }
  }

  datatype Result = Outside | TooDeep | Parsed(tree: Expr, pos: nat)

  // A generic tag prefix: angle brackets after a name, closed in front of a colon.
  predicate GenericPrefix(c: Input, i: nat, depth: int)
    decreases |c.toks| - i
  {
    i < |c.toks| &&
    var k := c.toks[i].kind;
    if k == Lt then GenericPrefix(c, i + 1, depth + 1)
    else if k == Gt then
      if depth == 1 then i + 1 < |c.toks| && c.toks[i + 1].kind == Colon else GenericPrefix(c, i + 1, depth - 1)
    else k != EOF && k != Semicolon && k != LBrace && k != RParen && GenericPrefix(c, i + 1, depth)
  }

  // The name at pos starts a macro operator, a call or a tag cast.
  predicate NameContinues(c: Input, pos: nat, suppressTagCast: bool)
    requires pos + 1 < |c.toks|
  {
    var next := c.toks[pos + 1].kind;
    || next == Identifier || next == LParen
    || (next == Lt && GenericPrefix(c, pos + 1, 0))
    || (next == Colon && (!suppressTagCast || c.toks[pos].text in c.knownTags))
  }

  function ParseExpression(c: Input, pos: nat, depth: nat, suppress: bool): (r: Result)
    requires c.Valid() && pos < |c.toks|
    ensures r.Parsed? ==> pos < r.pos < |c.toks|
    decreases |c.toks| - pos, 6
  {
    var r := ParseAssignment(c, pos, depth, suppress);
    if r.Parsed? && c.toks[r.pos].kind == Comma then Outside else r
  }

  function ParseAssignment(c: Input, pos: nat, depth: nat, suppress: bool): (r: Result)
    requires c.Valid() && pos < |c.toks|
    ensures r.Parsed? ==> pos < r.pos < |c.toks|
    decreases |c.toks| - pos, 5
  {
    var left := ParseTernary(c, pos, depth, suppress);
    if !left.Parsed? || !IsAssignOp(c.toks[left.pos].kind) then left
    else
      var right := ParseAssignment(c, left.pos + 1, depth, suppress);
      if !right.Parsed? then right
      else Parsed(Assignment(c.toks[left.pos], left.tree, right.tree), right.pos)
  }

  function ParseTernary(c: Input, pos: nat, depth: nat, suppress: bool): (r: Result)
    requires c.Valid() && pos < |c.toks|
    ensures r.Parsed? ==> pos < r.pos < |c.toks|
    decreases |c.toks| - pos, 4
  {
    var cond := ParseBinary(c, pos, BP_LOGICAL_OR, depth, suppress);
    if !cond.Parsed? || c.toks[cond.pos].kind != Question then cond
    else
      var consequence := ParseAssignment(c, cond.pos + 1, depth, true);
      if !consequence.Parsed? then consequence
      else if c.toks[consequence.pos].kind != Colon then Outside
      else
        var alternative := ParseAssignment(c, consequence.pos + 1, depth, suppress);
        if !alternative.Parsed? then alternative
        else Parsed(Ternary(cond.tree, c.toks[cond.pos], consequence.tree, c.toks[consequence.pos], alternative.tree),
                    alternative.pos)
  }

  function ParseBinary(c: Input, pos: nat, minBP: nat, depth: nat, suppress: bool): (r: Result)
    requires c.Valid() && pos < |c.toks|
    ensures r.Parsed? ==> pos < r.pos < |c.toks|
    decreases |c.toks| - pos, 3
  {
    var left := ParseUnary(c, pos, depth, suppress);
    if !left.Parsed? then left else ParseOperators(c, left.tree, left.pos, minBP, depth, suppress)
  }

  // The loop of parseBinary, with the tree so far.
  function ParseOperators(c: Input, left: Expr, pos: nat, minBP: nat, depth: nat, suppress: bool): (r: Result)
    requires c.Valid() && pos < |c.toks|
    ensures r.Parsed? ==> pos <= r.pos < |c.toks|
    decreases |c.toks| - pos, 0
  {
    var k := c.toks[pos].kind;
    var bp := BindingPower(k);
    if minBP <= BP_MULTIPLICATIVE && k == MacroParam then Outside
    else if bp == 0 || bp < minBP then Parsed(left, pos)
    else
      var right := ParseBinary(c, pos + 1, bp + 1, depth, suppress);
      if !right.Parsed? then right
      else ParseOperators(c, Binary(c.toks[pos], left, right.tree), right.pos, minBP, depth, suppress)
  }

  function ParseUnary(c: Input, pos: nat, depth: nat, suppress: bool): (r: Result)
    requires c.Valid() && pos < |c.toks|
    ensures r.Parsed? ==> pos < r.pos < |c.toks|
    decreases |c.toks| - pos, 2
  {
    var t := c.toks[pos];
    if depth + 1 > MAX_PARSE_DEPTH then TooDeep
    else if t.kind == Identifier && NameContinues(c, pos, suppress) then Outside
    else if IsUnaryOp(t.kind) then
      var operand := ParseUnary(c, pos + 1, depth + 1, suppress);
      if !operand.Parsed? then operand else Parsed(Unary(t, operand.tree), operand.pos)
    else
      Alone(c, ParsePrimary(c, pos, depth + 1, suppress))
  }

  // A primary expression read so far, if nothing continues it.
  function Alone(c: Input, primary: Result): (r: Result)
    requires primary.Parsed? ==> primary.pos < |c.toks|
    ensures r.Parsed? ==> r == primary
  {
    if !primary.Parsed? then primary
    else
      var next := c.toks[primary.pos];
      if Continues(next.kind) || (next.kind == Lt && next.touches && HasAngleClose(c.Kinds(), primary.pos)) then Outside
      else primary
  }

  function ParsePrimary(c: Input, pos: nat, depth: nat, suppress: bool): (r: Result)
    requires c.Valid() && pos < |c.toks|
    ensures r.Parsed? ==> pos < r.pos < |c.toks|
    decreases |c.toks| - pos, 1
  {
    var t := c.toks[pos];
    if IsLeafKind(t.kind) then
      if t.kind == KwNull && c.toks[pos + 1].kind == LParen then Outside else Parsed(Leaf(t), pos + 1)
    else if t.kind == LParen then
      var inner := ParseExpression(c, pos + 1, depth, suppress);
      if !inner.Parsed? then inner
      else if c.toks[inner.pos].kind != RParen then Outside
      else Parsed(Paren(t, inner.tree, c.toks[inner.pos]), inner.pos + 1)
    else Outside
  }

  // An operator that the loop at minBP takes.
  predicate Operates(k: Kind, minBP: nat) {
    BindingPower(k) != 0 && minBP <= BindingPower(k)
  }

  lemma OperatorsStep(c: Input, left: Expr, pos: nat, minBP: nat, depth: nat, suppress: bool)
    requires c.Valid() && pos < |c.toks|
    ensures var k := c.toks[pos].kind;
            var r := ParseOperators(c, left, pos, minBP, depth, suppress);
            if Operates(k, minBP) then
              k != EOF && pos + 1 < |c.toks| &&
              var right := ParseBinary(c, pos + 1, BindingPower(k) + 1, depth, suppress);
              r == (if right.Parsed? then
                      ParseOperators(c, Binary(c.toks[pos], left, right.tree), right.pos, minBP, depth, suppress)
                    else right)
            else r == if minBP <= BP_MULTIPLICATIVE && k == MacroParam then Outside else Parsed(left, pos)
  {
    hide ParseBinary;
  }

  lemma AssignmentStep(c: Input, pos: nat, depth: nat, suppress: bool)
    requires c.Valid() && pos < |c.toks|
    ensures var left := ParseTernary(c, pos, depth, suppress);
            var r := ParseAssignment(c, pos, depth, suppress);
            if !left.Parsed? || !IsAssignOp(c.toks[left.pos].kind) then r == left
            else
              left.pos + 1 < |c.toks| &&
              var right := ParseAssignment(c, left.pos + 1, depth, suppress);
              r == if right.Parsed? then Parsed(Assignment(c.toks[left.pos], left.tree, right.tree), right.pos)
                  else right
  {
    hide ParseTernary;
  }

  lemma BinaryStep(c: Input, pos: nat, minBP: nat, depth: nat, suppress: bool)
    requires c.Valid() && pos < |c.toks|
    ensures var left := ParseUnary(c, pos, depth, suppress);
            ParseBinary(c, pos, minBP, depth, suppress)
            == if left.Parsed? then ParseOperators(c, left.tree, left.pos, minBP, depth, suppress) else left
  {
    hide ParseUnary, ParseOperators;
  }

  lemma UnaryStep(c: Input, pos: nat, depth: nat, suppress: bool)
    requires c.Valid() && pos < |c.toks|
    ensures var t := c.toks[pos];
            var r := ParseUnary(c, pos, depth, suppress);
            if depth + 1 > MAX_PARSE_DEPTH then r == TooDeep
            else if t.kind == Identifier && NameContinues(c, pos, suppress) then r == Outside
            else if IsUnaryOp(t.kind) then
              t.kind != EOF && pos + 1 < |c.toks| &&
              var operand := ParseUnary(c, pos + 1, depth + 1, suppress);
              r == if operand.Parsed? then Parsed(Unary(t, operand.tree), operand.pos) else operand
            else r == Alone(c, ParsePrimary(c, pos, depth + 1, suppress))
    ensures c.toks[pos].kind == Identifier ==> pos + 1 < |c.toks|
  {
    hide ParsePrimary, NameContinues, Alone;
  }

  lemma PrimaryStep(c: Input, pos: nat, depth: nat, suppress: bool)
    requires c.Valid() && pos < |c.toks|
    ensures var t := c.toks[pos];
            var r := ParsePrimary(c, pos, depth, suppress);
            if IsLeafKind(t.kind) then
              t.kind != EOF && pos + 1 < |c.toks| &&
              r == if t.kind == KwNull && c.toks[pos + 1].kind == LParen then Outside else Parsed(Leaf(t), pos + 1)
            else if t.kind == LParen then
              pos + 1 < |c.toks| &&
              var inner := ParseExpression(c, pos + 1, depth, suppress);
              if !inner.Parsed? then r == inner
              else if c.toks[inner.pos].kind != RParen then r == Outside
              else inner.pos + 1 < |c.toks| && r == Parsed(Paren(t, inner.tree, c.toks[inner.pos]), inner.pos + 1)
            else r == Outside
  {
    hide ParseExpression;
  }

  lemma TernaryStep(c: Input, pos: nat, depth: nat, suppress: bool)
    requires c.Valid() && pos < |c.toks|
    ensures var cond := ParseBinary(c, pos, BP_LOGICAL_OR, depth, suppress);
            var r := ParseTernary(c, pos, depth, suppress);
            if !cond.Parsed? || c.toks[cond.pos].kind != Question then r == cond
            else
              cond.pos + 1 < |c.toks| &&
              var consequence := ParseAssignment(c, cond.pos + 1, depth, true);
              if !consequence.Parsed? then r == consequence
              else if c.toks[consequence.pos].kind != Colon then r == Outside
              else
                consequence.pos + 1 < |c.toks| &&
                var alternative := ParseAssignment(c, consequence.pos + 1, depth, suppress);
                r == if !alternative.Parsed? then alternative
                     else Parsed(Ternary(cond.tree, c.toks[cond.pos], consequence.tree, c.toks[consequence.pos],
                                         alternative.tree), alternative.pos)
  {
    hide ParseBinary, ParseAssignment;
  }

  // ----- the parser itself -------------------------------------------------------------

  class Parser {
    const input: Input
    var pos: nat
    var depth: nat
    var suppressTagCast: bool

    constructor (input: Input)
      requires input.Valid()
      ensures this.input == input && pos == 0 && depth == 0 && !suppressTagCast
    {
      this.input := input;
      pos, depth, suppressTagCast := 0, 0, false;
    }

    ghost predicate Ready()
      reads this`pos
    {
      input.Valid() && pos < |input.toks|
    }

    function Cur(): Tok
      requires Ready()
      reads this`pos
    {
      input.toks[pos]
    }

    method Advance() returns (t: Tok)
      requires Ready()
      modifies this`pos
      ensures Ready() && t == old(Cur()) && pos == old(pos) + (if t.kind != EOF then 1 else 0)
    {
      t := input.toks[pos];
      if pos < |input.toks| - 1 { pos := pos + 1; }
    }

    // What a parse method leaves behind.
    twostate predicate Yields(r: Result, tree: Expr, ok: bool)
      requires old(Ready())
      reads this
    {
      && Ready() && depth == old(depth) && suppressTagCast == old(suppressTagCast)
      && ok == r.Parsed? && (ok ==> r == Parsed(tree, pos))
    }

    method Expression() returns (tree: Expr, ok: bool)
      requires Ready()
      modifies this
      ensures Yields(ParseExpression(input, old(pos), old(depth), old(suppressTagCast)), tree, ok)
      decreases |input.toks| - pos, 6
    {
      tree, ok := AssignmentExpr();
      if ok && Cur().kind == Comma { ok := false; }
    }

    method AssignmentExpr() returns (tree: Expr, ok: bool)
      requires Ready()
      modifies this
      ensures Yields(ParseAssignment(input, old(pos), old(depth), old(suppressTagCast)), tree, ok)
      decreases |input.toks| - pos, 5
    {
      hide ParseTernary;
      tree, ok := TernaryExpr();
      if ok && IsAssignOp(Cur().kind) {
        var op := Advance();
        var right;
        right, ok := AssignmentExpr();
        tree := Assignment(op, tree, right);
      }
    }

    method TernaryExpr() returns (tree: Expr, ok: bool)
      requires Ready()
      modifies this
      ensures Yields(ParseTernary(input, old(pos), old(depth), old(suppressTagCast)), tree, ok)
      decreases |input.toks| - pos, 4
    {
      hide ParseTernary, ParseBinary, ParseAssignment;
      TernaryStep(input, pos, depth, suppressTagCast);
      tree, ok := BinaryExpr(BP_LOGICAL_OR);
      if !ok || Cur().kind != Question { return; }
      var question := Advance();
      var consequence, alternative;
      consequence, ok := Consequence();
      if !ok { return; }
      if Cur().kind != Colon { return tree, false; }
      var colon := Advance();
      alternative, ok := AssignmentExpr();
      tree := Ternary(tree, question, consequence, colon, alternative);
    }

    // In front of the colon, no identifier is taken for a tag.
    method Consequence() returns (tree: Expr, ok: bool)
      requires Ready()
      modifies this
      ensures Yields(ParseAssignment(input, old(pos), old(depth), true), tree, ok)
      decreases |input.toks| - pos, 6
    {
      hide ParseAssignment;
      var saved := suppressTagCast;
      suppressTagCast := true;
      tree, ok := AssignmentExpr();
      suppressTagCast := saved;
    }

    method BinaryExpr(minBP: nat) returns (tree: Expr, ok: bool)
      requires Ready()
      modifies this
      ensures Yields(ParseBinary(input, old(pos), minBP, old(depth), old(suppressTagCast)), tree, ok)
      decreases |input.toks| - pos, 3
    {
      hide ParseUnary, ParseOperators;
      tree, ok := UnaryExpr();
      if !ok { return; }
      tree, ok := OperatorLoop(tree, minBP);
    }

    // The loop over operators, with the tree so far.
    method OperatorLoop(left: Expr, minBP: nat) returns (tree: Expr, ok: bool)
      requires Ready()
      modifies this
      ensures Yields(ParseOperators(input, left, old(pos), minBP, old(depth), old(suppressTagCast)), tree, ok)
      decreases |input.toks| - pos, 2
    {
      hide ParseBinary, ParseOperators, BindingPower;
      ghost var d, s := depth, suppressTagCast;
      ghost var goal := ParseOperators(input, left, pos, minBP, d, s);
      tree, ok := left, true;
      while Operates(Cur().kind, minBP)
        invariant Ready() && old(pos) <= pos && depth == d && suppressTagCast == s && ok
        invariant ParseOperators(input, tree, pos, minBP, d, s) == goal
        decreases |input.toks| - pos
      {
        OperatorsStep(input, tree, pos, minBP, d, s);
        var op := Advance();
        var right;
        right, ok := BinaryExpr(BindingPower(op.kind) + 1);
        if !ok { return; }
        tree := Binary(op, tree, right);
      }
      OperatorsStep(input, tree, pos, minBP, d, s);
      ok := !(minBP <= BP_MULTIPLICATIVE && Cur().kind == MacroParam);
    }

    method UnaryExpr() returns (tree: Expr, ok: bool)
      requires Ready()
      modifies this
      ensures Yields(ParseUnary(input, old(pos), old(depth), old(suppressTagCast)), tree, ok)
      decreases |input.toks| - pos, 2
    {
      hide ParseUnary, ParsePrimary, NameContinues, IsUnaryOp;
      UnaryStep(input, pos, depth, suppressTagCast);
      tree, ok := Leaf(Cur()), false;
      depth := depth + 1;
      if depth <= MAX_PARSE_DEPTH && !(Cur().kind == Identifier && NameContinues(input, pos, suppressTagCast)) {
        if IsUnaryOp(Cur().kind) {
          var op := Advance();
          tree, ok := UnaryExpr();
          tree := Unary(op, tree);
        } else {
          tree, ok := Operand();
        }
      }
      depth := depth - 1;
    }

    // A primary expression, unless more of it follows.
    method Operand() returns (tree: Expr, ok: bool)
      requires Ready()
      modifies this
      ensures Yields(Alone(input, ParsePrimary(input, old(pos), old(depth), old(suppressTagCast))), tree, ok)
      decreases |input.toks| - pos, 1, 1
    {
      hide ParsePrimary, Continues;
      tree, ok := PrimaryExpr();
      if ok && (Continues(Cur().kind)
                || (Cur().kind == Lt && Cur().touches && HasAngleClose(input.Kinds(), pos))) {
        ok := false;
      }
    }

    method PrimaryExpr() returns (tree: Expr, ok: bool)
      requires Ready()
      modifies this
      ensures Yields(ParsePrimary(input, old(pos), old(depth), old(suppressTagCast)), tree, ok)
      decreases |input.toks| - pos, 1, 0
    {
      hide ParsePrimary, ParseExpression, IsLeafKind;
      PrimaryStep(input, pos, depth, suppressTagCast);
      var t := Cur();
      if IsLeafKind(t.kind) {
        if t.kind == KwNull && input.toks[pos + 1].kind == LParen { return Leaf(t), false; }
        var leaf := Advance();
        return Leaf(leaf), true;
      }
      if t.kind != LParen { return Leaf(t), false; }
      var open := Advance();
      var inner;
      inner, ok := Expression();
      if !ok { return inner, false; }
      if Cur().kind != RParen { return inner, false; }
      var close := Advance();
      tree := Paren(open, inner, close);
    }
  }
}
