// The precedence-climbing parser and the condition ladder read operators alike
// (expressions.go against preprocess/ifexpr.go): where the ladder computes a value for a
// whole token list, the parser builds a tree over the same tokens that has this value.
module ExpressionAgreement {
  import opened Chars
  import opened Tokens
  import opened Pratt
  import opened PrattLanguage
  import C = ConditionEval

  // Literals, parentheses, signs and the operators both sides know, spaced apart.
  predicate Shared(t: Tok) {
    || t.kind == IntLiteral || t.kind == CharLiteral || t.kind == LParen || t.kind == RParen
    || C.IsSign(t.kind) || (C.LevelOf(t.kind) < C.LEVELS && (t.kind == Lt ==> !t.touches))
  }

  predicate AllShared(toks: seq<Tok>) {
    forall k | 0 <= k < |toks| :: Shared(toks[k])
  }

  // The meaning of a tree; None if it divides by zero or has parts without a value.
  function Value(tb: C.Tables, e: Expr): Option<int> {
    match e
    case Leaf(t) => if t.kind == IntLiteral || t.kind == CharLiteral then Some(tb.literal(t)) else None
    case Unary(op, x) =>
      var v := Value(tb, x);
      if v.None? || !C.IsSign(op.kind) then None else Some(C.Signed(op.kind, v.value))
    case Binary(op, l, r) =>
      var v, w := Value(tb, l), Value(tb, r);
      if v.None? || w.None? || C.LevelOf(op.kind) == C.LEVELS then None
      else C.Apply(tb, op.kind, v.value, w.value)
    case Paren(_, x, _) => Value(tb, x)
    case _ => None
  }

  // The token list followed by an end-of-file token, as the parser sees it.
  datatype Run = Run(scope: C.Scope, toks: seq<Tok>, c: Input)

  ghost predicate Paired(r: Run) {
    && C.ClosedTables(r.scope.tables, r.scope.names)
    && |r.c.toks| == |r.toks| + 1 && r.c.toks[..|r.toks|] == r.toks && r.c.toks[|r.toks|].kind == EOF
    && AllShared(r.toks)
  }

  lemma PairedFacts(r: Run)
    requires Paired(r)
    ensures r.c.Valid() && C.Closed(r.toks, r.scope.names)
    ensures forall k | 0 <= k < |r.toks| :: r.c.toks[k] == r.toks[k] && Shared(r.toks[k])
  {
    forall k | 0 <= k < |r.toks| ensures r.c.toks[k] == r.toks[k] && Shared(r.toks[k]) {
      assert r.c.toks[..|r.toks|][k] == r.c.toks[k];
    }
  }

  lemma LevelIsPower(t: Tok)
    requires Shared(t)
    ensures C.LevelOf(t.kind) < C.LEVELS ==> BindingPower(t.kind) == C.LevelOf(t.kind) + BP_LOGICAL_OR
    ensures C.LevelOf(t.kind) == C.LEVELS ==> BindingPower(t.kind) == 0
    ensures t.kind != MacroParam && t.kind != Identifier && t.kind != EOF && t.kind != Comma && t.kind != Question
    ensures !IsAssignOp(t.kind)
    ensures C.IsSign(t.kind) <==> IsUnaryOp(t.kind)
    ensures Continues(t.kind) ==> t.kind == LParen
    ensures t.kind != KwSizeof && t.kind != KwDefined
  {
  }

  lemma KindsMatch(r: Run, pos: nat)
    requires Paired(r) && pos <= |r.toks|
    ensures pos <= |r.toks| < |r.c.toks| && C.KindAt(r.toks, pos) == r.c.toks[pos].kind
    ensures pos == |r.toks| ==> C.LevelOf(C.KindAt(r.toks, pos)) == C.LEVELS
    ensures C.LevelOf(C.KindAt(r.toks, pos)) < C.LEVELS ==>
              BindingPower(r.c.toks[pos].kind) == C.LevelOf(C.KindAt(r.toks, pos)) + BP_LOGICAL_OR
    ensures C.LevelOf(C.KindAt(r.toks, pos)) == C.LEVELS ==> BindingPower(r.c.toks[pos].kind) == 0
    ensures var k := r.c.toks[pos].kind;
            && k != MacroParam && k != Identifier && k != Comma && k != Question && k != KwSizeof && k != KwDefined
            && !IsAssignOp(k) && (C.IsSign(k) <==> IsUnaryOp(k)) && (Continues(k) ==> k == LParen)
            && (IsLeafKind(k) ==> k == IntLiteral || k == CharLiteral)
    ensures pos < |r.toks| ==> r.toks[pos] == r.c.toks[pos] && (r.toks[pos].kind == Lt ==> !r.toks[pos].touches)
  {
    PairedFacts(r);
    if pos < |r.toks| { LevelIsPower(r.toks[pos]); }
  }

  // The two readings of the same tokens. Outside this part of the grammar the ladder fails
  // too, or gets stuck in front of an opening parenthesis.
  ghost predicate Agree(r: Run, p: Result, q: C.Reading) {
    match p
    case TooDeep => true
    case Outside => q.bad || C.KindAt(r.toks, q.pos) == LParen
    case Parsed(e, end) =>
      q.pos == end <= |r.toks| && Value(r.scope.tables, e) == if q.bad then None else Some(q.value)
  }

  // The parser's loop at one binding power is the loop at the next, and then its own.
  function Onward(c: Input, left: Result, minBP: nat, depth: nat, suppress: bool): Result
    requires c.Valid() && (left.Parsed? ==> left.pos < |c.toks|)
  {
    if left.Parsed? then ParseOperators(c, left.tree, left.pos, minBP, depth, suppress) else left
  }

  lemma {:induction false} LoopsNest(c: Input, left: Expr, pos: nat, minBP: nat, depth: nat, suppress: bool)
    requires c.Valid() && pos < |c.toks| && minBP <= BP_MULTIPLICATIVE
    ensures ParseOperators(c, left, pos, minBP, depth, suppress)
         == Onward(c, ParseOperators(c, left, pos, minBP + 1, depth, suppress), minBP, depth, suppress)
    decreases |c.toks| - pos
  {
    hide ParseBinary, BindingPower;
    var bp := BindingPower(c.toks[pos].kind);
    if c.toks[pos].kind == MacroParam || bp == 0 || bp < minBP + 1 || pos + 1 >= |c.toks| { return; }
    var right := ParseBinary(c, pos + 1, bp + 1, depth, suppress);
    if right.Parsed? {
      LoopsNest(c, Binary(c.toks[pos], left, right.tree), right.pos, minBP, depth, suppress);
    }
  }

  lemma BinaryNests(c: Input, pos: nat, minBP: nat, depth: nat, suppress: bool)
    requires c.Valid() && pos < |c.toks| && minBP <= BP_MULTIPLICATIVE
    ensures ParseBinary(c, pos, minBP, depth, suppress)
         == Onward(c, ParseBinary(c, pos, minBP + 1, depth, suppress), minBP, depth, suppress)
  {
    hide ParseUnary, ParseOperators;
    var left := ParseUnary(c, pos, depth, suppress);
    if left.Parsed? { LoopsNest(c, left.tree, left.pos, minBP, depth, suppress); }
  }

  lemma {:induction false} BadStays(r: Run, left: C.Reading, level: nat)
    requires Paired(r) && C.Fine(r.scope, r.toks, left.pos) && level < C.LEVELS && left.bad
    ensures C.ReadOperators(r.scope, r.toks, left, level).bad
    decreases |r.toks| - left.pos
  {
    C.OperatorsStep(r.scope, r.toks, left, level);
    var k := C.KindAt(r.toks, left.pos);
    if C.LevelOf(k) == level {
      var right := C.ReadLevel(r.scope, r.toks, left.pos + 1, level + 1);
      BadStays(r, C.Combine(r.scope.tables, k, left, right), level);
    }
  }

  lemma {:induction false} UnaryAgrees(r: Run, pos: nat, depth: nat, suppress: bool)
    requires Paired(r) && pos <= |r.toks| && C.Fine(r.scope, r.toks, pos) && r.c.Valid()
    ensures Agree(r, ParseUnary(r.c, pos, depth, suppress), C.ReadUnary(r.scope, r.toks, pos))
    decreases |r.toks| - pos, 2
  {
    hide ParsePrimary, C.ReadPrimary, Paired, C.Fine, C.Closed, C.ClosedTables, BindingPower, C.LevelOf, Value;
    KindsMatch(r, pos);
    if depth + 1 > MAX_PARSE_DEPTH { return; }
    if C.IsSign(r.c.toks[pos].kind) {
      SomeTokens(r, pos);
      UnaryAgrees(r, pos + 1, depth + 1, suppress);
      SignAgrees(r, pos, depth, suppress);
    } else {
      PrimaryAgrees(r, pos, depth + 1, suppress);
      var primary := ParsePrimary(r.c, pos, depth + 1, suppress);
      if primary.Parsed? { KindsMatch(r, primary.pos); }
    }
  }

  lemma SomeTokens(r: Run, pos: nat)
    requires Paired(r) && pos <= |r.toks| && C.Fine(r.scope, r.toks, pos) && C.IsSign(r.c.toks[pos].kind)
    ensures pos < |r.toks| && C.Fine(r.scope, r.toks, pos + 1)
  {
  }

  lemma SignAgrees(r: Run, pos: nat, depth: nat, suppress: bool)
    requires Paired(r) && pos < |r.toks| && C.Fine(r.scope, r.toks, pos) && r.c.Valid() && depth < MAX_PARSE_DEPTH
    requires C.IsSign(r.c.toks[pos].kind) && C.Fine(r.scope, r.toks, pos + 1)
    requires Agree(r, ParseUnary(r.c, pos + 1, depth + 1, suppress), C.ReadUnary(r.scope, r.toks, pos + 1))
    ensures Agree(r, ParseUnary(r.c, pos, depth, suppress), C.ReadUnary(r.scope, r.toks, pos))
  {
    hide Paired, C.Fine, BindingPower, C.LevelOf, ParsePrimary, C.ReadPrimary, C.Signed;
    KindsMatch(r, pos);
  }

  lemma {:induction false} PrimaryAgrees(r: Run, pos: nat, depth: nat, suppress: bool)
    requires Paired(r) && pos <= |r.toks| && C.Fine(r.scope, r.toks, pos) && r.c.Valid()
    requires !C.IsSign(r.c.toks[pos].kind)
    ensures Agree(r, ParsePrimary(r.c, pos, depth, suppress), C.ReadPrimary(r.scope, r.toks, pos))
    decreases |r.toks| - pos, 1
  {
    hide ParsePrimary, ParseExpression, ParseBinary, C.ReadPrimary, C.ReadLevel;
    if r.c.toks[pos].kind == LParen {
      KindsMatch(r, pos);
      LevelAgrees(r, pos + 1, 0, depth, suppress);
      ExpressionIsBinary(r, pos + 1, depth, suppress);
      ParenAgrees(r, pos, depth, suppress);
    } else {
      AtomAgrees(r, pos, depth, suppress);
    }
  }

  lemma AtomAgrees(r: Run, pos: nat, depth: nat, suppress: bool)
    requires Paired(r) && pos <= |r.toks| && C.Fine(r.scope, r.toks, pos) && r.c.Valid()
    requires !C.IsSign(r.c.toks[pos].kind) && r.c.toks[pos].kind != LParen
    ensures Agree(r, ParsePrimary(r.c, pos, depth, suppress), C.ReadPrimary(r.scope, r.toks, pos))
  {
    KindsMatch(r, pos);
    hide Paired, C.Fine, BindingPower, C.LevelOf;
  }

  lemma ParenAgrees(r: Run, pos: nat, depth: nat, suppress: bool)
    requires Paired(r) && pos < |r.toks| && C.Fine(r.scope, r.toks, pos) && r.c.Valid()
    requires r.c.toks[pos].kind == LParen && pos + 1 < |r.c.toks|
    requires Agree(r, ParseExpression(r.c, pos + 1, depth, suppress), C.ReadLevel(r.scope, r.toks, pos + 1, 0))
    ensures Agree(r, ParsePrimary(r.c, pos, depth, suppress), C.ReadPrimary(r.scope, r.toks, pos))
  {
    hide ParseExpression, C.ReadLevel, BindingPower, C.LevelOf, Paired, IsLeafKind, IsUnaryOp, Continues, C.IsSign;
    var inner := ParseExpression(r.c, pos + 1, depth, suppress);
    KindsMatch(r, pos);
    if inner.Parsed? { KindsMatch(r, inner.pos); }
  }

  // Nothing in the shared tokens takes the parser above the binary operators.
  lemma ExpressionIsBinary(r: Run, pos: nat, depth: nat, suppress: bool)
    requires Paired(r) && pos <= |r.toks| && r.c.Valid()
    ensures ParseExpression(r.c, pos, depth, suppress) == ParseBinary(r.c, pos, BP_LOGICAL_OR, depth, suppress)
  {
    var p := ParseBinary(r.c, pos, BP_LOGICAL_OR, depth, suppress);
    if p.Parsed? { KindsMatch(r, p.pos); }
    hide ParseBinary;
    assert ParseTernary(r.c, pos, depth, suppress) == p;
    assert ParseAssignment(r.c, pos, depth, suppress) == p;
  }

  lemma Rungs()
    ensures C.LEVELS + BP_LOGICAL_OR == BP_UNARY == BP_MULTIPLICATIVE + 1
  {
  }

  lemma {:induction false} LevelAgrees(r: Run, pos: nat, level: nat, depth: nat, suppress: bool)
    requires Paired(r) && pos <= |r.toks| && C.Fine(r.scope, r.toks, pos) && r.c.Valid() && level <= C.LEVELS
    ensures Agree(r, ParseBinary(r.c, pos, level + BP_LOGICAL_OR, depth, suppress),
                  C.ReadLevel(r.scope, r.toks, pos, level))
    decreases |r.toks| - pos, 4 + C.LEVELS - level, 1
  {
    hide *;
    Rungs();
    if level == C.LEVELS {
      TopAgrees(r, pos, depth, suppress);
      return;
    }
    var m := level + BP_LOGICAL_OR;
    Behind(r, pos);
    LevelStep(r, pos, level);
    var p := ParseBinary(r.c, pos, m + 1, depth, suppress);
    var q := C.ReadLevel(r.scope, r.toks, pos, level + 1);
    LevelAgrees(r, pos, level + 1, depth, suppress);
    BinaryNests(r.c, pos, m, depth, suppress);
    BinarySound(r.c, pos, m + 1, depth, suppress);
    RungAgrees(r, pos, p, q, level, depth, suppress);
  }

  lemma {:induction false} TopAgrees(r: Run, pos: nat, depth: nat, suppress: bool)
    requires Paired(r) && pos <= |r.toks| && C.Fine(r.scope, r.toks, pos) && r.c.Valid()
    ensures Agree(r, ParseBinary(r.c, pos, BP_UNARY, depth, suppress), C.ReadLevel(r.scope, r.toks, pos, C.LEVELS))
    decreases |r.toks| - pos, 3
  {
    hide ParseUnary, ParseOperators, C.ReadUnary, Agree, Paired, C.Fine;
    Behind(r, pos);
    UnaryAgrees(r, pos, depth, suppress);
    BinaryStep(r.c, pos, BP_UNARY, depth, suppress);
    var p := ParseUnary(r.c, pos, depth, suppress);
    if p.Parsed? {
      BindsTightest(r.c.toks[p.pos].kind);
      OperatorsStep(r.c, p.tree, p.pos, BP_UNARY, depth, suppress);
    }
  }

  lemma Behind(r: Run, pos: nat)
    requires Paired(r) && pos <= |r.toks|
    ensures pos < |r.c.toks|
  {
  }

  lemma BindsTightest(k: Kind)
    ensures !Operates(k, BP_UNARY)
  {
  }

  lemma LevelStep(r: Run, pos: nat, level: nat)
    requires Paired(r) && C.Fine(r.scope, r.toks, pos) && level < C.LEVELS
    ensures var q := C.ReadLevel(r.scope, r.toks, pos, level + 1);
            && pos <= q.pos && C.Fine(r.scope, r.toks, q.pos)
            && C.ReadLevel(r.scope, r.toks, pos, level) == C.ReadOperators(r.scope, r.toks, q, level)
    ensures pos < |r.c.toks|
  {
    hide C.ReadOperators;
  }

  lemma {:induction false} RungAgrees(r: Run, pos: nat, p: Result, q: C.Reading, level: nat, depth: nat, suppress: bool)
    requires Paired(r) && pos <= q.pos && C.Fine(r.scope, r.toks, q.pos) && r.c.Valid() && level < C.LEVELS
    requires Agree(r, p, q) && OperationAt(r.c, pos, level + BP_LOGICAL_OR + 1, depth, suppress, p)
    ensures Agree(r, Onward(r.c, p, level + BP_LOGICAL_OR, depth, suppress), C.ReadOperators(r.scope, r.toks, q, level))
    decreases |r.toks| - pos, 4 + C.LEVELS - level, 0
  {
    hide ParseOperators, C.ReadOperators, Good, BindingPower, Value;
    if p.Parsed? {
      OperatorsAgree(r, p.tree, q, level, depth, suppress);
    } else if p.Outside? {
      StuckAgrees(r, q, level);
    }
  }

  // One turn of the parser's loop, where the operators before it bound tighter.
  lemma ParserTurn(r: Run, e: Expr, pos: nat, level: nat, depth: nat, suppress: bool)
    requires Paired(r) && pos <= |r.toks| && r.c.Valid() && level < C.LEVELS
    requires BindingPower(r.c.toks[pos].kind) <= level + BP_LOGICAL_OR
    ensures C.LevelOf(C.KindAt(r.toks, pos)) != level ==>
      ParseOperators(r.c, e, pos, level + BP_LOGICAL_OR, depth, suppress) == Parsed(e, pos)
    ensures C.LevelOf(C.KindAt(r.toks, pos)) == level ==>
      pos < |r.toks| < |r.c.toks| && r.toks[pos] == r.c.toks[pos] &&
      var right := ParseBinary(r.c, pos + 1, level + BP_LOGICAL_OR + 1, depth, suppress);
      ParseOperators(r.c, e, pos, level + BP_LOGICAL_OR, depth, suppress)
      == if right.Parsed? then
           ParseOperators(r.c, Binary(r.toks[pos], e, right.tree), right.pos, level + BP_LOGICAL_OR, depth, suppress)
         else right
  {
    hide ParseBinary, BindingPower, Paired, Continues, IsAssignOp, IsUnaryOp, IsLeafKind, C.IsSign;
    KindsMatch(r, pos);
  }

  lemma {:induction false} OperatorsAgree(r: Run, e: Expr, left: C.Reading, level: nat, depth: nat, suppress: bool)
    requires Paired(r) && C.Fine(r.scope, r.toks, left.pos) && r.c.Valid() && level < C.LEVELS
    requires Agree(r, Parsed(e, left.pos), left)
    requires BindingPower(r.c.toks[left.pos].kind) <= level + BP_LOGICAL_OR
    ensures Agree(r, ParseOperators(r.c, e, left.pos, level + BP_LOGICAL_OR, depth, suppress),
                  C.ReadOperators(r.scope, r.toks, left, level))
    decreases |r.toks| - left.pos, 0
  {
    hide ParseBinary, ParseOperators, BindingPower, C.ReadLevel, C.ReadOperators, C.LevelOf, C.Apply, Value, Good,
         Paired;
    hide C.Closed, C.ClosedTables;
    var m := level + BP_LOGICAL_OR;
    var k := C.KindAt(r.toks, left.pos);
    ParserTurn(r, e, left.pos, level, depth, suppress);
    C.OperatorsStep(r.scope, r.toks, left, level);
    if C.LevelOf(k) != level { return; }
    LevelAgrees(r, left.pos + 1, level + 1, depth, suppress);
    var p := ParseBinary(r.c, left.pos + 1, m + 1, depth, suppress);
    var q := C.ReadLevel(r.scope, r.toks, left.pos + 1, level + 1);
    var both := C.Combine(r.scope.tables, k, left, q);
    if p.Parsed? {
      BinarySound(r.c, left.pos + 1, m + 1, depth, suppress);
      JoinAgrees(r, r.toks[left.pos], e, left, p, q);
      OperatorsAgree(r, Binary(r.toks[left.pos], e, p.tree), both, level, depth, suppress);
    } else if p.Outside? {
      StuckAgrees(r, both, level);
    }
  }

  lemma JoinAgrees(r: Run, op: Tok, e: Expr, left: C.Reading, p: Result, q: C.Reading)
    requires p.Parsed? && Agree(r, Parsed(e, left.pos), left) && Agree(r, p, q) && C.LevelOf(op.kind) < C.LEVELS
    ensures Agree(r, Parsed(Binary(op, e, p.tree), p.pos), C.Combine(r.scope.tables, op.kind, left, q))
  {
    hide C.Apply, C.LevelOf;
  }

  lemma StuckAgrees(r: Run, q: C.Reading, level: nat)
    requires Paired(r) && C.Fine(r.scope, r.toks, q.pos) && level < C.LEVELS && Agree(r, Outside, q)
    ensures Agree(r, Outside, C.ReadOperators(r.scope, r.toks, q, level))
  {
    hide C.ReadOperators, C.Fine, Paired, C.ReadLevel, C.Combine;
    if q.bad { BadStays(r, q, level); } else { C.OperatorsStep(r.scope, r.toks, q, level); }
  }

  // ----- short lists are never too deep ------------------------------------------------------

  lemma {:induction false} UnaryNotTooDeep(c: Input, pos: nat, depth: nat, suppress: bool)
    requires c.Valid() && pos < |c.toks| && depth + (|c.toks| - pos) <= MAX_PARSE_DEPTH
    ensures ParseUnary(c, pos, depth, suppress) != TooDeep
    decreases |c.toks| - pos, 2
  {
    var t := c.toks[pos];
    if IsUnaryOp(t.kind) {
      UnaryNotTooDeep(c, pos + 1, depth + 1, suppress);
    } else {
      PrimaryNotTooDeep(c, pos, depth, suppress);
    }
  }

  lemma {:induction false} PrimaryNotTooDeep(c: Input, pos: nat, depth: nat, suppress: bool)
    requires c.Valid() && pos < |c.toks| && depth + (|c.toks| - pos) <= MAX_PARSE_DEPTH
    ensures ParsePrimary(c, pos, depth + 1, suppress) != TooDeep
    decreases |c.toks| - pos, 1
  {
    hide ParseAssignment;
    var t := c.toks[pos];
    if t.kind == LParen {
      AssignmentNotTooDeep(c, pos + 1, depth + 1, suppress);
      assert ParseExpression(c, pos + 1, depth + 1, suppress) != TooDeep;
    }
  }

  lemma {:induction false} AssignmentNotTooDeep(c: Input, pos: nat, depth: nat, suppress: bool)
    requires c.Valid() && pos < |c.toks| && depth + (|c.toks| - pos) <= MAX_PARSE_DEPTH
    ensures ParseAssignment(c, pos, depth, suppress) != TooDeep
    decreases |c.toks| - pos, 5
  {
    hide ParseTernary;
    assert !IsAssignOp(EOF);
    hide IsAssignOp;
    TernaryNotTooDeep(c, pos, depth, suppress);
    var left := ParseTernary(c, pos, depth, suppress);
    if left.Parsed? && left.pos + 1 < |c.toks| {
      AssignmentNotTooDeep(c, left.pos + 1, depth, suppress);
    }
  }

  lemma {:induction false} TernaryNotTooDeep(c: Input, pos: nat, depth: nat, suppress: bool)
    requires c.Valid() && pos < |c.toks| && depth + (|c.toks| - pos) <= MAX_PARSE_DEPTH
    ensures ParseTernary(c, pos, depth, suppress) != TooDeep
    decreases |c.toks| - pos, 4
  {
    hide ParseBinary, ParseAssignment;
    BinaryNotTooDeep(c, pos, BP_LOGICAL_OR, depth, suppress);
    var cond := ParseBinary(c, pos, BP_LOGICAL_OR, depth, suppress);
    if !cond.Parsed? || cond.pos + 1 >= |c.toks| { return; }
    AssignmentNotTooDeep(c, cond.pos + 1, depth, true);
    var consequence := ParseAssignment(c, cond.pos + 1, depth, true);
    if consequence.Parsed? && consequence.pos + 1 < |c.toks| {
      AssignmentNotTooDeep(c, consequence.pos + 1, depth, suppress);
    }
  }

  lemma {:induction false} BinaryNotTooDeep(c: Input, pos: nat, minBP: nat, depth: nat, suppress: bool)
    requires c.Valid() && pos < |c.toks| && depth + (|c.toks| - pos) <= MAX_PARSE_DEPTH
    ensures ParseBinary(c, pos, minBP, depth, suppress) != TooDeep
    decreases |c.toks| - pos, 3
  {
    hide ParseUnary, ParseOperators;
    UnaryNotTooDeep(c, pos, depth, suppress);
    var left := ParseUnary(c, pos, depth, suppress);
    if left.Parsed? { OperatorsNotTooDeep(c, left.tree, left.pos, minBP, depth, suppress); }
  }

  lemma {:induction false} OperatorsNotTooDeep(c: Input, left: Expr, pos: nat, minBP: nat, depth: nat, suppress: bool)
    requires c.Valid() && pos < |c.toks| && depth + (|c.toks| - pos) <= MAX_PARSE_DEPTH
    ensures ParseOperators(c, left, pos, minBP, depth, suppress) != TooDeep
    decreases |c.toks| - pos, 0
  {
    hide ParseBinary;
    var bp := BindingPower(c.toks[pos].kind);
    assert c.toks[pos].kind == EOF ==> bp == 0;
    hide BindingPower;
    if c.toks[pos].kind == MacroParam || bp == 0 || bp < minBP { return; }
    BinaryNotTooDeep(c, pos + 1, bp + 1, depth, suppress);
    var right := ParseBinary(c, pos + 1, bp + 1, depth, suppress);
    if right.Parsed? {
      OperatorsNotTooDeep(c, Binary(c.toks[pos], left, right.tree), right.pos, minBP, depth, suppress);
    }
  }

  // ----- main results ------------------------------------------------------------------------

  function Followed(toks: seq<Tok>, eof: Tok, tags: set<string>): Input {
    Input(toks + [eof], tags)
  }

  // A condition has a value exactly if the parser reads all of it as one expression with
  // this value, unless the parser gives up at its recursion limit.
  lemma ConditionIsExpression(tb: C.Tables, toks: seq<Tok>, eof: Tok, tags: set<string>, suppress: bool)
    requires eof.kind == EOF && AllShared(toks)
    ensures var c := Followed(toks, eof, tags);
            && c.Valid()
            && var p := ParseBinary(c, 0, BP_LOGICAL_OR, 0, suppress);
               var v := C.ConditionValue(tb, toks);
               && (v.Some? ==> p == TooDeep || (p.Parsed? && p.pos == |toks| && Value(tb, p.tree) == v))
               && (p.Parsed? && p.pos == |toks| ==> Value(tb, p.tree) == v)
  {
    hide ParseBinary, C.ReadLevel, Value, C.Names, AllShared, Followed, C.Closed, C.ClosedTables, Paired;
    var s := C.Scope(tb, {}, C.Names(tb, toks));
    var r := Run(s, toks, Followed(toks, eof, tags));
    FollowedIsPaired(r, eof, tags);
    PairedFacts(r);
    LevelAgrees(r, 0, 0, 0, suppress);
    if toks == [] { EndIsOutside(r.c, suppress); }
  }

  lemma FollowedIsPaired(r: Run, eof: Tok, tags: set<string>)
    requires eof.kind == EOF && AllShared(r.toks) && C.ClosedTables(r.scope.tables, r.scope.names)
    requires r.c == Followed(r.toks, eof, tags)
    ensures Paired(r) && r.c.toks[|r.toks|].kind == EOF
  {
    hide Shared;
  }

  lemma EndIsOutside(c: Input, suppress: bool)
    requires c.Valid() && c.toks[0].kind == EOF
    ensures ParseBinary(c, 0, BP_LOGICAL_OR, 0, suppress) == Outside
  {
    assert ParsePrimary(c, 0, 1, suppress) == Outside;
    assert ParseUnary(c, 0, 0, suppress) == Outside;
  }

  // Fewer tokens than the recursion limit always fit.
  lemma ShortConditionIsExpression(tb: C.Tables, toks: seq<Tok>, eof: Tok, tags: set<string>, suppress: bool)
    requires eof.kind == EOF && AllShared(toks) && |toks| < MAX_PARSE_DEPTH && C.ConditionValue(tb, toks).Some?
    ensures var c := Followed(toks, eof, tags);
            && c.Valid()
            && var p := ParseBinary(c, 0, BP_LOGICAL_OR, 0, suppress);
               p.Parsed? && p.pos == |toks| && Value(tb, p.tree) == C.ConditionValue(tb, toks)
  {
    ConditionIsExpression(tb, toks, eof, tags, suppress);
    BinaryNotTooDeep(Followed(toks, eof, tags), 0, BP_LOGICAL_OR, 0, suppress);
  }
}
