// The language the precedence-climbing parser accepts: a tree is returned exactly when
// it spells the tokens and every operator binds as tightly as its place demands
// (expressions.go, literals.go).
module PrattLanguage {
  import opened Tokens
  import opened AngleClose
  import opened Pratt

  function Joined(x: seq<Tok>, op: Tok, y: seq<Tok>): (r: seq<Tok>)
    ensures |r| == |x| + 1 + |y|
  {
    x + ([op] + y)
  }

  function Prefixed(t: Tok, x: seq<Tok>): (r: seq<Tok>)
    ensures |r| == 1 + |x|
  {
    [t] + x
  }

  function Enclosed(open: Tok, x: seq<Tok>, close: Tok): (r: seq<Tok>)
    ensures |r| == |x| + 2
  {
    [open] + (x + [close])
  }

  // The tokens of a tree in order.
  function Flatten(e: Expr): (r: seq<Tok>)
    ensures r != []
  {
    match e
    case Leaf(t) => [t]
    case Unary(op, x) => Prefixed(op, Flatten(x))
    case Binary(op, l, r) => Joined(Flatten(l), op, Flatten(r))
    case Assignment(op, l, r) => Joined(Flatten(l), op, Flatten(r))
    case Ternary(cond, q, a, k, b) => Joined(Flatten(cond), q, Joined(Flatten(a), k, Flatten(b)))
    case Paren(o, x, k) => Enclosed(o, Flatten(x), k)
  }

  function Size(e: Expr): (n: nat)
    ensures n == |Flatten(e)| && n > 0
  {
    match e
    case Leaf(t) => 1
    case Unary(op, x) => 1 + Size(x)
    case Binary(op, l, r) => Size(l) + 1 + Size(r)
    case Assignment(op, l, r) => Size(l) + 1 + Size(r)
    case Ternary(cond, q, a, k, b) => Size(cond) + 1 + Size(a) + 1 + Size(b)
    case Paren(o, x, k) => Size(x) + 2
  }

  // The tokens from pos on spell e.
  ghost predicate Spells(toks: seq<Tok>, pos: nat, e: Expr) {
    SpellsOut(toks, pos, Flatten(e))
  }

  ghost predicate SpellsOut(toks: seq<Tok>, pos: nat, spelled: seq<Tok>) {
    pos + |spelled| <= |toks| && toks[pos..pos + |spelled|] == spelled
  }

  lemma SpellsTwo(toks: seq<Tok>, pos: nat, x: seq<Tok>, y: seq<Tok>)
    ensures SpellsOut(toks, pos, x + y) <==> SpellsOut(toks, pos, x) && SpellsOut(toks, pos + |x|, y)
  {
    if pos + |x| + |y| > |toks| { return; }
    var both := toks[pos..pos + |x| + |y|];
    assert both[..|x|] == toks[pos..pos + |x|] && both[|x|..] == toks[pos + |x|..pos + |x| + |y|];
    assert (x + y)[..|x|] == x && (x + y)[|x|..] == y;
    assert both == both[..|x|] + both[|x|..];
  }

  lemma SpellsOne(toks: seq<Tok>, pos: nat, t: Tok)
    ensures SpellsOut(toks, pos, [t]) <==> pos < |toks| && toks[pos] == t
  {
    if pos < |toks| { assert toks[pos..pos + 1] == [toks[pos]]; }
  }

  lemma SpellsFront(toks: seq<Tok>, pos: nat, t: Tok, y: seq<Tok>)
    ensures SpellsOut(toks, pos, Prefixed(t, y)) <==> pos < |toks| && toks[pos] == t && SpellsOut(toks, pos + 1, y)
  {
    hide SpellsOut;
    SpellsTwo(toks, pos, [t], y);
    SpellsOne(toks, pos, t);
  }

  lemma SpellsAround(toks: seq<Tok>, pos: nat, x: seq<Tok>, t: Tok, y: seq<Tok>)
    ensures SpellsOut(toks, pos, Joined(x, t, y)) <==>
            && SpellsOut(toks, pos, x) && pos + |x| < |toks| && toks[pos + |x|] == t
            && SpellsOut(toks, pos + |x| + 1, y)
  {
    hide SpellsOut;
    SpellsTwo(toks, pos, x, [t] + y);
    SpellsFront(toks, pos + |x|, t, y);
    assert [t] + y == Prefixed(t, y);
  }

  lemma SpellsInside(toks: seq<Tok>, pos: nat, open: Tok, x: seq<Tok>, close: Tok)
    ensures SpellsOut(toks, pos, Enclosed(open, x, close)) <==>
            && pos + 1 + |x| < |toks| && toks[pos] == open && SpellsOut(toks, pos + 1, x)
                && toks[pos + 1 + |x|] == close
  {
    hide SpellsOut;
    SpellsFront(toks, pos, open, x + [close]);
    assert Enclosed(open, x, close) == Prefixed(open, x + [close]);
    SpellsTwo(toks, pos + 1, x, [close]);
    SpellsOne(toks, pos + 1 + |x|, close);
  }

  function Last(e: Expr): (t: Tok)
    ensures t == Flatten(e)[|Flatten(e)| - 1]
  {
    match e
    case Leaf(t) => t
    case Unary(_, x) => Last(x)
    case Binary(_, _, r) => Last(r)
    case Assignment(_, _, r) => Last(r)
    case Ternary(_, _, _, _, b) => Last(b)
    case Paren(_, _, k) => k
  }

  predicate IsTag(t: Tok, tags: set<string>) {
    t.kind == Identifier && t.text in tags
  }

  // The tree can stand where an operator of binding power `level` looks for an operand:
  // no operator binds weaker than its context allows. An assignment's target is never a
  // conditional, whose last arm would have taken the assignment.
  predicate Fits(e: Expr, level: nat, tags: set<string>) {
    match e
    case Leaf(t) => IsLeafKind(t.kind)
    case Unary(op, x) => IsUnaryOp(op.kind) && Fits(x, BP_UNARY, tags)
    case Binary(op, l, r) =>
      var bp := BindingPower(op.kind);
      bp > 0 && level <= bp && Fits(l, bp, tags) && Fits(r, bp + 1, tags)
    case Assignment(op, l, r) =>
      IsAssignOp(op.kind) && level <= BP_ASSIGN && Fits(l, BP_LOGICAL_OR, tags) && Fits(r, BP_ASSIGN, tags)
    case Ternary(cond, q, a, k, b) =>
      && q.kind == Question && k.kind == Colon && level <= BP_TERNARY
      && Fits(cond, BP_LOGICAL_OR, tags) && Fits(a, BP_ASSIGN, tags) && !IsTag(Last(a), tags)
      && Fits(b, BP_ASSIGN, tags)
    case Paren(o, x, k) => o.kind == LParen && k.kind == RParen && Fits(x, BP_ASSIGN, tags)
  }

  // Nested unary operators and parentheses, in the parser's recursion limit.
  function Height(e: Expr): (h: nat)
    ensures h > 0
  {
    match e
    case Leaf(t) => 1
    case Unary(op, x) => 1 + Height(x)
    case Binary(op, l, r) => Max(Height(l), Height(r))
    case Assignment(op, l, r) => Max(Height(l), Height(r))
    case Ternary(cond, q, a, k, b) => Max(Height(cond), Max(Height(a), Height(b)))
    case Paren(o, x, k) => 1 + Height(x)
  }

  function Max(a: nat, b: nat): nat { if a < b then b else a }

  // The token at `end` ends a primary expression.
  predicate EndsOperand(c: Input, end: nat, suppress: bool)
    requires 0 < end < |c.toks|
  {
    var k := c.toks[end].kind;
    && !Continues(k)
    && (k == Colon && c.toks[end - 1].kind == Identifier ==> suppress && c.toks[end - 1].text !in c.knownTags)
  }

  // The token at `end` ends an expression read at assignment level.
  predicate EndsAssignment(c: Input, end: nat, suppress: bool)
    requires 0 < end < |c.toks|
  {
    var k := c.toks[end].kind;
    && EndsOperand(c, end, suppress)
    && k != MacroParam && BindingPower(k) == 0 && k != Question && !IsAssignOp(k)
  }


  // e spells the tokens from pos to end and can stand there.
  ghost predicate Good(c: Input, pos: nat, level: nat, depth: nat, suppress: bool, e: Expr, end: nat) {
    && Spells(c.toks, pos, e) && end == pos + Size(e) < |c.toks|
    && Fits(e, level, c.knownTags) && depth + Height(e) <= MAX_PARSE_DEPTH && EndsOperand(c, end, suppress)
  }

  lemma LastSpelled(toks: seq<Tok>, pos: nat, e: Expr)
    requires Spells(toks, pos, e)
    ensures pos + Size(e) <= |toks| && Last(e) == toks[pos + Size(e) - 1]
  {
    hide Flatten, Size, Last;
    var s := toks[pos..pos + Size(e)];
    assert s[|s| - 1] == toks[pos + Size(e) - 1];
  }

  lemma OperatorEnds(c: Input, end: nat, suppress: bool)
    ensures 0 < end < |c.toks| && (BindingPower(c.toks[end].kind) > 0 || IsAssignOp(c.toks[end].kind)) ==>
              EndsOperand(c, end, suppress)
  {
  }

  // One level of Good, by the kind of node.
  lemma GoodBinary(c: Input, pos: nat, level: nat, depth: nat, suppress: bool, e: Expr, mid: nat, end: nat)
    requires e.Binary? && mid == pos + Size(e.left)
    ensures var bp := BindingPower(e.op.kind);
            Good(c, pos, level, depth, suppress, e, end) <==>
            && 0 < bp && level <= bp && Good(c, pos, bp, depth, suppress, e.left, mid)
            && c.toks[mid] == e.op && Good(c, mid + 1, bp + 1, depth, suppress, e.right, end)
  {
    hide SpellsOut, Joined, EndsOperand, Continues;
    SpellsAround(c.toks, pos, Flatten(e.left), e.op, Flatten(e.right));
    OperatorEnds(c, mid, suppress);
  }

  lemma GoodAssignment(c: Input, pos: nat, level: nat, depth: nat, suppress: bool, e: Expr, mid: nat, end: nat)
    requires e.Assignment? && mid == pos + Size(e.left)
    ensures Good(c, pos, level, depth, suppress, e, end) <==>
            && level <= BP_ASSIGN && IsAssignOp(e.op.kind) && Good(c, pos, BP_LOGICAL_OR, depth, suppress, e.left, mid)
            && c.toks[mid] == e.op && Good(c, mid + 1, BP_ASSIGN, depth, suppress, e.right, end)
  {
    hide SpellsOut, Joined, EndsOperand, Continues;
    SpellsAround(c.toks, pos, Flatten(e.left), e.op, Flatten(e.right));
    OperatorEnds(c, mid, suppress);
  }

  lemma SpellsThree(toks: seq<Tok>, pos: nat, x: seq<Tok>, q: Tok, y: seq<Tok>, k: Tok, z: seq<Tok>, mid: nat,
                    last: nat)
    requires mid == pos + |x| + 1 && last == mid + |y| + 1
    ensures SpellsOut(toks, pos, Joined(x, q, Joined(y, k, z))) <==>
            && last - 1 < |toks| && toks[mid - 1] == q && toks[last - 1] == k
            && SpellsOut(toks, pos, x) && SpellsOut(toks, mid, y) && SpellsOut(toks, last, z)
  {
    hide SpellsOut, Joined;
    SpellsAround(toks, pos, x, q, Joined(y, k, z));
    SpellsAround(toks, mid, y, k, z);
  }

  lemma SpellsTernary(toks: seq<Tok>, pos: nat, cond: Expr, q: Tok, a: Expr, k: Tok, b: Expr)
    ensures var mid := pos + Size(cond) + 1;
            var last := mid + Size(a) + 1;
            Spells(toks, pos, Ternary(cond, q, a, k, b)) <==>
            && last - 1 < |toks| && toks[mid - 1] == q && toks[last - 1] == k
            && Spells(toks, pos, cond) && Spells(toks, mid, a) && Spells(toks, last, b)
  {
    hide SpellsOut, Joined, Size;
    var mid := pos + Size(cond) + 1;
    SpellsThree(toks, pos, Flatten(cond), q, Flatten(a), k, Flatten(b), mid, mid + Size(a) + 1);
  }

  lemma GoodTernary(c: Input, pos: nat, level: nat, depth: nat, suppress: bool, e: Expr, mid: nat, last: nat, end: nat)
    requires e.Ternary? && mid == pos + Size(e.cond) + 1 && last == mid + Size(e.consequence) + 1
    ensures Good(c, pos, level, depth, suppress, e, end) <==>
            && level <= BP_TERNARY && e.question.kind == Question && e.colon.kind == Colon
            && Good(c, pos, BP_LOGICAL_OR, depth, suppress, e.cond, mid - 1) && c.toks[mid - 1] == e.question
            && Good(c, mid, BP_ASSIGN, depth, true, e.consequence, last - 1) && c.toks[last - 1] == e.colon
            && Good(c, last, BP_ASSIGN, depth, suppress, e.alternative, end)
  {
    hide Spells, Flatten, Size, Height, Last, EndsOperand;
    SpellsTernary(c.toks, pos, e.cond, e.question, e.consequence, e.colon, e.alternative);
    TernaryHeight(e, depth);
    TernarySize(e);
    ArmsEnd(c, mid - 1, suppress);
    if last - 1 < |c.toks| && c.toks[last - 1].kind == Colon && Spells(c.toks, mid, e.consequence) {
      ConsequenceEnds(c, mid, e.consequence);
    }
  }

  lemma ArmsEnd(c: Input, end: nat, suppress: bool)
    ensures 0 < end < |c.toks| && c.toks[end].kind == Question ==> EndsOperand(c, end, suppress)
  {
  }

  lemma ConsequenceEnds(c: Input, pos: nat, a: Expr)
    requires Spells(c.toks, pos, a) && pos + Size(a) < |c.toks| && c.toks[pos + Size(a)].kind == Colon
    ensures EndsOperand(c, pos + Size(a), true) <==> !IsTag(Last(a), c.knownTags)
  {
    hide Spells, Flatten, Size, Last;
    LastSpelled(c.toks, pos, a);
  }

  lemma TernarySize(e: Expr)
    requires e.Ternary?
    ensures Size(e) == Size(e.cond) + 1 + Size(e.consequence) + 1 + Size(e.alternative)
  {
  }

  lemma TernaryHeight(e: Expr, depth: nat)
    requires e.Ternary?
    ensures depth + Height(e) <= MAX_PARSE_DEPTH <==>
            && depth + Height(e.cond) <= MAX_PARSE_DEPTH && depth + Height(e.consequence) <= MAX_PARSE_DEPTH
            && depth + Height(e.alternative) <= MAX_PARSE_DEPTH
  {
  }

  lemma GoodUnary(c: Input, pos: nat, level: nat, depth: nat, suppress: bool, e: Expr, end: nat)
    requires e.Unary?
    ensures Good(c, pos, level, depth, suppress, e, end) <==>
            && IsUnaryOp(e.op.kind) && pos < |c.toks| && c.toks[pos] == e.op
            && Good(c, pos + 1, BP_UNARY, depth + 1, suppress, e.operand, end)
  {
    hide SpellsOut, Prefixed, EndsOperand;
    SpellsFront(c.toks, pos, e.op, Flatten(e.operand));
  }

  lemma GoodParen(c: Input, pos: nat, level: nat, depth: nat, suppress: bool, e: Expr, end: nat)
    requires e.Paren?
    ensures Good(c, pos, level, depth, suppress, e, end) <==>
            && 0 < end < |c.toks| && pos < |c.toks| && e.open.kind == LParen && c.toks[pos] == e.open
            && Good(c, pos + 1, BP_ASSIGN, depth + 1, suppress, e.inner, end - 1)
            && e.close.kind == RParen && c.toks[end - 1] == e.close && EndsOperand(c, end, suppress)
  {
    hide SpellsOut, Enclosed, Continues;
    SpellsInside(c.toks, pos, e.open, Flatten(e.inner), e.close);
    CloserIsEnd(c, end - 1, suppress);
  }

  lemma CloserIsEnd(c: Input, end: int, suppress: bool)
    ensures 0 < end < |c.toks| && c.toks[end].kind == RParen ==> EndsOperand(c, end, suppress)
  {
  }

  lemma GoodLeaf(c: Input, pos: nat, level: nat, depth: nat, suppress: bool, e: Expr, end: nat)
    requires e.Leaf?
    ensures Good(c, pos, level, depth, suppress, e, end) <==>
            && end == pos + 1 < |c.toks| && c.toks[pos] == e.tok && IsLeafKind(e.tok.kind) && depth < MAX_PARSE_DEPTH
            && EndsOperand(c, end, suppress)
  {
    hide SpellsOut, Continues;
    SpellsOne(c.toks, pos, e.tok);
  }

  lemma GoodLower(c: Input, pos: nat, level: nat, lower: nat, depth: nat, suppress: bool, e: Expr, end: nat)
    requires Good(c, pos, level, depth, suppress, e, end) && lower <= level
    ensures Good(c, pos, lower, depth, suppress, e, end)
  {
    hide Flatten, Size, Height, EndsOperand, SpellsOut;
  }

  lemma GoodEnds(c: Input, pos: nat, level: nat, depth: nat, suppress: bool, e: Expr, end: nat)
    requires Good(c, pos, level, depth, suppress, e, end)
    ensures pos < end < |c.toks| && end == pos + Size(e) && EndsOperand(c, end, suppress)
  {
    hide Flatten, Fits, Height, EndsOperand, SpellsOut;
  }

  // ----- what the parser returns is in the language --------------------------------------

  ghost predicate IsOperation(e: Expr) {
    !e.Ternary? && !e.Assignment?
  }

  // What a result of parsing at binary level `minBP` from pos on satisfies.
  ghost predicate OperationAt(c: Input, pos: nat, minBP: nat, depth: nat, suppress: bool, r: Result) {
    r.Parsed? ==>
      && Good(c, pos, minBP, depth, suppress, r.tree, r.pos) && IsOperation(r.tree) && r.pos < |c.toks|
      && BindingPower(c.toks[r.pos].kind) < minBP
      && (minBP <= BP_MULTIPLICATIVE ==> c.toks[r.pos].kind != MacroParam)
  }

  ghost predicate TernaryAt(c: Input, pos: nat, depth: nat, suppress: bool, r: Result) {
    r.Parsed? ==>
      && r.pos < |c.toks|
      && Good(c, pos, if r.tree.Ternary? then BP_TERNARY else BP_LOGICAL_OR, depth, suppress, r.tree, r.pos)
      && (r.tree.Ternary? ==> !IsAssignOp(c.toks[r.pos].kind))
      && c.toks[r.pos].kind != MacroParam && BindingPower(c.toks[r.pos].kind) == 0
      && c.toks[r.pos].kind != Question
  }

  ghost predicate AssignmentAt(c: Input, pos: nat, depth: nat, suppress: bool, r: Result) {
    r.Parsed? ==>
      0 < r.pos < |c.toks| && Good(c, pos, BP_ASSIGN, depth, suppress, r.tree, r.pos)
      && EndsAssignment(c, r.pos, suppress)
  }

  lemma {:induction false} AssignmentSound(c: Input, pos: nat, depth: nat, suppress: bool)
    requires c.Valid() && pos < |c.toks|
    ensures AssignmentAt(c, pos, depth, suppress, ParseAssignment(c, pos, depth, suppress))
    decreases |c.toks| - pos, 5
  {
    hide Good, ParseTernary, ParseAssignment, EndsOperand, BindingPower, IsAssignOp, Continues, Input.Valid;
    AssignmentStep(c, pos, depth, suppress);
    var left := ParseTernary(c, pos, depth, suppress);
    TernarySound(c, pos, depth, suppress);
    if !left.Parsed? { return; }
    var level := if left.tree.Ternary? then BP_TERNARY else BP_LOGICAL_OR;
    GoodEnds(c, pos, level, depth, suppress, left.tree, left.pos);
    if !IsAssignOp(c.toks[left.pos].kind) {
      GoodLower(c, pos, level, BP_ASSIGN, depth, suppress, left.tree, left.pos);
      return;
    }
    var right := ParseAssignment(c, left.pos + 1, depth, suppress);
    AssignmentSound(c, left.pos + 1, depth, suppress);
    if !right.Parsed? { return; }
    GoodAssignment(c, pos, BP_ASSIGN, depth, suppress, Assignment(c.toks[left.pos], left.tree, right.tree),
                   left.pos, right.pos);
  }

  lemma TernaryBuilt(c: Input, pos: nat, depth: nat, suppress: bool, cond: Result, consequence: Result,
                     alternative: Result)
    requires cond.Parsed? && consequence.Parsed? && alternative.Parsed?
    requires OperationAt(c, pos, BP_LOGICAL_OR, depth, suppress, cond) && c.toks[cond.pos].kind == Question
    requires AssignmentAt(c, cond.pos + 1, depth, true, consequence) && c.toks[consequence.pos].kind == Colon
    requires AssignmentAt(c, consequence.pos + 1, depth, suppress, alternative)
    ensures TernaryAt(c, pos, depth, suppress, Parsed(Ternary(cond.tree, c.toks[cond.pos], consequence.tree,
                                                              c.toks[consequence.pos], alternative.tree),
                                                      alternative.pos))
  {
    hide Good, EndsOperand, IsAssignOp, Continues, BindingPower;
    GoodEnds(c, pos, BP_LOGICAL_OR, depth, suppress, cond.tree, cond.pos);
    GoodEnds(c, cond.pos + 1, BP_ASSIGN, depth, true, consequence.tree, consequence.pos);
    var e := Ternary(cond.tree, c.toks[cond.pos], consequence.tree, c.toks[consequence.pos], alternative.tree);
    GoodTernary(c, pos, BP_TERNARY, depth, suppress, e, cond.pos + 1, consequence.pos + 1, alternative.pos);
  }

  lemma {:induction false} TernarySound(c: Input, pos: nat, depth: nat, suppress: bool)
    requires c.Valid() && pos < |c.toks|
    ensures TernaryAt(c, pos, depth, suppress, ParseTernary(c, pos, depth, suppress))
    decreases |c.toks| - pos, 4
  {
    hide Good, ParseBinary, ParseAssignment, ParseTernary, Input.Valid, OperationAt, AssignmentAt, TernaryAt;
    TernaryStep(c, pos, depth, suppress);
    var cond := ParseBinary(c, pos, BP_LOGICAL_OR, depth, suppress);
    BinarySound(c, pos, BP_LOGICAL_OR, depth, suppress);
    if !cond.Parsed? || c.toks[cond.pos].kind != Question {
      OperationIsTernary(c, pos, depth, suppress, cond);
      return;
    }
    var consequence := ParseAssignment(c, cond.pos + 1, depth, true);
    AssignmentSound(c, cond.pos + 1, depth, true);
    if !consequence.Parsed? { TernaryFails(c, pos, depth, suppress); return; }
    if c.toks[consequence.pos].kind != Colon { TernaryFails(c, pos, depth, suppress); return; }
    var alternative := ParseAssignment(c, consequence.pos + 1, depth, suppress);
    AssignmentSound(c, consequence.pos + 1, depth, suppress);
    if !alternative.Parsed? { TernaryFails(c, pos, depth, suppress); return; }
    TernaryBuilt(c, pos, depth, suppress, cond, consequence, alternative);
  }

  lemma OperationIsTernary(c: Input, pos: nat, depth: nat, suppress: bool, r: Result)
    requires OperationAt(c, pos, BP_LOGICAL_OR, depth, suppress, r)
    requires r.Parsed? ==> r.pos < |c.toks| && c.toks[r.pos].kind != Question
    ensures TernaryAt(c, pos, depth, suppress, r)
  {
    hide Good;
  }

  lemma TernaryFails(c: Input, pos: nat, depth: nat, suppress: bool)
    requires c.Valid() && pos < |c.toks| && !ParseTernary(c, pos, depth, suppress).Parsed?
    ensures TernaryAt(c, pos, depth, suppress, ParseTernary(c, pos, depth, suppress))
  {
  }

  lemma {:induction false} BinarySound(c: Input, pos: nat, minBP: nat, depth: nat, suppress: bool)
    requires c.Valid() && pos < |c.toks| && BP_LOGICAL_OR <= minBP <= BP_UNARY
    ensures OperationAt(c, pos, minBP, depth, suppress, ParseBinary(c, pos, minBP, depth, suppress))
    decreases |c.toks| - pos, 3
  {
    hide Good, ParseUnary, ParseOperators, ParseBinary, BindingPower;
    BinaryStep(c, pos, minBP, depth, suppress);
    var left := ParseUnary(c, pos, depth, suppress);
    UnarySound(c, pos, depth, suppress);
    if left.Parsed? {
      OperatorsSound(c, pos, left.tree, left.pos, BP_UNARY, minBP, depth, suppress);
    }
  }

  // The operators read so far bind at `level` or tighter, the next one no tighter.
  lemma {:induction false} OperatorsSound(c: Input, start: nat, left: Expr, pos: nat, level: nat, minBP: nat,
                                          depth: nat, suppress: bool)
    requires c.Valid() && start < pos < |c.toks| && BP_LOGICAL_OR <= minBP <= level <= BP_UNARY
    requires Good(c, start, level, depth, suppress, left, pos) && IsOperation(left)
    requires BindingPower(c.toks[pos].kind) <= level
    ensures OperationAt(c, start, minBP, depth, suppress, ParseOperators(c, left, pos, minBP, depth, suppress))
    decreases |c.toks| - pos, 0
  {
    hide Good, ParseBinary, ParseOperators, BindingPower, OperationAt, IsOperation, Input.Valid, EndsOperand;
    var bp := BindingPower(c.toks[pos].kind);
    OperatorsStep(c, left, pos, minBP, depth, suppress);
    if !Operates(c.toks[pos].kind, minBP) {
      GoodLower(c, start, level, minBP, depth, suppress, left, pos);
      LoopEnds(c, start, left, pos, minBP, depth, suppress);
      return;
    }
    GoodEnds(c, start, level, depth, suppress, left, pos);
    GoodLower(c, start, level, bp, depth, suppress, left, pos);
    var right := ParseBinary(c, pos + 1, bp + 1, depth, suppress);
    BinarySound(c, pos + 1, bp + 1, depth, suppress);
    if !right.Parsed? {
      NothingAt(c, start, minBP, depth, suppress, right);
      return;
    }
    OperationMeans(c, pos + 1, bp + 1, depth, suppress, right);
    var joined := Binary(c.toks[pos], left, right.tree);
    GoodBinary(c, start, bp, depth, suppress, joined, pos, right.pos);
    JoinedIsOperation(joined);
    OperatorsSound(c, start, joined, right.pos, bp, minBP, depth, suppress);
  }

  lemma LoopEnds(c: Input, start: nat, left: Expr, pos: nat, minBP: nat, depth: nat, suppress: bool)
    requires pos < |c.toks| && Good(c, start, minBP, depth, suppress, left, pos) && IsOperation(left) && minBP > 0
    requires !Operates(c.toks[pos].kind, minBP)
    ensures OperationAt(c, start, minBP, depth, suppress,
                        if minBP <= BP_MULTIPLICATIVE && c.toks[pos].kind == MacroParam then Outside
                            else Parsed(left, pos))
  {
    hide Good, BindingPower;
  }

  lemma NothingAt(c: Input, start: nat, minBP: nat, depth: nat, suppress: bool, r: Result)
    requires !r.Parsed?
    ensures OperationAt(c, start, minBP, depth, suppress, r)
  {
  }

  lemma OperationMeans(c: Input, pos: nat, minBP: nat, depth: nat, suppress: bool, r: Result)
    requires OperationAt(c, pos, minBP, depth, suppress, r) && r.Parsed?
    ensures Good(c, pos, minBP, depth, suppress, r.tree, r.pos) && IsOperation(r.tree) && r.pos < |c.toks|
    ensures BindingPower(c.toks[r.pos].kind) < minBP
  {
    hide Good, BindingPower;
  }

  lemma JoinedIsOperation(e: Expr)
    ensures e.Binary? ==> IsOperation(e)
  {
  }

  lemma {:induction false} UnarySound(c: Input, pos: nat, depth: nat, suppress: bool)
    requires c.Valid() && pos < |c.toks|
    ensures var r := ParseUnary(c, pos, depth, suppress);
            r.Parsed? ==> Good(c, pos, BP_UNARY, depth, suppress, r.tree, r.pos) && IsOperation(r.tree)
    decreases |c.toks| - pos, 2
  {
    hide Good, ParseUnary, ParsePrimary, NameContinues, IsUnaryOp, HasAngleClose;
    var t := c.toks[pos];
    UnaryStep(c, pos, depth, suppress);
    if depth + 1 > MAX_PARSE_DEPTH { return; }
    if t.kind == Identifier && NameContinues(c, pos, suppress) { return; }
    if IsUnaryOp(t.kind) {
      var operand := ParseUnary(c, pos + 1, depth + 1, suppress);
      UnarySound(c, pos + 1, depth + 1, suppress);
      if operand.Parsed? { GoodUnary(c, pos, BP_UNARY, depth, suppress, Unary(t, operand.tree), operand.pos); }
    } else {
      PrimarySound(c, pos, depth, suppress);
    }
  }

  // A primary expression the operators after it leave alone.
  lemma {:induction false} PrimarySound(c: Input, pos: nat, depth: nat, suppress: bool)
    requires c.Valid() && pos < |c.toks| && depth < MAX_PARSE_DEPTH
    requires c.toks[pos].kind == Identifier ==> !NameContinues(c, pos, suppress)
    ensures var r := ParsePrimary(c, pos, depth + 1, suppress);
            r.Parsed? && !Continues(c.toks[r.pos].kind) ==>
              Good(c, pos, BP_UNARY, depth, suppress, r.tree, r.pos) && IsOperation(r.tree)
    decreases |c.toks| - pos, 1
  {
    hide Good, ParseExpression, ParsePrimary, IsLeafKind, Input.Valid, EndsOperand, Continues, NameContinues;
    hide EndsAssignment;
    var t := c.toks[pos];
    PrimaryStep(c, pos, depth + 1, suppress);
    if IsLeafKind(t.kind) {
      GoodLeaf(c, pos, BP_UNARY, depth, suppress, Leaf(t), pos + 1);
      if !Continues(c.toks[pos + 1].kind) { LeafEnds(c, pos, suppress); }
    } else if t.kind == LParen {
      var inner := ParseExpression(c, pos + 1, depth + 1, suppress);
      ExpressionSound(c, pos + 1, depth + 1, suppress);
      if !inner.Parsed? || c.toks[inner.pos].kind != RParen || inner.pos + 1 >= |c.toks| { return; }
      PrimaryEnds(c, inner.pos, suppress);
      GoodParen(c, pos, BP_UNARY, depth, suppress, Paren(t, inner.tree, c.toks[inner.pos]), inner.pos + 1);
    }
  }

  lemma PrimaryEnds(c: Input, close: nat, suppress: bool)
    requires close + 1 < |c.toks| && c.toks[close].kind == RParen
    ensures !Continues(c.toks[close + 1].kind) ==> EndsOperand(c, close + 1, suppress)
  {
    hide Continues;
  }

  lemma LeafEnds(c: Input, pos: nat, suppress: bool)
    requires pos + 1 < |c.toks| && !Continues(c.toks[pos + 1].kind)
    requires c.toks[pos].kind == Identifier ==> !NameContinues(c, pos, suppress)
    ensures EndsOperand(c, pos + 1, suppress)
  {
    hide GenericPrefix;
  }

  lemma {:induction false} ExpressionSound(c: Input, pos: nat, depth: nat, suppress: bool)
    requires c.Valid() && pos < |c.toks|
    ensures var r := ParseExpression(c, pos, depth, suppress);
            AssignmentAt(c, pos, depth, suppress, r) && (r.Parsed? ==> c.toks[r.pos].kind != Comma)
    decreases |c.toks| - pos, 6
  {
    AssignmentSound(c, pos, depth, suppress);
  }

  // ----- everything in the language is parsed --------------------------------------------

  // Tokens are spaced apart: no `<` touches its left operand, and no `>` stands before a colon.
  ghost predicate Plain(c: Input) {
    forall k | 0 <= k < |c.toks| :: PlainAt(c.toks, k)
  }

  ghost predicate PlainAt(toks: seq<Tok>, k: nat)
    requires k < |toks|
  {
    && (toks[k].kind == Lt ==> !toks[k].touches)
    && (toks[k].kind == Gt && k + 1 < |toks| ==> toks[k + 1].kind != Colon)
  }

  lemma {:induction false} NoGenericPrefix(c: Input, i: nat, depth: int)
    requires Plain(c)
    ensures !GenericPrefix(c, i, depth)
    decreases |c.toks| - i
  {
    if i >= |c.toks| { return; }
    assert PlainAt(c.toks, i);
    NoGenericPrefix(c, i + 1, depth - 1);
    NoGenericPrefix(c, i + 1, depth);
    NoGenericPrefix(c, i + 1, depth + 1);
  }

  lemma NameEnds(c: Input, pos: nat, suppress: bool)
    requires Plain(c) && pos + 1 < |c.toks| && c.toks[pos].kind == Identifier && EndsOperand(c, pos + 1, suppress)
    ensures !NameContinues(c, pos, suppress)
  {
    NoGenericPrefix(c, pos + 1, 0);
  }

  lemma GoodOperation(c: Input, pos: nat, level: nat, depth: nat, suppress: bool, e: Expr, end: nat)
    requires Good(c, pos, level, depth, suppress, e, end)
    ensures BP_LOGICAL_OR <= level ==> IsOperation(e)
    ensures IsOperation(e) ==> Good(c, pos, Max(level, BP_LOGICAL_OR), depth, suppress, e, end)
    ensures BP_MULTIPLICATIVE < level ==> !e.Binary?
  {
    hide Flatten, Size, Height, EndsOperand, SpellsOut;
  }

  lemma {:induction false} UnaryComplete(c: Input, pos: nat, depth: nat, suppress: bool, e: Expr, end: nat)
    requires c.Valid() && Plain(c) && pos < |c.toks|
    requires Good(c, pos, BP_UNARY, depth, suppress, e, end)
    ensures ParseUnary(c, pos, depth, suppress) == Parsed(e, end)
    decreases e, 1
  {
    hide Good, ParseUnary, ParsePrimary, NameContinues, IsUnaryOp, Plain;
    UnaryStep(c, pos, depth, suppress);
    GoodOperation(c, pos, BP_UNARY, depth, suppress, e, end);
    GoodEnds(c, pos, BP_UNARY, depth, suppress, e, end);
    UnaryDepth(c, pos, BP_UNARY, depth, suppress, e, end);
    if e.Unary? {
      GoodUnary(c, pos, BP_UNARY, depth, suppress, e, end);
      UnaryComplete(c, pos + 1, depth + 1, suppress, e.operand, end);
      UnaryIsNoName(e.op.kind);
    } else {
      PrimaryComplete(c, pos, depth, suppress, e, end);
      PlainHere(c, end);
    }
  }

  lemma UnaryIsNoName(k: Kind)
    ensures IsUnaryOp(k) ==> k != Identifier
  {
  }

  lemma PlainHere(c: Input, k: nat)
    requires Plain(c) && k < |c.toks|
    ensures PlainAt(c.toks, k)
  {
  }

  lemma {:induction false} PrimaryComplete(c: Input, pos: nat, depth: nat, suppress: bool, e: Expr, end: nat)
    requires c.Valid() && Plain(c) && pos < |c.toks| && (e.Leaf? || e.Paren?)
    requires Good(c, pos, BP_UNARY, depth, suppress, e, end)
    ensures ParsePrimary(c, pos, depth + 1, suppress) == Parsed(e, end)
    ensures c.toks[pos].kind == Identifier ==> !NameContinues(c, pos, suppress)
    ensures !IsUnaryOp(c.toks[pos].kind)
    decreases e, 0
  {
    hide Good, ParsePrimary, ParseExpression, ParseAssignment, NameContinues, Plain, EndsOperand;
    PrimaryStep(c, pos, depth + 1, suppress);
    GoodEnds(c, pos, BP_UNARY, depth, suppress, e, end);
    if e.Leaf? {
      GoodLeaf(c, pos, BP_UNARY, depth, suppress, e, end);
      assert e == Leaf(c.toks[pos]);
      LeafFacts(c, end, suppress, e.tok.kind);
      if e.tok.kind == Identifier { NameEnds(c, pos, suppress); }
    } else {
      GoodParen(c, pos, BP_UNARY, depth, suppress, e, end);
      GoodEnds(c, pos + 1, BP_ASSIGN, depth + 1, suppress, e.inner, end - 1);
      CloserEnds(c, end - 1, suppress);
      AssignmentComplete(c, pos + 1, depth + 1, suppress, e.inner, end - 1);
      ExpressionStep(c, pos + 1, depth + 1, suppress);
      assert ParseExpression(c, pos + 1, depth + 1, suppress) == Parsed(e.inner, end - 1);
      assert e == Paren(c.toks[pos], e.inner, c.toks[end - 1]);
    }
  }

  lemma LeafFacts(c: Input, end: nat, suppress: bool, k: Kind)
    requires 0 < end < |c.toks| && EndsOperand(c, end, suppress) && IsLeafKind(k)
    ensures c.toks[end].kind != LParen && !IsUnaryOp(k)
  {
  }

  lemma CloserEnds(c: Input, end: nat, suppress: bool)
    requires 0 < end < |c.toks| && c.toks[end].kind == RParen && EndsOperand(c, end, suppress)
    ensures EndsAssignment(c, end, suppress) && !IsUnaryOp(LParen) && !IsLeafKind(LParen)
  {
  }

  lemma ExpressionStep(c: Input, pos: nat, depth: nat, suppress: bool)
    requires c.Valid() && pos < |c.toks|
    ensures var r := ParseAssignment(c, pos, depth, suppress);
            ParseExpression(c, pos, depth, suppress) == if r.Parsed? && c.toks[r.pos].kind == Comma then Outside else r
  {
    hide ParseAssignment;
  }

  lemma UnaryDepth(c: Input, pos: nat, level: nat, depth: nat, suppress: bool, e: Expr, end: nat)
    requires Good(c, pos, level, depth, suppress, e, end)
    ensures depth < MAX_PARSE_DEPTH
  {
  }

  // A tree whose operators all bind at `level` or tighter is what the operator loop has
  // in hand when it comes to the token behind it.
  lemma {:induction false} BinaryComplete(c: Input, pos: nat, minBP: nat, level: nat, depth: nat, suppress: bool,
                                          e: Expr, end: nat)
    requires c.Valid() && Plain(c) && pos < |c.toks| && end < |c.toks|
    requires BP_LOGICAL_OR <= minBP <= level <= BP_UNARY
    requires Good(c, pos, level, depth, suppress, e, end)
    requires BindingPower(c.toks[end].kind) <= level && c.toks[end].kind != MacroParam
    ensures ParseBinary(c, pos, minBP, depth, suppress) == ParseOperators(c, e, end, minBP, depth, suppress)
    decreases e, 2
  {
    hide Good, ParseBinary, ParseOperators, ParseUnary, BindingPower, Plain, Input.Valid, EndsOperand, IsOperation,
         Size;
    GoodOperation(c, pos, level, depth, suppress, e, end);
    if e.Binary? {
      var mid := pos + Size(e.left);
      var bp := BindingPower(e.op.kind);
      GoodBinary(c, pos, level, depth, suppress, e, mid, end);
      GoodEnds(c, pos, bp, depth, suppress, e.left, mid);
      GoodEnds(c, mid + 1, bp + 1, depth, suppress, e.right, end);
      OperatorIsPlain(e.op.kind);
      BinaryComplete(c, pos, minBP, bp, depth, suppress, e.left, mid);
      BinaryComplete(c, mid + 1, bp + 1, bp + 1, depth, suppress, e.right, end);
      OperatorsStep(c, e.left, mid, minBP, depth, suppress);
      OperatorsStep(c, e.right, end, bp + 1, depth, suppress);
      assert ParseBinary(c, mid + 1, bp + 1, depth, suppress) == Parsed(e.right, end);
      assert e == Binary(c.toks[mid], e.left, e.right);
    } else {
      OperandLevel(c, pos, level, depth, suppress, e, end);
      UnaryComplete(c, pos, depth, suppress, e, end);
      BinaryStep(c, pos, minBP, depth, suppress);
    }
  }

  lemma OperatorIsPlain(k: Kind)
    ensures BindingPower(k) > 0 ==> k != MacroParam && k != EOF && BindingPower(k) <= BP_MULTIPLICATIVE
  {
  }

  lemma OperandLevel(c: Input, pos: nat, level: nat, depth: nat, suppress: bool, e: Expr, end: nat)
    requires Good(c, pos, level, depth, suppress, e, end) && IsOperation(e) && !e.Binary?
    ensures Good(c, pos, BP_UNARY, depth, suppress, e, end)
  {
    hide Flatten, Size, Height, EndsOperand, SpellsOut;
  }

  lemma {:induction false} OperationComplete(c: Input, pos: nat, depth: nat, suppress: bool, e: Expr, end: nat)
    requires c.Valid() && Plain(c) && pos < |c.toks| && end < |c.toks|
    requires Good(c, pos, BP_LOGICAL_OR, depth, suppress, e, end)
    requires BindingPower(c.toks[end].kind) == 0 && c.toks[end].kind != MacroParam
    ensures ParseBinary(c, pos, BP_LOGICAL_OR, depth, suppress) == Parsed(e, end)
    ensures c.toks[end].kind != Question ==> ParseTernary(c, pos, depth, suppress) == Parsed(e, end)
    decreases e, 3
  {
    hide Good, BindingPower, ParseAssignment, ParseBinary, ParseOperators, ParseTernary, Plain;
    OperatorsStep(c, e, end, BP_LOGICAL_OR, depth, suppress);
    TernaryStep(c, pos, depth, suppress);
    BinaryComplete(c, pos, BP_LOGICAL_OR, BP_LOGICAL_OR, depth, suppress, e, end);
  }

  lemma {:induction false} AssignmentComplete(c: Input, pos: nat, depth: nat, suppress: bool, e: Expr, end: nat)
    requires c.Valid() && Plain(c) && pos < |c.toks|
    requires Good(c, pos, BP_ASSIGN, depth, suppress, e, end) && end < |c.toks| && EndsAssignment(c, end, suppress)
    ensures ParseAssignment(c, pos, depth, suppress) == Parsed(e, end)
    decreases e, 4
  {
    hide *;
    GoodEnds(c, pos, BP_ASSIGN, depth, suppress, e, end);
    EndsFacts(c, end, suppress);
    AssignmentStep(c, pos, depth, suppress);
    if e.Assignment? {
      var mid := pos + Size(e.left);
      GoodAssignment(c, pos, BP_ASSIGN, depth, suppress, e, mid, end);
      GoodEnds(c, pos, BP_LOGICAL_OR, depth, suppress, e.left, mid);
      GoodEnds(c, mid + 1, BP_ASSIGN, depth, suppress, e.right, end);
      AssignOpFacts(c.toks[mid].kind);
      OperationComplete(c, pos, depth, suppress, e.left, mid);
      AssignmentComplete(c, mid + 1, depth, suppress, e.right, end);
      assert e == Assignment(c.toks[mid], e.left, e.right);
    } else if e.Ternary? {
      TernaryComplete(c, pos, depth, suppress, e, end);
    } else {
      AssignedOperation(c, pos, depth, suppress, e, end);
      OperationComplete(c, pos, depth, suppress, e, end);
    }
  }

  lemma AssignedOperation(c: Input, pos: nat, depth: nat, suppress: bool, e: Expr, end: nat)
    requires Good(c, pos, BP_ASSIGN, depth, suppress, e, end) && !e.Assignment? && !e.Ternary?
    ensures Good(c, pos, BP_LOGICAL_OR, depth, suppress, e, end)
  {
    hide Good;
    GoodOperation(c, pos, BP_ASSIGN, depth, suppress, e, end);
  }

  lemma EndsFacts(c: Input, end: nat, suppress: bool)
    requires 0 < end < |c.toks| && EndsAssignment(c, end, suppress)
    ensures BindingPower(c.toks[end].kind) == 0 && !IsAssignOp(c.toks[end].kind)
    ensures c.toks[end].kind != MacroParam && c.toks[end].kind != Question
  {
    hide EndsOperand;
  }

  lemma AssignOpFacts(k: Kind)
    ensures IsAssignOp(k) || k == Question ==> BindingPower(k) == 0 && k != MacroParam
    ensures IsAssignOp(k) ==> k != Question && k != EOF
  {
    if IsAssignOp(k) { AssignOpIsNoOperator(k); }
  }

  lemma AssignOpIsNoOperator(k: Kind)
    requires IsAssignOp(k)
    ensures BindingPower(k) == 0
  {
  }

  lemma ColonEnds(c: Input, end: nat)
    requires 0 < end < |c.toks| && c.toks[end].kind == Colon && EndsOperand(c, end, true)
    ensures EndsAssignment(c, end, true)
  {
  }

  lemma {:induction false} TernaryComplete(c: Input, pos: nat, depth: nat, suppress: bool, e: Expr, end: nat)
    requires c.Valid() && Plain(c) && pos < |c.toks| && e.Ternary?
    requires Good(c, pos, BP_ASSIGN, depth, suppress, e, end) && end < |c.toks| && EndsAssignment(c, end, suppress)
    ensures ParseTernary(c, pos, depth, suppress) == Parsed(e, end)
    decreases e, 2
  {
    hide Good, ParseBinary, ParseAssignment, ParseTernary, EndsOperand, EndsAssignment, Size, BindingPower, Plain,
         IsAssignOp, Input.Valid;
    AssignOpFacts(Question);
    TernaryStep(c, pos, depth, suppress);
    var mid := pos + Size(e.cond) + 1;
    var last := mid + Size(e.consequence) + 1;
    GoodTernary(c, pos, BP_ASSIGN, depth, suppress, e, mid, last, end);
    GoodEnds(c, pos, BP_LOGICAL_OR, depth, suppress, e.cond, mid - 1);
    GoodEnds(c, mid, BP_ASSIGN, depth, true, e.consequence, last - 1);
    GoodEnds(c, last, BP_ASSIGN, depth, suppress, e.alternative, end);
    OperationComplete(c, pos, depth, suppress, e.cond, mid - 1);
    ColonEnds(c, last - 1);
    AssignmentComplete(c, mid, depth, true, e.consequence, last - 1);
    AssignmentComplete(c, last, depth, suppress, e.alternative, end);
    assert e == Ternary(e.cond, c.toks[mid - 1], e.consequence, c.toks[last - 1], e.alternative);
  }

  // The parser returns exactly the trees of the language, from exactly the right tokens.
  lemma ParsesExactly(c: Input, pos: nat, depth: nat, suppress: bool, e: Expr, end: nat)
    requires c.Valid() && Plain(c) && pos < |c.toks|
    ensures ParseAssignment(c, pos, depth, suppress) == Parsed(e, end) <==>
            && Good(c, pos, BP_ASSIGN, depth, suppress, e, end)
            && 0 < end < |c.toks| && EndsAssignment(c, end, suppress)
  {
    hide Good, EndsAssignment, ParseAssignment;
    AssignmentSound(c, pos, depth, suppress);
    if Good(c, pos, BP_ASSIGN, depth, suppress, e, end) && 0 < end < |c.toks| && EndsAssignment(c, end, suppress) {
      AssignmentComplete(c, pos, depth, suppress, e, end);
    }
  }
}
