// Printing an expression tree with only the parentheses that binding power and
// associativity require, and parsing it back (expressions.go, literals.go).
module Printing {
  import opened Tokens
  import opened Pratt
  import opened PrattLanguage

  const OPEN := Tok(LParen, "(", false)
  const CLOSE := Tok(RParen, ")", false)

  // Every node carries an operator of its own kind; nothing is said about precedence.
  predicate Typed(e: Expr) {
    match e
    case Leaf(t) => IsLeafKind(t.kind)
    case Unary(op, x) => IsUnaryOp(op.kind) && Typed(x)
    case Binary(op, l, r) => BindingPower(op.kind) > 0 && Typed(l) && Typed(r)
    case Assignment(op, l, r) => IsAssignOp(op.kind) && Typed(l) && Typed(r)
    case Ternary(cond, q, a, k, b) => q.kind == Question && k.kind == Colon && Typed(cond) && Typed(a) && Typed(b)
    case Paren(o, x, k) => o.kind == LParen && k.kind == RParen && Typed(x)
  }

  function Wrap(e: Expr): Expr {
    Paren(OPEN, e, CLOSE)
  }

  function WrapUnless(ok: bool, e: Expr): Expr {
    if ok then e else Wrap(e)
  }

  // e with the parentheses it needs where operators of binding power `level` stand.
  function Parenthesize(e: Expr, level: nat, tags: set<string>): Expr {
    match e
    case Leaf(t) => e
    case Unary(op, x) => Unary(op, Parenthesize(x, BP_UNARY, tags))
    case Binary(op, l, r) =>
      var bp := BindingPower(op.kind);
      WrapUnless(level <= bp, Binary(op, Parenthesize(l, bp, tags), Parenthesize(r, bp + 1, tags)))
    case Assignment(op, l, r) =>
      WrapUnless(level <= BP_ASSIGN,
                 Assignment(op, Parenthesize(l, BP_LOGICAL_OR, tags), Parenthesize(r, BP_ASSIGN, tags)))
    case Ternary(cond, q, a, k, b) =>
      var consequence := Parenthesize(a, BP_ASSIGN, tags);
      WrapUnless(level <= BP_TERNARY,
                 Ternary(Parenthesize(cond, BP_LOGICAL_OR, tags), q,
                         WrapUnless(!IsTag(Last(consequence), tags), consequence), k,
                         Parenthesize(b, BP_ASSIGN, tags)))
    case Paren(o, x, k) => Paren(o, Parenthesize(x, BP_ASSIGN, tags), k)
  }

  function Strip(e: Expr): Expr {
    match e
    case Leaf(t) => e
    case Unary(op, x) => Unary(op, Strip(x))
    case Binary(op, l, r) => Binary(op, Strip(l), Strip(r))
    case Assignment(op, l, r) => Assignment(op, Strip(l), Strip(r))
    case Ternary(cond, q, a, k, b) => Ternary(Strip(cond), q, Strip(a), k, Strip(b))
    case Paren(_, x, _) => Strip(x)
  }

  lemma WrapFits(ok: bool, e: Expr, level: nat, tags: set<string>)
    requires Fits(e, if ok then level else BP_ASSIGN, tags)
    ensures Fits(WrapUnless(ok, e), level, tags)
  {
  }

  lemma UntaggedFits(e: Expr, tags: set<string>)
    requires Fits(e, BP_ASSIGN, tags)
    ensures var w := WrapUnless(!IsTag(Last(e), tags), e); Fits(w, BP_ASSIGN, tags) && !IsTag(Last(w), tags)
  {
    hide Fits;
    WrapFits(!IsTag(Last(e), tags), e, BP_ASSIGN, tags);
  }

  // The printed tree can stand in its place.
  lemma {:induction false} ParenthesizeFits(e: Expr, level: nat, tags: set<string>)
    requires Typed(e)
    ensures Fits(Parenthesize(e, level, tags), level, tags)
  {
    hide BindingPower, IsAssignOp, IsUnaryOp, IsLeafKind, IsTag, Last, WrapUnless;
    match e
    case Leaf(t) =>
    case Unary(op, x) => ParenthesizeFits(x, BP_UNARY, tags);
    case Binary(op, l, r) =>
      var bp := BindingPower(op.kind);
      ParenthesizeFits(l, bp, tags);
      ParenthesizeFits(r, bp + 1, tags);
      WrapFits(level <= bp, Binary(op, Parenthesize(l, bp, tags), Parenthesize(r, bp + 1, tags)), level, tags);
    case Assignment(op, l, r) =>
      ParenthesizeFits(l, BP_LOGICAL_OR, tags);
      ParenthesizeFits(r, BP_ASSIGN, tags);
      var a := Assignment(op, Parenthesize(l, BP_LOGICAL_OR, tags), Parenthesize(r, BP_ASSIGN, tags));
      WrapFits(level <= BP_ASSIGN, a, level, tags);
    case Ternary(cond, q, a, k, b) =>
      ParenthesizeFits(cond, BP_LOGICAL_OR, tags);
      ParenthesizeFits(a, BP_ASSIGN, tags);
      ParenthesizeFits(b, BP_ASSIGN, tags);
      var consequence := Parenthesize(a, BP_ASSIGN, tags);
      UntaggedFits(consequence, tags);
      var t := Ternary(Parenthesize(cond, BP_LOGICAL_OR, tags), q,
                       WrapUnless(!IsTag(Last(consequence), tags), consequence), k,
                       Parenthesize(b, BP_ASSIGN, tags));
      WrapFits(level <= BP_TERNARY, t, level, tags);
    case Paren(o, x, k) => ParenthesizeFits(x, BP_ASSIGN, tags);
  }

  // Parentheses are all that printing adds, ...
  lemma {:induction false} ParenthesizeOnlyWraps(e: Expr, level: nat, tags: set<string>)
    ensures Strip(Parenthesize(e, level, tags)) == Strip(e)
  {
    match e
    case Leaf(t) =>
    case Unary(op, x) => ParenthesizeOnlyWraps(x, BP_UNARY, tags);
    case Binary(op, l, r) =>
      ParenthesizeOnlyWraps(l, BindingPower(op.kind), tags);
      ParenthesizeOnlyWraps(r, BindingPower(op.kind) + 1, tags);
    case Assignment(op, l, r) =>
      ParenthesizeOnlyWraps(l, BP_LOGICAL_OR, tags);
      ParenthesizeOnlyWraps(r, BP_ASSIGN, tags);
    case Ternary(cond, q, a, k, b) =>
      ParenthesizeOnlyWraps(cond, BP_LOGICAL_OR, tags);
      ParenthesizeOnlyWraps(a, BP_ASSIGN, tags);
      ParenthesizeOnlyWraps(b, BP_ASSIGN, tags);
      var consequence := Parenthesize(a, BP_ASSIGN, tags);
      assert Strip(WrapUnless(!IsTag(Last(consequence), tags), consequence)) == Strip(consequence);
    case Paren(o, x, k) => ParenthesizeOnlyWraps(x, BP_ASSIGN, tags);
  }

  // ... and only where they are needed: a tree that already fits is printed as it is.
  lemma {:induction false} NothingToWrap(e: Expr, level: nat, tags: set<string>)
    ensures Fits(e, level, tags) ==> Parenthesize(e, level, tags) == e
  {
    match e
    case Leaf(t) =>
    case Unary(op, x) => NothingToWrap(x, BP_UNARY, tags);
    case Binary(op, l, r) =>
      NothingToWrap(l, BindingPower(op.kind), tags);
      NothingToWrap(r, BindingPower(op.kind) + 1, tags);
    case Assignment(op, l, r) =>
      NothingToWrap(l, BP_LOGICAL_OR, tags);
      NothingToWrap(r, BP_ASSIGN, tags);
    case Ternary(cond, q, a, k, b) =>
      NothingToWrap(cond, BP_LOGICAL_OR, tags);
      NothingToWrap(a, BP_ASSIGN, tags);
      NothingToWrap(b, BP_ASSIGN, tags);
    case Paren(o, x, k) => NothingToWrap(x, BP_ASSIGN, tags);
  }

  predicate Bare(e: Expr) {
    match e
    case Leaf(_) => true
    case Unary(_, x) => Bare(x)
    case Binary(_, l, r) => Bare(l) && Bare(r)
    case Assignment(_, l, r) => Bare(l) && Bare(r)
    case Ternary(cond, _, a, _, b) => Bare(cond) && Bare(a) && Bare(b)
    case Paren(_, _, _) => false
  }

  lemma {:induction false} BareIsStripped(e: Expr)
    requires Bare(e)
    ensures Strip(e) == e
  {
    match e
    case Leaf(_) =>
    case Unary(_, x) => BareIsStripped(x);
    case Binary(_, l, r) => BareIsStripped(l); BareIsStripped(r);
    case Assignment(_, l, r) => BareIsStripped(l); BareIsStripped(r);
    case Ternary(cond, _, a, _, b) => BareIsStripped(cond); BareIsStripped(a); BareIsStripped(b);
  }

  // ----- the printed tokens are spaced apart ---------------------------------------------

  // No `<` of the tree touches the token before it.
  predicate Spaced(e: Expr) {
    match e
    case Leaf(_) => true
    case Unary(_, x) => Spaced(x)
    case Binary(op, l, r) => (op.kind == Lt ==> !op.touches) && Spaced(l) && Spaced(r)
    case Assignment(_, l, r) => Spaced(l) && Spaced(r)
    case Ternary(cond, _, a, _, b) => Spaced(cond) && Spaced(a) && Spaced(b)
    case Paren(_, x, _) => Spaced(x)
  }

  ghost predicate TokenInside(t: Tok) {
    t.kind != EOF && (t.kind == Lt ==> !t.touches)
  }

  ghost predicate AllInside(s: seq<Tok>) {
    forall t | t in s :: TokenInside(t)
  }

  // An operator of a tree can only be a `<` where it is a binary one.
  lemma OperatorInside(op: Tok)
    requires (BindingPower(op.kind) > 0 && (op.kind == Lt ==> !op.touches))
             || IsAssignOp(op.kind) || IsUnaryOp(op.kind) || IsLeafKind(op.kind)
             || op.kind in {Question, Colon, LParen, RParen}
    ensures TokenInside(op)
  {
  }

  lemma NoneInside()
    ensures AllInside([])
  {
  }

  lemma InsideFront(t: Tok, y: seq<Tok>)
    requires TokenInside(t) && AllInside(y)
    ensures AllInside([t] + y)
  {
  }

  lemma InsideAround(x: seq<Tok>, op: Tok, y: seq<Tok>)
    requires AllInside(x) && AllInside(y) && TokenInside(op)
    ensures AllInside(Joined(x, op, y))
  {
  }

  lemma {:induction false} TokensInside(e: Expr)
    requires Typed(e) && Spaced(e)
    ensures AllInside(Flatten(e))
  {
    hide TokenInside, AllInside, BindingPower, IsAssignOp, IsUnaryOp, IsLeafKind;
    match e
    case Leaf(t) =>
      OperatorInside(t);
      NoneInside();
      InsideFront(t, []);
      assert [t] + [] == [t];
    case Unary(op, x) =>
      TokensInside(x);
      OperatorInside(op);
      InsideFront(op, Flatten(x));
    case Binary(op, l, r) =>
      TokensInside(l);
      TokensInside(r);
      OperatorInside(op);
      InsideAround(Flatten(l), op, Flatten(r));
    case Assignment(op, l, r) =>
      TokensInside(l);
      TokensInside(r);
      OperatorInside(op);
      InsideAround(Flatten(l), op, Flatten(r));
    case Ternary(cond, q, a, k, b) =>
      TokensInside(cond);
      TokensInside(a);
      TokensInside(b);
      OperatorInside(k);
      InsideAround(Flatten(a), k, Flatten(b));
      OperatorInside(q);
      InsideAround(Flatten(cond), q, Joined(Flatten(a), k, Flatten(b)));
    case Paren(o, x, k) =>
      TokensInside(x);
      OperatorInside(k);
      NoneInside();
      InsideAround(Flatten(x), k, []);
      assert Joined(Flatten(x), k, []) == Flatten(x) + [k];
      OperatorInside(o);
      InsideFront(o, Flatten(x) + [k]);
  }

  ghost predicate GtPlain(s: seq<Tok>) {
    forall k | 0 <= k < |s| :: GtPlainAt(s, k)
  }

  ghost predicate GtPlainAt(s: seq<Tok>, k: nat)
    requires k < |s|
  {
    s[k].kind == Gt ==> k + 1 < |s| && s[k + 1].kind != Colon
  }

  lemma GtPlainJoin(x: seq<Tok>, y: seq<Tok>)
    requires GtPlain(x) && GtPlain(y)
    ensures GtPlain(x + y)
  {
    forall k | 0 <= k < |x + y| ensures GtPlainAt(x + y, k) {
      if k < |x| { assert GtPlainAt(x, k); } else { assert GtPlainAt(y, k - |x|); }
    }
  }

  lemma GtPlainAround(x: seq<Tok>, op: Tok, y: seq<Tok>)
    requires GtPlain(x) && GtPlain(y) && y != [] && y[0].kind != Colon
    ensures GtPlain(Joined(x, op, y))
  {
    GtPlainFront(op, y);
    GtPlainJoin(x, [op] + y);
  }

  lemma GtPlainFront(t: Tok, y: seq<Tok>)
    requires y != [] && y[0].kind != Colon && GtPlain(y)
    ensures GtPlain([t] + y)
  {
    forall k | 0 <= k < |[t] + y| ensures GtPlainAt([t] + y, k) {
      if k > 0 { assert GtPlainAt(y, k - 1); }
    }
  }

  lemma OneGtPlain(t: Tok)
    requires t.kind != Gt
    ensures GtPlain([t])
  {
  }

  // Every operator of a tree stands in front of an operand.
  lemma {:induction false} FlattenGtPlain(e: Expr)
    requires Typed(e)
    ensures GtPlain(Flatten(e)) && Flatten(e)[0].kind != Colon
  {
    hide GtPlain, BindingPower;
    match e
    case Leaf(t) => OneGtPlain(t);
    case Unary(op, x) =>
      FlattenGtPlain(x);
      GtPlainFront(op, Flatten(x));
    case Binary(op, l, r) =>
      FlattenGtPlain(l);
      FlattenGtPlain(r);
      GtPlainAround(Flatten(l), op, Flatten(r));
    case Assignment(op, l, r) =>
      FlattenGtPlain(l);
      FlattenGtPlain(r);
      GtPlainAround(Flatten(l), op, Flatten(r));
    case Ternary(cond, q, a, k, b) =>
      FlattenGtPlain(cond);
      FlattenGtPlain(a);
      FlattenGtPlain(b);
      GtPlainAround(Flatten(a), k, Flatten(b));
      GtPlainAround(Flatten(cond), q, Joined(Flatten(a), k, Flatten(b)));
    case Paren(o, x, k) =>
      FlattenGtPlain(x);
      OneGtPlain(k);
      GtPlainJoin(Flatten(x), [k]);
      GtPlainFront(o, Flatten(x) + [k]);
  }

  lemma {:induction false} FitsIsTyped(e: Expr, level: nat, tags: set<string>)
    requires Fits(e, level, tags)
    ensures Typed(e)
  {
    match e
    case Leaf(_) =>
    case Unary(_, x) => FitsIsTyped(x, BP_UNARY, tags);
    case Binary(op, l, r) =>
      FitsIsTyped(l, BindingPower(op.kind), tags);
      FitsIsTyped(r, BindingPower(op.kind) + 1, tags);
    case Assignment(_, l, r) =>
      FitsIsTyped(l, BP_LOGICAL_OR, tags);
      FitsIsTyped(r, BP_ASSIGN, tags);
    case Ternary(cond, _, a, _, b) =>
      FitsIsTyped(cond, BP_LOGICAL_OR, tags);
      FitsIsTyped(a, BP_ASSIGN, tags);
      FitsIsTyped(b, BP_ASSIGN, tags);
    case Paren(_, x, _) => FitsIsTyped(x, BP_ASSIGN, tags);
  }

  lemma {:induction false} ParenthesizeSpaced(e: Expr, level: nat, tags: set<string>)
    requires Spaced(e)
    ensures Spaced(Parenthesize(e, level, tags))
  {
    match e
    case Leaf(_) =>
    case Unary(_, x) => ParenthesizeSpaced(x, BP_UNARY, tags);
    case Binary(op, l, r) =>
      ParenthesizeSpaced(l, BindingPower(op.kind), tags);
      ParenthesizeSpaced(r, BindingPower(op.kind) + 1, tags);
    case Assignment(_, l, r) =>
      ParenthesizeSpaced(l, BP_LOGICAL_OR, tags);
      ParenthesizeSpaced(r, BP_ASSIGN, tags);
    case Ternary(cond, _, a, _, b) =>
      ParenthesizeSpaced(cond, BP_LOGICAL_OR, tags);
      ParenthesizeSpaced(a, BP_ASSIGN, tags);
      ParenthesizeSpaced(b, BP_ASSIGN, tags);
    case Paren(_, x, _) => ParenthesizeSpaced(x, BP_ASSIGN, tags);
  }

  // ----- round trips -----------------------------------------------------------------------

  // The expression's tokens and nothing else.
  function Alone(e: Expr, eof: Tok, tags: set<string>): (c: Input)
    requires eof.kind == EOF
  {
    Input(Flatten(e) + [eof], tags)
  }

  lemma AloneIsPlain(e: Expr, eof: Tok, tags: set<string>)
    requires eof.kind == EOF && Typed(e) && Spaced(e)
    ensures Alone(e, eof, tags).Valid() && Plain(Alone(e, eof, tags))
  {
    var c := Alone(e, eof, tags);
    hide Flatten, Typed, Spaced, BindingPower;
    FlattenGtPlain(e);
    TokensInside(e);
    forall k | 0 <= k < |c.toks| ensures PlainAt(c.toks, k) && (k < |c.toks| - 1 ==> c.toks[k].kind != EOF) {
      if k < |Flatten(e)| {
        assert GtPlainAt(Flatten(e), k) && TokenInside(Flatten(e)[k]);
      }
    }
  }

  // A tree that fits is what parsing its own tokens returns.
  lemma ParsePrinted(e: Expr, eof: Tok, tags: set<string>)
    requires eof.kind == EOF && Fits(e, BP_ASSIGN, tags) && Spaced(e) && Height(e) <= MAX_PARSE_DEPTH
    ensures Alone(e, eof, tags).Valid()
    ensures ParseExpression(Alone(e, eof, tags), 0, 0, false) == Parsed(e, |Flatten(e)|)
  {
    hide *;
    FitsIsTyped(e, BP_ASSIGN, tags);
    AloneIsPlain(e, eof, tags);
    AloneIsGood(e, eof, tags);
    AssignmentComplete(Alone(e, eof, tags), 0, 0, false, e, |Flatten(e)|);
  }

  lemma AloneIsGood(e: Expr, eof: Tok, tags: set<string>)
    requires eof.kind == EOF && Alone(e, eof, tags).Valid() && Fits(e, BP_ASSIGN, tags) && Height(e) <= MAX_PARSE_DEPTH
    ensures var c := Alone(e, eof, tags);
            && |c.toks| == |Flatten(e)| + 1
            && Good(c, 0, BP_ASSIGN, 0, false, e, |Flatten(e)|) && EndsAssignment(c, |Flatten(e)|, false)
            && (ParseAssignment(c, 0, 0, false) == Parsed(e, |Flatten(e)|) ==>
                  ParseExpression(c, 0, 0, false) == Parsed(e, |Flatten(e)|))
  {
    hide Flatten, Size, Fits, Height, ParseAssignment;
    var c := Alone(e, eof, tags);
    assert c.toks[0..|Flatten(e)|] == Flatten(e);
  }

  // Printing any tree with the parentheses it needs and parsing it gives it back.
  lemma PrintThenParse(e: Expr, eof: Tok, tags: set<string>)
    requires eof.kind == EOF && Typed(e) && Bare(e) && Spaced(e)
    requires Height(Parenthesize(e, BP_ASSIGN, tags)) <= MAX_PARSE_DEPTH
    ensures var printed := Parenthesize(e, BP_ASSIGN, tags);
            && Alone(printed, eof, tags).Valid()
            && ParseExpression(Alone(printed, eof, tags), 0, 0, false) == Parsed(printed, |Flatten(printed)|)
            && Strip(printed) == e
  {
    ParenthesizeFits(e, BP_ASSIGN, tags);
    ParenthesizeSpaced(e, BP_ASSIGN, tags);
    ParsePrinted(Parenthesize(e, BP_ASSIGN, tags), eof, tags);
    ParenthesizeOnlyWraps(e, BP_ASSIGN, tags);
    BareIsStripped(e);
  }

  // Whatever was parsed prints back to the tokens it came from.
  lemma ParseThenPrint(c: Input, pos: nat, depth: nat, suppress: bool)
    requires c.Valid() && pos < |c.toks|
    ensures var r := ParseExpression(c, pos, depth, suppress);
            r.Parsed? ==>
              && pos <= r.pos && Parenthesize(r.tree, BP_ASSIGN, c.knownTags) == r.tree
              && Flatten(r.tree) == c.toks[pos..r.pos]
  {
    ExpressionSound(c, pos, depth, suppress);
    var r := ParseExpression(c, pos, depth, suppress);
    if r.Parsed? { NothingToWrap(r.tree, BP_ASSIGN, c.knownTags); }
  }

  // No token list reads two ways.
  lemma Unambiguous(e: Expr, f: Expr, tags: set<string>)
    requires Fits(e, BP_ASSIGN, tags) && Fits(f, BP_ASSIGN, tags) && Flatten(e) == Flatten(f)
    requires Spaced(e) && Spaced(f) && Height(e) <= MAX_PARSE_DEPTH && Height(f) <= MAX_PARSE_DEPTH
    ensures e == f
  {
    var eof := Tok(EOF, "", false);
    ParsePrinted(e, eof, tags);
    ParsePrinted(f, eof, tags);
  }
}
