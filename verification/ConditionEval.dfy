// Evaluating the condition of an #if (preprocess/ifexpr.go): a ladder of ten operator
// levels over an expanded token list, with names looked up in three tables.
module ConditionEval {
  import opened Chars
  import opened Tokens

  // Macro bodies, predefined symbols and tracked constants, already tokenized; all of them
  // may refer to one another. The declaration tracker, literal decoding and the bit
  // operations are any total functions.
  datatype Tables = Tables(
    macros: set<string>, objectMacros: map<string, seq<Tok>>,
    symbols: map<string, seq<Tok>>, constants: map<string, seq<Tok>>, maxNameLength: nat,
    declared: string -> bool, sizeOf: (string, seq<string>) -> Option<int>,
    literal: Tok -> int, bits: (Kind, int, int) -> int)

  function TableName(tb: Tables, name: string): string {
    CutName(name, tb.maxNameLength)
  }

  // The tokens a name stands for. Macro and constant names are cut to the table's
  // length, symbol names are not.
  function Definition(tb: Tables, name: string): (r: Option<seq<Tok>>) {
    if TableName(tb, name) in tb.objectMacros then Some(tb.objectMacros[TableName(tb, name)])
    else if name in tb.symbols then Some(tb.symbols[name])
    else if TableName(tb, name) in tb.constants then Some(tb.constants[TableName(tb, name)])
    else None
  }

  // ----- values ------------------------------------------------------------------------

  const CELL := 0x1_0000_0000_0000_0000

  function Wrap64(x: int): (r: int)
    ensures -0x8000_0000_0000_0000 <= r < 0x8000_0000_0000_0000 && (r - x) % CELL == 0
  {
    var m := x % CELL;
    if m < 0x8000_0000_0000_0000 then m else m - CELL
  }

  function TruncDiv(a: int, b: int): int
    requires b != 0
  {
    if a >= 0 then a / b else -(-a / b)
  }

  function Truth(b: bool): int { if b then 1 else 0 }

  // None for a division by zero.
  function Apply(tb: Tables, k: Kind, a: int, b: int): Option<int> {
    if k.OrOr? then Some(Truth(a != 0 || b != 0))
    else if k.AndAnd? then Some(Truth(a != 0 && b != 0))
    else if k.Eq? then Some(Truth(a == b))
    else if k.NotEq? then Some(Truth(a != b))
    else if k.Lt? then Some(Truth(a < b))
    else if k.Gt? then Some(Truth(a > b))
    else if k.LtEq? then Some(Truth(a <= b))
    else if k.GtEq? then Some(Truth(a >= b))
    else if k.Plus? then Some(Wrap64(a + b))
    else if k.Minus? then Some(Wrap64(a - b))
    else if k.Star? then Some(Wrap64(a * b))
    else if k.Slash? then if b == 0 then None else Some(Wrap64(TruncDiv(a, b)))
    else if k.Percent? then if b == 0 then None else Some(Wrap64(a - b * TruncDiv(a, b)))
    else Some(tb.bits(k, a, b))
  }

  predicate IsSign(k: Kind) {
    k.Bang? || k.Minus? || k.Plus? || k.Tilde?
  }

  function Signed(k: Kind, v: int): int {
    if k.Bang? then Truth(v == 0)
    else if k.Minus? then Wrap64(-v)
    else if k.Tilde? then -v - 1
    else v
  }

  const LEVELS: nat := 10

  // The rung of the ladder an operator belongs to; LEVELS for no operator.
  function LevelOf(k: Kind): (r: nat)
    ensures r <= LEVELS
  {
    if k.OrOr? then 0
    else if k.AndAnd? then 1
    else if k.Pipe? then 2
    else if k.Caret? then 3
    else if k.Amp? then 4
    else if k.Eq? || k.NotEq? then 5
    else if k.Lt? || k.Gt? || k.LtEq? || k.GtEq? then 6
    else if k.Shl? || k.Shr? then 7
    else if k.Plus? || k.Minus? then 8
    else if k.Star? || k.Slash? || k.Percent? then 9
    else LEVELS
  }

  // ----- the ladder ----------------------------------------------------------------------

  function KindAt(toks: seq<Tok>, pos: nat): Kind {
    if pos < |toks| then toks[pos].kind else EOF
  }

  // The value, where reading stopped, and whether anything could not be evaluated.
  datatype Reading = Reading(value: int, pos: nat, bad: bool)

  // Every identifier of the tokens is among `names`.
  ghost predicate Closed(toks: seq<Tok>, names: set<string>) {
    forall t | t in toks :: t.kind == Identifier ==> t.text in names
  }

  ghost predicate ClosedTables(tb: Tables, names: set<string>) {
    && (forall k | k in tb.objectMacros :: Closed(tb.objectMacros[k], names))
    && (forall k | k in tb.symbols :: Closed(tb.symbols[k], names))
    && (forall k | k in tb.constants :: Closed(tb.constants[k], names))
  }

  // What evaluation under way depends on: the tables, the names being evaluated, and
  // all names there are.
  datatype Scope = Scope(tables: Tables, guard: set<string>, names: set<string>)

  ghost predicate Fine(s: Scope, toks: seq<Tok>, pos: nat) {
    ClosedTables(s.tables, s.names) && Closed(toks, s.names) && pos <= |toks|
  }

  lemma GuardGrows(s: Scope, name: string)
    requires name in s.names && name !in s.guard
    ensures |s.names - (s.guard + {name})| < |s.names - s.guard|
  {
    assert s.names - s.guard == (s.names - (s.guard + {name})) + {name};
  }

  function ReadLevel(s: Scope, toks: seq<Tok>, pos: nat, level: nat): (r: Reading)
    requires Fine(s, toks, pos) && level <= LEVELS
    ensures pos <= r.pos <= |toks|
    decreases |s.names - s.guard|, |toks| - pos, 3 + LEVELS - level
  {
    if level == LEVELS then ReadUnary(s, toks, pos)
    else ReadOperators(s, toks, ReadLevel(s, toks, pos, level + 1), level)
  }

  function Combine(tb: Tables, k: Kind, left: Reading, right: Reading): (r: Reading)
    ensures r.pos == right.pos
  {
    var v := Apply(tb, k, left.value, right.value);
    Reading(if v.Some? then v.value else 0, right.pos, left.bad || right.bad || v.None?)
  }

  // The loop of one rung, with the value so far.
  function ReadOperators(s: Scope, toks: seq<Tok>, left: Reading, level: nat): (r: Reading)
    requires Fine(s, toks, left.pos) && level < LEVELS
    ensures left.pos <= r.pos <= |toks|
    decreases |s.names - s.guard|, |toks| - left.pos, 0
  {
    var k := KindAt(toks, left.pos);
    if LevelOf(k) != level then left
    else
      var right := ReadLevel(s, toks, left.pos + 1, level + 1);
      ReadOperators(s, toks, Combine(s.tables, k, left, right), level)
  }

  lemma OperatorsStep(s: Scope, toks: seq<Tok>, left: Reading, level: nat)
    requires Fine(s, toks, left.pos) && level < LEVELS
    ensures LevelOf(KindAt(toks, left.pos)) != level ==> ReadOperators(s, toks, left, level) == left
    ensures LevelOf(KindAt(toks, left.pos)) == level ==>
      left.pos < |toks| &&
      var right := ReadLevel(s, toks, left.pos + 1, level + 1);
      ReadOperators(s, toks, left, level)
      == ReadOperators(s, toks, Combine(s.tables, KindAt(toks, left.pos), left, right), level)
  {
    hide LevelOf, Combine, ReadLevel, Fine;
    AtEnd(toks, left.pos);
  }

  lemma AtEnd(toks: seq<Tok>, pos: nat)
    ensures LevelOf(KindAt(toks, pos)) < LEVELS ==> pos < |toks|
  {
  }

  function ReadUnary(s: Scope, toks: seq<Tok>, pos: nat): (r: Reading)
    requires Fine(s, toks, pos)
    ensures pos <= r.pos <= |toks|
    decreases |s.names - s.guard|, |toks| - pos, 2
  {
    var k := KindAt(toks, pos);
    if IsSign(k) then
      var operand := ReadUnary(s, toks, pos + 1);
      Reading(Signed(k, operand.value), operand.pos, operand.bad)
    else if k == KwSizeof then ReadSizeof(s.tables, toks, pos + 1)
    else ReadPrimary(s, toks, pos)
  }

  function ReadPrimary(s: Scope, toks: seq<Tok>, pos: nat): (r: Reading)
    requires Fine(s, toks, pos)
    ensures pos <= r.pos <= |toks|
    decreases |s.names - s.guard|, |toks| - pos, 1
  {
    var k := KindAt(toks, pos);
    if k == IntLiteral || k == CharLiteral then Reading(s.tables.literal(toks[pos]), pos + 1, false)
    else if k == LParen then
      var inner := ReadLevel(s, toks, pos + 1, 0);
      if KindAt(toks, inner.pos) == RParen then Reading(inner.value, inner.pos + 1, inner.bad)
      else Reading(0, inner.pos, true)
    else if k == KwDefined then ReadDefined(s.tables, toks, pos + 1)
    else if k == Identifier then
      var v := NameValue(s, toks[pos].text);
      Reading(if v.Some? then v.value else 0, pos + 1, v.None?)
    else Reading(0, pos, true)
  }

  // None if the name's definition cannot be evaluated to its end. A name met again
  // while it is being evaluated counts as 0.
  function NameValue(s: Scope, name: string): (r: Option<int>)
    requires ClosedTables(s.tables, s.names) && name in s.names
    decreases |s.names - s.guard|, 0, 0
  {
    var body := Definition(s.tables, name);
    if name in s.guard || body.None? then Some(0)
    else
      GuardGrows(s, name);
      var r := ReadLevel(s.(guard := s.guard + {name}), body.value, 0, 0);
      if r.bad || r.pos != |body.value| then None else Some(r.value)
  }

  function ReadDefined(tb: Tables, toks: seq<Tok>, pos: nat): (r: Reading)
    requires pos <= |toks|
    ensures pos <= r.pos <= |toks|
  {
    var paren := KindAt(toks, pos) == LParen;
    var at := if paren then pos + 1 else pos;
    if KindAt(toks, at) != Identifier then Reading(0, at, true)
    else if paren && KindAt(toks, at + 1) != RParen then Reading(0, at + 1, true)
    else
      var name := toks[at].text;
      Reading(Truth(TableName(tb, name) in tb.macros || name in tb.symbols || tb.declared(name)),
              if paren then at + 2 else at + 1, false)
  }

  function ReadSizeof(tb: Tables, toks: seq<Tok>, pos: nat): (r: Reading)
    requires pos <= |toks|
    ensures pos <= r.pos <= |toks|
  {
    var paren := KindAt(toks, pos) == LParen;
    var at := if paren then pos + 1 else pos;
    if KindAt(toks, at) != Identifier then Reading(0, at, true)
    else
      var s := ReadSelectors(toks, at + 1, []);
      if s.bad then Reading(0, s.pos, true)
      else if paren && KindAt(toks, s.pos) != RParen then Reading(0, s.pos, true)
      else
        var v := tb.sizeOf(toks[at].text, s.list);
        Reading(if v.Some? then v.value else 0, if paren then s.pos + 1 else s.pos, v.None?)
  }

  datatype Selectors = Selectors(list: seq<string>, pos: nat, bad: bool)

  // A run of `[ ]`, `[name]` and `[number]`.
  function ReadSelectors(toks: seq<Tok>, pos: nat, list: seq<string>): (r: Selectors)
    requires pos <= |toks|
    ensures pos <= r.pos <= |toks|
    decreases |toks| - pos
  {
    if KindAt(toks, pos) != LBracket then Selectors(list, pos, false)
    else
      var k := KindAt(toks, pos + 1);
      var named := k == Identifier || k == IntLiteral;
      var close := if named then pos + 2 else pos + 1;
      if KindAt(toks, close) != RBracket then Selectors(list, close, true)
      else ReadSelectors(toks, close + 1, list + [if named then toks[pos + 1].text else ""])
  }

  // ----- all the names there are ---------------------------------------------------------

  function Names(tb: Tables, toks: seq<Tok>): (r: set<string>)
    ensures Closed(toks, r) && ClosedTables(tb, r)
  {
    (set t | t in toks :: t.text)
    + (set k, t | k in tb.objectMacros && t in tb.objectMacros[k] :: t.text)
    + (set k, t | k in tb.symbols && t in tb.symbols[k] :: t.text)
    + (set k, t | k in tb.constants && t in tb.constants[k] :: t.text)
  }

  // The value of a whole condition; None where it is not supported.
  function ConditionValue(tb: Tables, toks: seq<Tok>): (r: Option<int>) {
    if toks == [] then None
    else
      var r := ReadLevel(Scope(tb, {}, Names(tb, toks)), toks, 0, 0);
      if r.bad || r.pos != |toks| then None else Some(r.value)
  }

  // ----- the evaluator itself --------------------------------------------------------------

  class Evaluator {
    const toks: seq<Tok>
    const tables: Tables
    const guard: set<string>
    ghost const names: set<string>
    var pos: nat
    var unknown: bool

    constructor (toks: seq<Tok>, tables: Tables, guard: set<string>, ghost names: set<string>)
      ensures this.toks == toks && this.tables == tables && this.guard == guard && this.names == names
      ensures pos == 0 && !unknown
    {
      this.toks, this.tables, this.guard, this.names := toks, tables, guard, names;
      pos, unknown := 0, false;
    }

    ghost function TheScope(): Scope { Scope(tables, guard, names) }

    ghost predicate Ready()
      reads this`pos
    {
      Fine(TheScope(), toks, pos)
    }

    function CurKind(): Kind
      reads this`pos
    {
      KindAt(toks, pos)
    }

    method Advance()
      modifies this`pos
      ensures pos == if old(pos) < |toks| then old(pos) + 1 else old(pos)
    {
      if pos < |toks| { pos := pos + 1; }
    }

    method Fail()
      modifies this`unknown
      ensures unknown
    {
      unknown := true;
    }

    // The state after reading r and returning v.
    twostate predicate Reads(r: Reading, v: int)
      reads this
    {
      v == r.value && pos == r.pos && unknown == (old(unknown) || r.bad)
    }

    method Level(level: nat) returns (v: int)
      requires Ready() && level <= LEVELS
      modifies this
      ensures Ready() && Reads(ReadLevel(TheScope(), toks, old(pos), level), v)
      decreases |names - guard|, |toks| - pos, 4 + LEVELS - level, 1
    {
      if level == LEVELS {
        v := UnaryExpr();
      } else {
        v := Rung(level);
      }
    }

    method Rung(level: nat) returns (v: int)
      requires Ready() && level < LEVELS
      modifies this
      ensures Ready() && Reads(ReadLevel(TheScope(), toks, old(pos), level), v)
      decreases |names - guard|, |toks| - pos, 4 + LEVELS - level, 0
    {
      ghost var left := ReadLevel(TheScope(), toks, pos, level + 1);
      hide Fine;
      v := Level(level + 1);
      v := Operators(level, v, left, old(unknown));
    }

    // The loop over one rung's operators; `left` is the reading before it.
    method Operators(level: nat, first: int, ghost left: Reading, ghost before: bool) returns (v: int)
      requires Ready() && level < LEVELS && Holds(left, first, before)
      modifies this
      ensures Ready() && Holds(ReadOperators(TheScope(), toks, left, level), v, before)
      decreases |names - guard|, |toks| - pos, 1
    {
      hide ReadLevel, ReadOperators, Combine, Fine, LevelOf;
      ghost var s := TheScope();
      ghost var all := ReadOperators(s, toks, left, level);
      ghost var done := left;
      v := first;
      while LevelOf(CurKind()) == level
        invariant Ready() && old(pos) <= pos && Holds(done, v, before)
        invariant ReadOperators(s, toks, done, level) == all
        decreases |toks| - pos
      {
        OperatorsStep(s, toks, done, level);
        v, done := Turn(level, v, done, before);
      }
      OperatorsStep(s, toks, done, level);
    }

    // The state after reading r and returning v, if it started out with `before`.
    ghost predicate Holds(r: Reading, v: int, before: bool)
      reads this
    {
      v == r.value && pos == r.pos && unknown == (before || r.bad)
    }

    // One operator and its right operand.
    method Turn(level: nat, v: int, ghost left: Reading, ghost before: bool) returns (w: int, ghost next: Reading)
      requires Ready() && level < LEVELS && LevelOf(CurKind()) == level && Holds(left, v, before)
      modifies this
      ensures Ready() && old(pos) < pos && old(pos) < |toks| && Holds(next, w, before)
      ensures next == Combine(tables, old(CurKind()), left, ReadLevel(TheScope(), toks, old(pos) + 1, level + 1))
      decreases |names - guard|, |toks| - pos, 0
    {
      var k := CurKind();
      assert LevelOf(EOF) == LEVELS;
      hide ReadLevel, LevelOf, Fine;
      Advance();
      ghost var right := ReadLevel(TheScope(), toks, pos, level + 1);
      w := Level(level + 1);
      next := Combine(tables, k, left, right);
      hide Apply;
      w := Evaluate(k, v, w);
    }

    method Evaluate(k: Kind, a: int, b: int) returns (v: int)
      modifies this`unknown
      ensures var r := Apply(tables, k, a, b);
              && v == (if r.Some? then r.value else 0)
              && unknown == (old(unknown) || r.None?)
    {
      var r := Apply(tables, k, a, b);
      if r.None? {
        Fail();
        return 0;
      }
      v := r.value;
    }

    method UnaryExpr() returns (v: int)
      requires Ready()
      modifies this
      ensures Ready() && Reads(ReadUnary(TheScope(), toks, old(pos)), v)
      decreases |names - guard|, |toks| - pos, 3
    {
      var k := CurKind();
      if IsSign(k) {
        Advance();
        v := UnaryExpr();
        v := Signed(k, v);
      } else if k == KwSizeof {
        Advance();
        v := SizeofExpr();
      } else {
        v := PrimaryExpr();
      }
    }

    method PrimaryExpr() returns (v: int)
      requires Ready()
      modifies this
      ensures Ready() && Reads(ReadPrimary(TheScope(), toks, old(pos)), v)
      decreases |names - guard|, |toks| - pos, 2
    {
      var k := CurKind();
      if k == IntLiteral || k == CharLiteral {
        v := tables.literal(toks[pos]);
        Advance();
      } else if k == LParen {
        Advance();
        v := Level(0);
        if CurKind() != RParen {
          Fail();
          return 0;
        }
        Advance();
      } else if k == KwDefined {
        Advance();
        v := DefinedExpr();
      } else if k == Identifier {
        var name := toks[pos].text;
        Advance();
        v := EvalIdent(name);
      } else {
        Fail();
        v := 0;
      }
    }

    method EvalIdent(name: string) returns (v: int)
      requires Ready() && name in names
      modifies this`unknown
      ensures var r := NameValue(TheScope(), name);
              && v == (if r.Some? then r.value else 0)
              && unknown == (old(unknown) || r.None?)
      decreases |names - guard|, 0, 0
    {
      var body := Definition(tables, name);
      if name in guard || body.None? { return 0; }
      GuardGrows(TheScope(), name);
      var sub := new Evaluator(body.value, tables, guard + {name}, names);
      v := sub.Level(0);
      if sub.unknown || sub.pos != |sub.toks| {
        Fail();
        return 0;
      }
    }

    method DefinedExpr() returns (v: int)
      requires Ready()
      modifies this
      ensures Ready() && Reads(ReadDefined(tables, toks, old(pos)), v)
    {
      var paren := CurKind() == LParen;
      if paren { Advance(); }
      if CurKind() != Identifier {
        Fail();
        return 0;
      }
      var name := toks[pos].text;
      Advance();
      if paren {
        if CurKind() != RParen {
          Fail();
          return 0;
        }
        Advance();
      }
      v := Truth(TableName(tables, name) in tables.macros || name in tables.symbols || tables.declared(name));
    }

    method SizeofExpr() returns (v: int)
      requires Ready()
      modifies this
      ensures Ready() && Reads(ReadSizeof(tables, toks, old(pos)), v)
    {
      hide Closed, ClosedTables, ReadSelectors;
      var paren := CurKind() == LParen;
      if paren { Advance(); }
      if CurKind() != Identifier {
        Fail();
        return 0;
      }
      var name := toks[pos].text;
      Advance();
      var selectors, ok := SelectorList();
      if !ok { return 0; }
      if paren {
        if CurKind() != RParen {
          Fail();
          return 0;
        }
        Advance();
      }
      var size := tables.sizeOf(name, selectors);
      if size.None? {
        Fail();
        return 0;
      }
      v := size.value;
    }

    // One pair of brackets with a name or number between them, or with nothing.
    method Selector() returns (name: string, ok: bool)
      requires pos < |toks| && KindAt(toks, pos) == LBracket
      modifies this`pos, this`unknown
      ensures var named := KindAt(toks, old(pos) + 1) == Identifier || KindAt(toks, old(pos) + 1) == IntLiteral;
              var close := if named then old(pos) + 2 else old(pos) + 1;
              && ok == (KindAt(toks, close) == RBracket) && pos == (if ok then close + 1 else close) <= |toks|
              && unknown == (old(unknown) || !ok)
              && (ok ==> name == if named then toks[old(pos) + 1].text else "")
    {
      name, ok := "", false;
      Advance();
      if CurKind() == Identifier || CurKind() == IntLiteral {
        name := toks[pos].text;
        Advance();
      }
      if CurKind() != RBracket {
        Fail();
        return;
      }
      ok := true;
      Advance();
    }

    method SelectorList() returns (selectors: seq<string>, ok: bool)
      requires pos <= |toks|
      modifies this`pos, this`unknown
      ensures var r := ReadSelectors(toks, old(pos), []);
              && pos == r.pos && ok == !r.bad && unknown == (old(unknown) || r.bad)
              && (ok ==> selectors == r.list)
    {
      hide ReadSelectors, KindAt;
      ghost var all := ReadSelectors(toks, pos, []);
      selectors := [];
      while CurKind() == LBracket
        invariant pos <= |toks| && unknown == old(unknown)
        invariant ReadSelectors(toks, pos, selectors) == all
        decreases |toks| - pos
      {
        SelectorsStep(toks, pos, selectors);
        var selector;
        selector, ok := Selector();
        if !ok { return; }
        selectors := selectors + [selector];
      }
      SelectorsStep(toks, pos, selectors);
      ok := true;
    }
  }

  lemma SelectorsStep(toks: seq<Tok>, pos: nat, list: seq<string>)
    requires pos <= |toks|
    ensures var r := ReadSelectors(toks, pos, list);
            if KindAt(toks, pos) != LBracket then r == Selectors(list, pos, false)
            else
              var named := KindAt(toks, pos + 1) == Identifier || KindAt(toks, pos + 1) == IntLiteral;
              var close := if named then pos + 2 else pos + 1;
              && pos < |toks| && close <= |toks|
              && if KindAt(toks, close) != RBracket then r == Selectors(list, close, true)
                 else
                   && close < |toks|
                   && r == ReadSelectors(toks, close + 1, list + [if named then toks[pos + 1].text else ""])
  {
  }

  // For every set of tables, however they refer to one another, evaluation ends with
  // the condition's value.
  method EvalCondition(tb: Tables, toks: seq<Tok>) returns (value: int, ok: bool)
    ensures ok == ConditionValue(tb, toks).Some?
    ensures ok ==> value == ConditionValue(tb, toks).value
  {
    if toks == [] { return 0, false; }
    var p := new Evaluator(toks, tb, {}, Names(tb, toks));
    value := p.Level(0);
    if p.unknown || p.pos != |toks| { return 0, false; }
    ok := true;
  }
}
