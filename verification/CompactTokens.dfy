// Compact token records with shared trivia, origins and macro names, and back
// (compact.go, compactTokens; compact_expand.go, expandTokens).
module CompactTokens {
  import opened Chars
  import opened Tokens
  import opened Scanning
  import Reachability

  datatype Span = Span(file: nat, start: Position, end: Position)

  // An origin and the one it came from. References to origins are indices into a pool;
  // equal indices are the same origin, and parents may be shared.
  datatype Origin = Origin(span: Span, macro: string, parent: Option<nat>)

  datatype Token = Token(kind: Kind, start: Position, end: Position, leading: seq<Raw>, trailing: seq<Raw>,
                         origin: Option<nat>)

  datatype Compact = Compact(kind: Kind, start: Position, end: Position, leadingStart: nat, leadingCount: nat,
                             trailingStart: nat, trailingCount: nat, origin: nat)

  // A macro name and a parent by number, 0 for none.
  datatype CompactOrigin = CompactOrigin(span: Span, macro: nat, parent: nat)

  datatype Tables = Tables(trivia: seq<Raw>, origins: seq<CompactOrigin>, macroNames: seq<string>)

  // References stay inside the pool.
  ghost predicate Pooled(pool: seq<Origin>) {
    forall r: nat | r < |pool| && pool[r].parent.Some? :: pool[r].parent.value < |pool|
  }

  // ----- expanding ---------------------------------------------------------------------------

  function Reference(id: nat, count: nat): Option<nat> {
    if 0 < id < count then Some(id) else None
  }

  // The origin that number id stands for; number 0 is no origin.
  function ExpandOrigin(t: Tables, id: nat): Origin
    requires id < |t.origins|
  {
    var c := t.origins[id];
    Origin(c.span, if c.macro < |t.macroNames| then t.macroNames[c.macro] else "", Reference(c.parent, |t.origins|))
  }

  function ExpandTrivia(t: Tables, start: nat, count: nat): seq<Raw> {
    if start + count <= |t.trivia| then t.trivia[start..start + count] else []
  }

  function ExpandToken(t: Tables, c: Compact, discardTrivia: bool): Token {
    Token(c.kind, c.start, c.end,
          if discardTrivia then [] else ExpandTrivia(t, c.leadingStart, c.leadingCount),
          if discardTrivia then [] else ExpandTrivia(t, c.trailingStart, c.trailingCount),
          Reference(c.origin, |t.origins|))
  }

  method ExpandTokens(t: Tables, compact: seq<Compact>, discardTrivia: bool)
    returns (tokens: seq<Token>, pool: seq<Origin>)
    ensures |tokens| == |compact|
    ensures forall k | 0 <= k < |tokens| :: tokens[k] == ExpandToken(t, compact[k], discardTrivia)
    ensures |pool| == |t.origins| && forall k | 0 < k < |pool| :: pool[k] == ExpandOrigin(t, k)
  {
    var none := Position(0, 0, 0);
    var empty := Origin(Span(0, none, none), "", None);
    var origins := new Origin[|t.origins|](_ => empty);
    var i := 1;
    while i < |t.origins|
      invariant forall k | 0 < k < i && k < |t.origins| :: origins[k] == ExpandOrigin(t, k)
      invariant forall k | i <= k < |t.origins| :: origins[k] == empty
    {
      var c := t.origins[i];
      var origin := origins[i].(span := c.span);
      if c.macro < |t.macroNames| { origin := origin.(macro := t.macroNames[c.macro]); }
      origins[i] := origin.(parent := Reference(c.parent, |t.origins|));
      i := i + 1;
    }
    pool := origins[..];
    tokens := [];
    for j := 0 to |compact|
      invariant |tokens| == j && forall k | 0 <= k < j :: tokens[k] == ExpandToken(t, compact[k], discardTrivia)
    {
      tokens := tokens + [ExpandToken(t, compact[j], discardTrivia)];
    }
  }

  // ----- compacting ----------------------------------------------------------------------------

  // Macro names are numbered from 1, each once.
  ghost predicate Named(macroNames: seq<string>, macroIDs: map<string, nat>) {
    && macroNames != [] && macroNames[0] == ""
    && (forall name | name in macroIDs :: 0 < macroIDs[name] < |macroNames| && macroNames[macroIDs[name]] == name)
    && (forall k | 0 < k < |macroNames| :: macroNames[k] in macroIDs && macroIDs[macroNames[k]] == k)
  }

  // The record of an origin says what the origin says, by numbers.
  ghost predicate Recorded(pool: seq<Origin>, ids: map<nat, nat>, t: Tables, r: nat) {
    && r < |pool| && r in ids && ids[r] < |t.origins|
    && var o, c := pool[r], t.origins[ids[r]];
    && c.span == o.span && c.macro < |t.macroNames| && t.macroNames[c.macro] == o.macro
    && (if o.parent.None? then c.parent == 0 else o.parent.value in ids && c.parent == ids[o.parent.value])
  }

  // Origins are numbered from 1, one by one; all but the open ones have their record.
  ghost predicate Numbered(pool: seq<Origin>, ids: map<nat, nat>, t: Tables, open: set<nat>) {
    && t.origins != []
    && (forall r | r in ids :: r < |pool| && 0 < ids[r] < |t.origins|)
    && (forall a, b | a in ids && b in ids && ids[a] == ids[b] :: a == b)
    && (forall r | r in ids && r !in open :: Recorded(pool, ids, t, r))
  }

  ghost predicate Later(t: Tables, ids: map<nat, nat>, u: Tables, more: map<nat, nat>) {
    && t.trivia <= u.trivia && t.macroNames <= u.macroNames && |t.origins| <= |u.origins|
    && t.origins == u.origins[..|t.origins|]
    && (forall r | r in ids :: r in more && more[r] == ids[r])
    && (forall r | r in more && r !in ids :: |t.origins| <= more[r])
  }

  lemma RecordedLater(pool: seq<Origin>, t: Tables, ids: map<nat, nat>, u: Tables, more: map<nat, nat>, r: nat)
    requires Recorded(pool, ids, t, r) && Later(t, ids, u, more)
    ensures Recorded(pool, more, u, r)
  {
    var c := t.origins[ids[r]];
    assert u.origins[more[r]] == c && u.macroNames[c.macro] == t.macroNames[c.macro];
  }

  ghost function Unnumbered(pool: seq<Origin>, ids: map<nat, nat>): nat {
    |Reachability.IdsBelow(|pool|) - ids.Keys|
  }

  lemma OneLess(pool: seq<Origin>, ids: map<nat, nat>, r: nat, id: nat)
    requires r < |pool| && r !in ids
    ensures Unnumbered(pool, ids[r := id]) < Unnumbered(pool, ids)
  {
    var all := Reachability.IdsBelow(|pool|);
    assert all - ids.Keys == (all - ids[r := id].Keys) + {r};
  }

  lemma NothingLater(t: Tables, ids: map<nat, nat>)
    ensures Later(t, ids, t, ids)
  {
    assert t.origins == t.origins[..|t.origins|];
  }

  // An origin gets the next number; its record is to follow.
  lemma NumberNext(pool: seq<Origin>, ids: map<nat, nat>, t: Tables, open: set<nat>, r: nat, named: Tables,
                   blank: CompactOrigin)
    requires Numbered(pool, ids, t, open) && r !in ids && r < |pool|
    requires named == t.(macroNames := named.macroNames) && t.macroNames <= named.macroNames
    ensures var more := ids[r := |t.origins|];
            var next := named.(origins := named.origins + [blank]);
            Numbered(pool, more, next, open + {r}) && Later(t, ids, next, more)
  {
    var more := ids[r := |t.origins|];
    var next := named.(origins := named.origins + [blank]);
    assert t.origins == next.origins[..|t.origins|];
    forall q | q in more && q !in open + {r} ensures Recorded(pool, more, next, q) {
      RecordedLater(pool, t, ids, next, more, q);
    }
  }

  // Its record follows, once its parent has a number.
  lemma RecordOne(pool: seq<Origin>, begun: map<nat, nat>, start: Tables, named: Tables, now: Tables,
                  ids: map<nat, nat>,
                  full: Tables, done: map<nat, nat>, open: set<nat>, r: nat, c: CompactOrigin)
    requires r !in begun && r < |pool| && r !in open && ids == begun[r := |start.origins|]
    requires Later(start, begun, now, ids) && Later(now, ids, full, done) && Numbered(pool, done, full, open + {r})
    requires |now.origins| == |start.origins| + 1 && now.macroNames == named.macroNames
    requires var o := pool[r];
             && c.span == o.span && c.macro < |named.macroNames| && named.macroNames[c.macro] == o.macro
             && (if o.parent.None? then c.parent == 0 else o.parent.value in done && c.parent == done[o.parent.value])
    ensures r in done && done[r] == |start.origins| < |full.origins|
    ensures var after := full.(origins := full.origins[|start.origins| := c]);
            Numbered(pool, done, after, open) && Later(start, begun, after, done)
  {
    LaterJoins(start, begun, now, ids, full, done);
    var after := full.(origins := full.origins[|start.origins| := c]);
    assert after.origins[..|start.origins|] == full.origins[..|start.origins|];
    assert full.macroNames[c.macro] == named.macroNames[c.macro];
    forall q | q in done && q !in open ensures Recorded(pool, done, after, q) {
      if q != r { assert Recorded(pool, done, full, q); }
    }
  }

  class Compactor {
    const pool: seq<Origin>
    var trivia: seq<Raw>
    var origins: seq<CompactOrigin>
    var macroNames: seq<string>
    var originIDs: map<nat, nat>
    var macroIDs: map<string, nat>

    constructor (pool: seq<Origin>)
      ensures this.pool == pool && trivia == [] && originIDs == map[]
      ensures Numbered(pool, originIDs, State(), {}) && Named(macroNames, macroIDs)
    {
      this.pool := pool;
      var none := Position(0, 0, 0);
      trivia, origins, macroNames := [], [CompactOrigin(Span(0, none, none), 0, 0)], [""];
      originIDs, macroIDs := map[], map[];
    }

    function State(): Tables
      reads this
    {
      Tables(trivia, origins, macroNames)
    }

    method MacroID(name: string) returns (id: nat)
      requires Named(macroNames, macroIDs)
      modifies this`macroNames, this`macroIDs
      ensures Named(macroNames, macroIDs) && id < |macroNames| && macroNames[id] == name
      ensures old(macroNames) <= macroNames
    {
      if name == "" { return 0; }
      if name in macroIDs { return macroIDs[name]; }
      id := |macroNames|;
      macroIDs := macroIDs[name := id];
      macroNames := macroNames + [name];
    }

    // Ends for every pool, whatever its parents: an origin is numbered before its parent is
    // looked at. The program stores the record in one assignment to `origins[id]` that calls
    // itself for the parent; the call is taken to come first, as the language leaves open
    // whether `origins` is read before it.
    method AddOrigin(ref: Option<nat>, ghost open: set<nat>) returns (id: nat)
      requires Pooled(pool) && (ref.Some? ==> ref.value < |pool|)
      requires Named(macroNames, macroIDs) && Numbered(pool, originIDs, State(), open) && open <= originIDs.Keys
      modifies this`origins, this`macroNames, this`originIDs, this`macroIDs
      ensures Named(macroNames, macroIDs) && Numbered(pool, originIDs, State(), open)
      ensures Later(old(State()), old(originIDs), State(), originIDs)
      ensures if ref.None? then id == 0 else ref.value in originIDs && id == originIDs[ref.value]
      decreases Unnumbered(pool, originIDs)
    {
      hide Named, Unnumbered, Numbered, Later;
      if ref.None? {
        NothingLater(State(), originIDs);
        return 0;
      }
      var r := ref.value;
      if r in originIDs {
        NothingLater(State(), originIDs);
        return originIDs[r];
      }
      ghost var start, begun := State(), originIDs;
      var origin := pool[r];
      var macro := MacroID(origin.macro);
      ghost var named := State();
      id := |origins|;
      OneLess(pool, originIDs, r, id);
      NumberNext(pool, begun, start, open, r, named, CompactOrigin(origin.span, 0, 0));
      originIDs := originIDs[r := id];
      origins := origins + [CompactOrigin(origin.span, 0, 0)];
      ghost var now, ids := State(), originIDs;
      var parent := AddOrigin(origin.parent, open + {r});
      ghost var full, done := State(), originIDs;
      RecordOne(pool, begun, start, named, now, ids, full, done, open, r, CompactOrigin(origin.span, macro, parent));
      origins := origins[id := CompactOrigin(origin.span, macro, parent)];
    }

    method AddTrivia(items: seq<Raw>, discard: bool) returns (start: nat, count: nat)
      modifies this`trivia
      ensures old(trivia) <= trivia
      ensures start + count <= |trivia| && trivia[start..start + count] == if discard then [] else items
    {
      if discard || |items| == 0 { return 0, 0; }
      start := |trivia|;
      for i := 0 to |items|
        invariant trivia == old(trivia) + items[..i]
      {
        trivia := trivia + [items[i]];
      }
      count := |items|;
    }
  }

  // A compact token says what the token says.
  ghost predicate Says(t: Tables, ids: map<nat, nat>, c: Compact, token: Token, discard: bool) {
    && c.kind == token.kind && c.start == token.start && c.end == token.end
    && ExpandTrivia(t, c.leadingStart, c.leadingCount) == (if discard then [] else token.leading)
    && ExpandTrivia(t, c.trailingStart, c.trailingCount) == (if discard then [] else token.trailing)
    && c.origin < |t.origins|
    && (if token.origin.None? then c.origin == 0 else token.origin.value in ids && c.origin == ids[token.origin.value])
  }

  lemma SaysLater(t: Tables, ids: map<nat, nat>, u: Tables, more: map<nat, nat>, c: Compact, token: Token,
                  discard: bool)
    requires Says(t, ids, c, token, discard) && Later(t, ids, u, more)
    requires c.leadingStart + c.leadingCount <= |t.trivia| && c.trailingStart + c.trailingCount <= |t.trivia|
    ensures Says(u, more, c, token, discard)
  {
    assert u.trivia[c.leadingStart..c.leadingStart + c.leadingCount]
        == t.trivia[c.leadingStart..c.leadingStart + c.leadingCount];
    assert u.trivia[c.trailingStart..c.trailingStart + c.trailingCount]
        == t.trivia[c.trailingStart..c.trailingStart + c.trailingCount];
  }

  // The compact form of a token list: records, tables, and the numbers given to origins.
  ghost predicate Compacted(pool: seq<Origin>, tokens: seq<Token>, discard: bool, compact: seq<Compact>, t: Tables,
                            ids: map<nat, nat>)
  {
    && Numbered(pool, ids, t, {}) && |compact| == |tokens|
    && forall k | 0 <= k < |tokens| :: Says(t, ids, compact[k], tokens[k], discard)
  }

  ghost predicate InWindow(c: Compact, count: nat) {
    c.leadingStart + c.leadingCount <= count && c.trailingStart + c.trailingCount <= count
  }

  method CompactTokens(pool: seq<Origin>, tokens: seq<Token>, discardTrivia: bool)
    returns (compact: seq<Compact>, t: Tables)
    requires Pooled(pool) && forall k | 0 <= k < |tokens| && tokens[k].origin.Some? :: tokens[k].origin.value < |pool|
    ensures exists ids :: Compacted(pool, tokens, discardTrivia, compact, t, ids)
    ensures exists names :: Named(t.macroNames, names)
  {
    hide Named, Numbered, Says;
    var c := new Compactor(pool);
    compact := [];
    for i := 0 to |tokens|
      invariant c.pool == pool
      invariant |compact| == i && Named(c.macroNames, c.macroIDs) && Numbered(pool, c.originIDs, c.State(), {})
      invariant forall k | 0 <= k < i :: InWindow(compact[k], |c.trivia|)
      invariant forall k | 0 <= k < i :: Says(c.State(), c.originIDs, compact[k], tokens[k], discardTrivia)
    {
      ghost var before, known := c.State(), c.originIDs;
      var item := tokens[i];
      var leadingStart, leadingCount := c.AddTrivia(item.leading, discardTrivia);
      ghost var half := c.trivia;
      var trailingStart, trailingCount := c.AddTrivia(item.trailing, discardTrivia);
      assert c.trivia[leadingStart..leadingStart + leadingCount] == half[leadingStart..leadingStart + leadingCount];
      TriviaOnly(pool, known, before, c.State());
      ghost var now := c.State();
      var origin := c.AddOrigin(item.origin, {});
      var made := Compact(item.kind, item.start, item.end, leadingStart, leadingCount, trailingStart, trailingCount,
          origin);
      LaterJoins(before, known, now, known, c.State(), c.originIDs);
      forall k | 0 <= k < i ensures Says(c.State(), c.originIDs, compact[k], tokens[k], discardTrivia) {
        SaysLater(before, known, c.State(), c.originIDs, compact[k], tokens[k], discardTrivia);
      }
      SaysNow(pool, c.State(), c.originIDs, made, item, discardTrivia);
      compact := compact + [made];
    }
    t := c.State();
    assert Compacted(pool, tokens, discardTrivia, compact, t, c.originIDs) && Named(t.macroNames, c.macroIDs);
  }

  lemma TriviaOnly(pool: seq<Origin>, ids: map<nat, nat>, t: Tables, u: Tables)
    requires Numbered(pool, ids, t, {}) && t.trivia <= u.trivia && u == t.(trivia := u.trivia)
    ensures Numbered(pool, ids, u, {}) && Later(t, ids, u, ids)
  {
    forall r | r in ids ensures Recorded(pool, ids, u, r) {
      assert Recorded(pool, ids, t, r);
    }
  }

  lemma LaterJoins(t: Tables, ids: map<nat, nat>, u: Tables, more: map<nat, nat>, v: Tables, most: map<nat, nat>)
    requires Later(t, ids, u, more) && Later(u, more, v, most)
    ensures Later(t, ids, v, most)
  {
    assert t.origins == v.origins[..|t.origins|];
  }

  lemma SaysNow(pool: seq<Origin>, t: Tables, ids: map<nat, nat>, c: Compact, token: Token, discard: bool)
    requires Numbered(pool, ids, t, {}) && InWindow(c, |t.trivia|)
    requires c.kind == token.kind && c.start == token.start && c.end == token.end
    requires t.trivia[c.leadingStart..c.leadingStart + c.leadingCount] == if discard then [] else token.leading
    requires t.trivia[c.trailingStart..c.trailingStart + c.trailingCount] == if discard then [] else token.trailing
    requires if token.origin.None? then c.origin == 0
             else token.origin.value in ids && c.origin == ids[token.origin.value]
    ensures Says(t, ids, c, token, discard)
  {
  }

  // ----- back and forth ---------------------------------------------------------------------------

  // The first n steps of an origin chain.
  function Chain(pool: seq<Origin>, ref: Option<nat>, n: nat): seq<(Span, string)>
    decreases n
  {
    if n == 0 || ref.None? || ref.value >= |pool| then []
    else [(pool[ref.value].span, pool[ref.value].macro)] + Chain(pool, pool[ref.value].parent, n - 1)
  }

  ghost function Moved(ids: map<nat, nat>, ref: Option<nat>): Option<nat> {
    if ref.Some? && ref.value in ids then Some(ids[ref.value]) else None
  }

  lemma OriginBack(pool: seq<Origin>, ids: map<nat, nat>, t: Tables, r: nat)
    requires Numbered(pool, ids, t, {}) && r in ids
    ensures ids[r] < |t.origins|
    ensures var e := ExpandOrigin(t, ids[r]);
            && e.span == pool[r].span && e.macro == pool[r].macro && e.parent == Moved(ids, pool[r].parent)
            && (pool[r].parent.Some? ==> pool[r].parent.value in ids)
  {
    assert Recorded(pool, ids, t, r);
  }

  // Origin chains come back whole, however long.
  lemma {:induction false} ChainBack(pool: seq<Origin>, ids: map<nat, nat>, t: Tables, out: seq<Origin>, r: nat, n: nat)
    requires Numbered(pool, ids, t, {}) && r in ids && |out| == |t.origins|
    requires forall k | 0 < k < |out| :: out[k] == ExpandOrigin(t, k)
    ensures Chain(out, Some(ids[r]), n) == Chain(pool, Some(r), n)
    decreases n
  {
    hide Numbered, ExpandOrigin;
    OriginBack(pool, ids, t, r);
    NumberBounds(pool, ids, t, r);
    if n > 0 && pool[r].parent.Some? {
      ChainBack(pool, ids, t, out, pool[r].parent.value, n - 1);
    }
  }

  lemma NumberBounds(pool: seq<Origin>, ids: map<nat, nat>, t: Tables, r: nat)
    requires Numbered(pool, ids, t, {}) && r in ids
    ensures 0 < ids[r] < |t.origins| && r < |pool|
  {
  }

  // Expanding the compact form gives the tokens back: kinds, positions, trivia, and origins
  // renumbered one for one, so that the same origins are shared as before and no others.
  lemma ExpandUndoesCompact(pool: seq<Origin>, tokens: seq<Token>, discard: bool, compact: seq<Compact>, t: Tables,
                            ids: map<nat, nat>, back: seq<Token>, out: seq<Origin>)
    requires Compacted(pool, tokens, discard, compact, t, ids)
    requires |back| == |compact| && forall k | 0 <= k < |back| :: back[k] == ExpandToken(t, compact[k], discard)
    requires |out| == |t.origins| && forall k | 0 < k < |out| :: out[k] == ExpandOrigin(t, k)
    ensures |back| == |tokens|
    ensures forall k | 0 <= k < |tokens| ::
              var moved := Moved(ids, tokens[k].origin);
              && (tokens[k].origin.Some? ==> moved.Some?)
              && back[k] == if discard then tokens[k].(leading := [], trailing := [], origin := moved)
                            else tokens[k].(origin := moved)
    ensures forall a, b | a in ids && b in ids :: ids[a] == ids[b] <==> a == b
    ensures forall k, n: nat | 0 <= k < |tokens| :: Chain(out, back[k].origin, n) == Chain(pool, tokens[k].origin, n)
  {
    hide Numbered;
    forall k | 0 <= k < |tokens|
      ensures back[k] == (if discard then tokens[k].(leading := [], trailing := [],
                                                     origin := Moved(ids, tokens[k].origin))
                          else tokens[k].(origin := Moved(ids, tokens[k].origin)))
      ensures tokens[k].origin.Some? ==> tokens[k].origin.value in ids
    {
      assert Says(t, ids, compact[k], tokens[k], discard);
      if tokens[k].origin.Some? { NumberBounds(pool, ids, t, tokens[k].origin.value); }
    }
    forall k, n: nat | 0 <= k < |tokens| ensures Chain(out, back[k].origin, n) == Chain(pool, tokens[k].origin, n) {
      if tokens[k].origin.Some? { ChainBack(pool, ids, t, out, tokens[k].origin.value, n); }
    }
    OneForOne(pool, ids, t);
  }

  lemma OneForOne(pool: seq<Origin>, ids: map<nat, nat>, t: Tables)
    requires Numbered(pool, ids, t, {})
    ensures forall a, b | a in ids && b in ids :: ids[a] == ids[b] <==> a == b
  {
  }
}
