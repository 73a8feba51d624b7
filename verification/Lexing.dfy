// Building tokens with their trivia (lexer/lexer.go): every byte is kept, and the fast
// builder used for parsing agrees with the full one.
module Lexing {
  import opened Chars
  import opened Tokens
  import opened Scanning

  datatype Token = Token(kind: Kind, start: Position, end: Position, leading: seq<Raw>, trailing: seq<Raw>)

  // ----- which trivia belongs to which token --------------------------------------------------

  // Trivia behind a token, up to and including the end of its line, after what is read so far.
  function TrailingFrom(src: string, pos: nat, sofar: seq<Raw>): (r: seq<Raw>)
    requires pos <= |src|
    decreases |src| - pos
  {
    var r := RawAt(src, pos);
    if !r.kind.IsTrivia() then sofar
    else if r.kind == Newline then sofar + [r]
    else TrailingFrom(src, r.end.offset, sofar + [r])
  }

  function TrailingEnd(src: string, pos: nat): (end: nat)
    requires pos <= |src|
    ensures pos <= end <= |src|
    decreases |src| - pos
  {
    var r := RawAt(src, pos);
    if !r.kind.IsTrivia() then pos else if r.kind == Newline then r.end.offset else TrailingEnd(src, r.end.offset)
  }

  // The tokens from pos on, with trivia that already leads the next one.
  function TokensFrom(src: string, pos: nat, leading: seq<Raw>): (r: seq<Token>)
    requires pos <= |src|
    ensures r != []
    decreases |src| - pos
  {
    var r := RawAt(src, pos);
    if r.kind.IsTrivia() then TokensFrom(src, r.end.offset, leading + [r])
    else if r.kind == EOF then [Token(EOF, r.start, r.end, leading, [])]
    else
      var next := TrailingEnd(src, r.end.offset);
      [Token(r.kind, r.start, r.end, leading, TrailingFrom(src, r.end.offset, []))] + TokensFrom(src, next, [])
  }

  // ----- nothing is lost -------------------------------------------------------------------------

  function RawText(src: string, r: Raw): string {
    if r.start.offset <= r.end.offset <= |src| then src[r.start.offset..r.end.offset] else ""
  }

  function RawTexts(src: string, items: seq<Raw>): string {
    if items == [] then "" else RawTexts(src, items[..|items| - 1]) + RawText(src, items[|items| - 1])
  }

  function TokenText(src: string, t: Token): string {
    RawTexts(src, t.leading) + (RawText(src, Raw(t.kind, t.start, t.end)) + RawTexts(src, t.trailing))
  }

  function TokenTexts(src: string, tokens: seq<Token>): string {
    if tokens == [] then "" else TokenText(src, tokens[0]) + TokenTexts(src, tokens[1..])
  }

  // ----- tiling ----------------------------------------------------------------------------------

  ghost predicate AllTrivia(items: seq<Raw>) {
    forall r | r in items :: r.kind.IsTrivia()
  }

  // Where a run of raw tokens from `start` on ends.
  function EndOf(items: seq<Raw>, start: nat): nat {
    if items == [] then start else items[|items| - 1].end.offset
  }

  // The piece at `start` is not empty, and its ends have the right line and column.
  ghost predicate Piece(src: string, r: Raw, start: nat) {
    && r.start.offset == start < r.end.offset <= |src|
    && r.start == PositionAt(src, start) && r.end == PositionAt(src, r.end.offset)
  }

  // The pieces follow one another without gaps.
  ghost predicate Tiles(src: string, items: seq<Raw>, start: nat)
    decreases |items|
  {
    if items == [] then start <= |src|
    else Tiles(src, items[..|items| - 1], start) && Piece(src, items[|items| - 1], EndOf(items[..|items| - 1], start))
  }

  lemma TilesMore(src: string, items: seq<Raw>, start: nat, r: Raw)
    requires Tiles(src, items, start) && Piece(src, r, EndOf(items, start))
    ensures Tiles(src, items + [r], start) && EndOf(items + [r], start) == r.end.offset
  {
    assert (items + [r])[..|items|] == items;
  }

  lemma Glue(src: string, a: nat, b: nat, c: nat)
    requires a <= b <= c <= |src|
    ensures src[a..b] + src[b..c] == src[a..c]
  {
  }

  // What tiles a stretch of the source spells it.
  lemma {:induction false} TilesSpell(src: string, items: seq<Raw>, start: nat)
    requires Tiles(src, items, start)
    ensures start <= EndOf(items, start) <= |src| && RawTexts(src, items) == src[start..EndOf(items, start)]
    decreases |items|
  {
    if items == [] { return; }
    var before, last := items[..|items| - 1], items[|items| - 1];
    TilesSpell(src, before, start);
    Glue(src, start, EndOf(before, start), last.end.offset);
  }

  // A token with its trivia from `start` on. Only its own line's trivia trails it.
  ghost predicate TokenPiece(src: string, t: Token, start: nat) {
    && Tiles(src, t.leading, start) && EndOf(t.leading, start) == t.start.offset
    && AllTrivia(t.leading) && !t.kind.IsTrivia()
    && (t.kind == EOF <==> t.start.offset == |src|)
    && (if t.kind == EOF then t.start == t.end == PositionAt(src, |src|) && t.trailing == []
        else Piece(src, Raw(t.kind, t.start, t.end), t.start.offset))
    && Tiles(src, t.trailing, t.end.offset) && AllTrivia(t.trailing)
    && (forall k | 0 <= k < |t.trailing| - 1 :: t.trailing[k].kind != Newline)
  }

  function TokenEnd(t: Token): nat { EndOf(t.trailing, t.end.offset) }

  // Trivia between two tokens trails the first up to the end of its line, and leads the
  // second from there on.
  ghost predicate SplitByLine(t: Token, next: Token) {
    next.leading == [] || (t.trailing != [] && t.trailing[|t.trailing| - 1].kind == Newline)
  }

  // Tokens with their trivia cover the source from `start` to its end; the last is EOF.
  ghost predicate TokensTile(src: string, tokens: seq<Token>, start: nat) {
    && tokens != [] && TokenPiece(src, tokens[0], start)
    && if tokens[0].kind == EOF then |tokens| == 1
       else TokensTile(src, tokens[1..], TokenEnd(tokens[0])) && SplitByLine(tokens[0], tokens[1])
  }

  lemma TokenSpells(src: string, t: Token, start: nat)
    requires TokenPiece(src, t, start)
    ensures start <= TokenEnd(t) <= |src| && TokenText(src, t) == src[start..TokenEnd(t)]
  {
    hide Scan, PositionAt, AllTrivia, Tiles, RawTexts;
    TilesSpell(src, t.leading, start);
    TilesSpell(src, t.trailing, t.end.offset);
    var text := RawText(src, Raw(t.kind, t.start, t.end));
    assert text == src[t.start.offset..t.end.offset];
    Glue(src, t.start.offset, t.end.offset, TokenEnd(t));
    Glue(src, start, t.start.offset, TokenEnd(t));
  }

  lemma {:induction false} TokensSpell(src: string, tokens: seq<Token>, start: nat)
    requires TokensTile(src, tokens, start)
    ensures start <= |src| && TokenTexts(src, tokens) == src[start..]
    decreases |tokens|
  {
    hide TokenPiece, TokenText;
    TokenSpells(src, tokens[0], start);
    if tokens[0].kind == EOF {
      EofAtEnd(src, tokens[0], start);
      assert TokenTexts(src, tokens[1..]) == "";
    } else {
      TokensSpell(src, tokens[1..], TokenEnd(tokens[0]));
      Glue(src, start, TokenEnd(tokens[0]), |src|);
    }
  }

  lemma EofAtEnd(src: string, t: Token, start: nat)
    requires TokenPiece(src, t, start) && t.kind == EOF
    ensures TokenEnd(t) == |src|
  {
  }

  lemma RawIsPiece(src: string, pos: nat)
    requires pos < |src|
    ensures Piece(src, RawAt(src, pos), pos)
  {
  }

  ghost predicate OneLine(items: seq<Raw>) {
    forall k | 0 <= k < |items| - 1 :: items[k].kind != Newline
  }

  lemma {:induction false} TrailingTiles(src: string, pos: nat, sofar: seq<Raw>, start: nat)
    requires pos <= |src| && Tiles(src, sofar, start) && EndOf(sofar, start) == pos && AllTrivia(sofar)
    requires forall r | r in sofar :: r.kind != Newline
    ensures var items := TrailingFrom(src, pos, sofar);
            && Tiles(src, items, start) && EndOf(items, start) == TrailingEnd(src, pos)
            && AllTrivia(items) && OneLine(items)
    decreases |src| - pos
  {
    hide RawAt, Tiles;
    var r := RawAt(src, pos);
    if pos == |src| || !r.kind.IsTrivia() { return; }
    RawIsPiece(src, pos);
    TilesMore(src, sofar, start, r);
    if r.kind != Newline {
      TrailingTiles(src, r.end.offset, sofar + [r], start);
    }
  }

  lemma {:induction false} TokensFromTile(src: string, pos: nat, leading: seq<Raw>, start: nat)
    requires pos <= |src| && Tiles(src, leading, start) && EndOf(leading, start) == pos && AllTrivia(leading)
    ensures TokensTile(src, TokensFrom(src, pos, leading), start)
    decreases |src| - pos
  {
    hide *;
    TokensStep(src, pos, leading);
    var r := RawAt(src, pos);
    if r.kind.IsTrivia() {
      RawIsPiece(src, pos);
      TilesMore(src, leading, start, r);
      AllTriviaMore(leading, r);
      TokensFromTile(src, r.end.offset, leading + [r], start);
    } else if r.kind == EOF {
      EofTile(src, leading, start);
    } else {
      var next := TrailingEnd(src, r.end.offset);
      NoTiles(src, next);
      TokensFromTile(src, next, [], next);
      var t := Token(r.kind, r.start, r.end, leading, TrailingFrom(src, r.end.offset, []));
      TokenHere(src, pos, leading, start);
      TileFirst(src, t, TokensFrom(src, next, []), start);
    }
  }

  lemma AllTriviaMore(items: seq<Raw>, r: Raw)
    requires AllTrivia(items) && r.kind.IsTrivia()
    ensures AllTrivia(items + [r])
  {
  }

  lemma TokensStep(src: string, pos: nat, leading: seq<Raw>)
    requires pos <= |src|
    ensures var r := RawAt(src, pos);
            if r.kind.IsTrivia() then
              && pos < r.end.offset <= |src|
              && TokensFrom(src, pos, leading) == TokensFrom(src, r.end.offset, leading + [r])
            else if r.kind == EOF then
              var p := PositionAt(src, |src|);
              pos == |src| && r.start == p == r.end && TokensFrom(src, pos, leading) == [Token(EOF, p, p, leading, [])]
            else
              pos < r.end.offset <= |src| &&
              var next := TrailingEnd(src, r.end.offset);
              TokensFrom(src, pos, leading)
              == [Token(r.kind, r.start, r.end, leading, TrailingFrom(src, r.end.offset, []))] +
                 TokensFrom(src, next, [])
    ensures RawAt(src, pos).kind.IsTrivia() ==> pos < |src|
  {
    hide TrailingFrom, TrailingEnd, PositionAt, Scan;
  }

  // The token at pos, with the trivia read so far in front of it.
  lemma TokenHere(src: string, pos: nat, leading: seq<Raw>, start: nat)
    requires pos <= |src| && Tiles(src, leading, start) && EndOf(leading, start) == pos && AllTrivia(leading)
    requires !RawAt(src, pos).kind.IsTrivia() && RawAt(src, pos).kind != EOF && RawAt(src, pos).end.offset <= |src|
    ensures var r := RawAt(src, pos);
            var t := Token(r.kind, r.start, r.end, leading, TrailingFrom(src, r.end.offset, []));
            var next := TrailingEnd(src, r.end.offset);
            && TokenPiece(src, t, start) && TokenEnd(t) == next
            && SplitByLine(t, TokensFrom(src, next, [])[0])
  {
    hide RawAt, PositionAt, Tiles, TrailingFrom, TrailingEnd, TokensFrom, AllTrivia, EndOf;
    TokensStep(src, pos, leading);
    var r := RawAt(src, pos);
    RawIsPiece(src, pos);
    NoTiles(src, r.end.offset);
    TokensStep(src, r.end.offset, []);
    TrailingTiles(src, r.end.offset, [], r.end.offset);
    TrailingStops(src, r.end.offset, []);
    LeadingStarts(src, TrailingEnd(src, r.end.offset));
  }

  // Trailing trivia ends with its line, or in front of a token.
  lemma {:induction false} TrailingStops(src: string, pos: nat, sofar: seq<Raw>)
    requires pos <= |src|
    ensures var items := TrailingFrom(src, pos, sofar);
            (items != [] && items[|items| - 1].kind == Newline) || !RawAt(src, TrailingEnd(src, pos)).kind.IsTrivia()
    decreases |src| - pos
  {
    hide RawAt;
    var r := RawAt(src, pos);
    if r.kind.IsTrivia() && r.kind != Newline { TrailingStops(src, r.end.offset, sofar + [r]); }
  }

  lemma LeadingStarts(src: string, pos: nat)
    requires pos <= |src|
    ensures !RawAt(src, pos).kind.IsTrivia() ==> TokensFrom(src, pos, [])[0].leading == []
  {
    hide RawAt, TrailingFrom, TrailingEnd;
  }

  lemma NoTiles(src: string, start: nat)
    requires start <= |src|
    ensures Tiles(src, [], start) && EndOf([], start) == start && AllTrivia([])
  {
  }

  lemma EofTile(src: string, leading: seq<Raw>, start: nat)
    requires Tiles(src, leading, start) && EndOf(leading, start) == |src| && AllTrivia(leading)
    ensures var p := PositionAt(src, |src|); TokensTile(src, [Token(EOF, p, p, leading, [])], start)
  {
    NoTiles(src, |src|);
  }

  lemma TileFirst(src: string, t: Token, rest: seq<Token>, start: nat)
    requires TokenPiece(src, t, start) && t.kind != EOF && TokensTile(src, rest, TokenEnd(t)) && SplitByLine(t, rest[0])
    ensures TokensTile(src, [t] + rest, start)
  {
    hide TokenPiece;
    assert ([t] + rest)[1..] == rest;
  }

  // Lexing any source covers all of it, in pieces with the right positions, and so
  // loses nothing.
  lemma LexingIsLossless(src: string)
    ensures var tokens := TokensFrom(src, 0, []);
            TokensTile(src, tokens, 0) && TokenTexts(src, tokens) == src
  {
    NoTiles(src, 0);
    TokensFromTile(src, 0, [], 0);
    TokensSpell(src, TokensFrom(src, 0, []), 0);
  }

  // ----- the full builder ------------------------------------------------------------------------

  datatype Built = Built(kind: Kind, start: Position, end: Position, leadingStart: nat, trailingStart: nat,
                         trailingEnd: nat)

  // The ranges of all tokens in turn cut the trivia into consecutive pieces.
  ghost predicate Partition(built: seq<Built>, count: nat) {
    forall k | 0 <= k < |built| :: PartitionAt(built, k, count)
  }

  ghost predicate PartitionAt(built: seq<Built>, k: nat, count: nat)
    requires k < |built|
  {
    var b := built[k];
    && b.leadingStart == (if k == 0 then 0 else built[k - 1].trailingEnd)
    && b.leadingStart <= b.trailingStart <= b.trailingEnd <= count
  }

  function Attach(b: Built, trivia: seq<Raw>): Token {
    if b.leadingStart <= b.trailingStart <= b.trailingEnd <= |trivia| then
      Token(b.kind, b.start, b.end, trivia[b.leadingStart..b.trailingStart], trivia[b.trailingStart..b.trailingEnd])
    else Token(b.kind, b.start, b.end, [], [])
  }

  function AttachAll(built: seq<Built>, trivia: seq<Raw>): (r: seq<Token>)
    ensures |r| == |built|
  {
    seq(|built|, k requires 0 <= k < |built| => Attach(built[k], trivia))
  }

  // The trivia a builder method reads behind a token; the token after it if that was read too.
  method ReadTrailing(s: Scanner, trivia: seq<Raw>) returns (all: seq<Raw>, pending: Raw, hasPending: bool)
    requires s.Valid()
    modifies s
    ensures s.Valid() && all == TrailingFrom(s.src, old(s.pos), trivia)
    ensures var next := TrailingEnd(s.src, old(s.pos));
            if hasPending then pending == RawAt(s.src, next) && s.pos == pending.end.offset && !pending.kind.IsTrivia()
            else s.pos == next
  {
    all := trivia;
    while true
      invariant s.Valid() && old(s.pos) <= s.pos
      invariant TrailingFrom(s.src, s.pos, all) == TrailingFrom(s.src, old(s.pos), trivia)
      invariant TrailingEnd(s.src, s.pos) == TrailingEnd(s.src, old(s.pos))
      decreases |s.src| - s.pos
    {
      pending := s.NextRaw();
      if !pending.kind.IsTrivia() { return all, pending, true; }
      all := all + [pending];
      if pending.kind == Newline { return all, pending, false; }
    }
  }

  lemma {:induction false} TrailingAppends(src: string, pos: nat, sofar: seq<Raw>, more: seq<Raw>)
    requires pos <= |src|
    ensures TrailingFrom(src, pos, sofar + more) == sofar + TrailingFrom(src, pos, more)
    decreases |src| - pos
  {
    hide RawAt;
    var r := RawAt(src, pos);
    assert (sofar + more) + [r] == sofar + (more + [r]);
    if r.kind.IsTrivia() && r.kind != Newline {
      TrailingAppends(src, r.end.offset, sofar, more + [r]);
    }
  }

  lemma AttachStays(built: seq<Built>, trivia: seq<Raw>, more: seq<Raw>)
    requires Partition(built, |trivia|)
    ensures AttachAll(built, trivia + more) == AttachAll(built, trivia)
  {
    forall k | 0 <= k < |built| ensures Attach(built[k], trivia + more) == Attach(built[k], trivia) {
      var b := built[k];
      assert PartitionAt(built, k, |trivia|);
      assert (trivia + more)[b.leadingStart..b.trailingStart] == trivia[b.leadingStart..b.trailingStart];
      assert (trivia + more)[b.trailingStart..b.trailingEnd] == trivia[b.trailingStart..b.trailingEnd];
    }
  }

  function LastEnd(built: seq<Built>): nat {
    if built == [] then 0 else built[|built| - 1].trailingEnd
  }

  lemma PartitionGrows(built: seq<Built>, b: Built, count: nat)
    requires Partition(built, LastEnd(built)) && b.leadingStart == LastEnd(built)
    requires b.leadingStart <= b.trailingStart <= b.trailingEnd <= count
    ensures Partition(built + [b], count)
  {
    forall k | 0 <= k < |built + [b]| ensures PartitionAt(built + [b], k, count) {
      if k < |built| { assert PartitionAt(built, k, LastEnd(built)); }
    }
  }

  // The builder's records stand for the tokens in front of those from `from` on.
  ghost predicate Progress(src: string, from: nat, built: seq<Built>, trivia: seq<Raw>) {
    && from <= |src| && Partition(built, LastEnd(built)) && LastEnd(built) <= |trivia|
    && AttachAll(built, trivia) + TokensFrom(src, from, trivia[LastEnd(built)..]) == TokensFrom(src, 0, [])
  }

  lemma PartitionWidens(built: seq<Built>, few: nat, many: nat)
    requires Partition(built, few) && few <= many
    ensures Partition(built, many)
  {
    forall k | 0 <= k < |built| ensures PartitionAt(built, k, many) {
      assert PartitionAt(built, k, few);
    }
  }

  lemma LeadingStep(src: string, from: nat, built: seq<Built>, trivia: seq<Raw>)
    requires Progress(src, from, built, trivia) && RawAt(src, from).kind.IsTrivia()
    ensures Progress(src, RawAt(src, from).end.offset, built, trivia + [RawAt(src, from)])
  {
    hide RawAt, Attach, AttachAll;
    var r := RawAt(src, from);
    PartitionWidens(built, LastEnd(built), |trivia|);
    AttachStays(built, trivia, [r]);
    assert (trivia + [r])[LastEnd(built)..] == trivia[LastEnd(built)..] + [r];
  }

  function BuiltFor(r: Raw, leadingStart: nat, trailingStart: nat, trailingEnd: nat): Built {
    Built(r.kind, r.start, r.end, leadingStart, trailingStart, trailingEnd)
  }

  lemma TokenStep(src: string, from: nat, built: seq<Built>, trivia: seq<Raw>)
    requires Progress(src, from, built, trivia) && from < |src| && !RawAt(src, from).kind.IsTrivia()
    ensures var r := RawAt(src, from);
            var all := TrailingFrom(src, r.end.offset, trivia);
            && |trivia| <= |all|
            && Progress(src, TrailingEnd(src, r.end.offset),
                        built + [BuiltFor(r, LastEnd(built), |trivia|, |all|)], all)
  {
    hide RawAt, TrailingFrom, TrailingEnd;
    var r := RawAt(src, from);
    var more := TrailingFrom(src, r.end.offset, []);
    var next := TrailingEnd(src, r.end.offset);
    var all := TrailingFrom(src, r.end.offset, trivia);
    TrailingAppends(src, r.end.offset, trivia, []);
    assert trivia + [] == trivia && all == trivia + more;
    var b := BuiltFor(r, LastEnd(built), |trivia|, |all|);
    PartitionWidens(built, LastEnd(built), |trivia|);
    AttachStays(built, trivia, more);
    PartitionGrows(built, b, |all|);
    var leading := trivia[LastEnd(built)..];
    assert Attach(b, all) == Token(r.kind, r.start, r.end, leading, more) by {
      assert all[LastEnd(built)..|trivia|] == leading && all[|trivia|..|all|] == more;
    }
    AttachMore(built, b, all);
    assert all[|all|..] == [];
    Reassociate(AttachAll(built, trivia), [Attach(b, all)], TokensFrom(src, next, []));
  }

  lemma LastStep(src: string, built: seq<Built>, trivia: seq<Raw>)
    requires Progress(src, |src|, built, trivia)
    ensures var r := RawAt(src, |src|);
            var all := built + [BuiltFor(r, LastEnd(built), |trivia|, |trivia|)];
            && Partition(all, |trivia|) && LastEnd(all) == |trivia| && AttachAll(all, trivia) == TokensFrom(src, 0, [])
  {
    hide RawAt, TokensFrom, AttachAll, Attach;
    var r := RawAt(src, |src|);
    var b := BuiltFor(r, LastEnd(built), |trivia|, |trivia|);
    PartitionGrows(built, b, |trivia|);
    LastToken(src, b, trivia);
    AttachMore(built, b, trivia);
  }

  lemma LastToken(src: string, b: Built, trivia: seq<Raw>)
    requires b.leadingStart <= |trivia| && b == BuiltFor(RawAt(src, |src|), b.leadingStart, |trivia|, |trivia|)
    ensures TokensFrom(src, |src|, trivia[b.leadingStart..]) == [Attach(b, trivia)]
  {
    hide Scan;
    assert trivia[|trivia|..|trivia|] == [];
    assert trivia[b.leadingStart..|trivia|] == trivia[b.leadingStart..];
  }

  lemma AttachMore(built: seq<Built>, b: Built, trivia: seq<Raw>)
    ensures AttachAll(built + [b], trivia) == AttachAll(built, trivia) + [Attach(b, trivia)]
  {
    hide Attach;
  }

  // The records and the trivia: together the tokens, with the trivia cut into consecutive
  // ranges that use all of it.
  method BuildTokens(src: string) returns (built: seq<Built>, trivia: seq<Raw>)
    ensures AttachAll(built, trivia) == TokensFrom(src, 0, [])
    ensures Partition(built, |trivia|) && LastEnd(built) == |trivia|
  {
    hide TokensFrom, RawAt, AttachAll, TrailingFrom, TrailingEnd;
    var s := new Scanner(src);
    built, trivia := [], [];
    var pending := Raw(Invalid, Position(0, 0, 0), Position(0, 0, 0));
    var leadingStart := 0;
    var hasPending := false;
    ghost var from := 0;
    assert Progress(src, 0, [], []) by { StartProgress(src); }
    while true
      invariant s.src == src && s.Valid() && Progress(src, from, built, trivia) && leadingStart == LastEnd(built)
      invariant if hasPending then pending == RawAt(src, from) && s.pos == pending.end.offset else s.pos == from
      decreases |src| - from
    {
      var r;
      if hasPending {
        r, hasPending := pending, false;
      } else {
        r := s.NextRaw();
      }
      if r.kind.IsTrivia() {
        LeadingStep(src, from, built, trivia);
        trivia := trivia + [r];
        from := r.end.offset;
      } else if r.kind == EOF {
        LastStep(src, built, trivia);
        built := built + [BuiltFor(r, leadingStart, |trivia|, |trivia|)];
        return;
      } else {
        TokenStep(src, from, built, trivia);
        var trailingStart := |trivia|;
        trivia, pending, hasPending := ReadTrailing(s, trivia);
        built := built + [BuiltFor(r, leadingStart, trailingStart, |trivia|)];
        leadingStart := |trivia|;
        from := TrailingEnd(src, r.end.offset);
      }
    }
  }

  lemma StartProgress(src: string)
    ensures Progress(src, 0, [], [])
  {
  }

  method Tokenize(src: string) returns (tokens: seq<Token>)
    ensures tokens == TokensFrom(src, 0, []) && TokenTexts(src, tokens) == src
  {
    var built, trivia := BuildTokens(src);
    tokens := [];
    for i := 0 to |built|
      invariant tokens == AttachAll(built, trivia)[..i]
    {
      tokens := tokens + [Attach(built[i], trivia)];
    }
    LexingIsLossless(src);
  }

  // ----- the fast builder -----------------------------------------------------------------------

  datatype Flags = Flags(present: bool, endsLine: bool)

  datatype SyntaxToken = SyntaxToken(kind: Kind, start: nat, end: nat, leading: Flags, trailing: Flags)

  function TriviaFlags(kind: Kind): Flags {
    Flags(true, kind == Newline)
  }

  function Or(a: Flags, b: Flags): Flags {
    Flags(a.present || b.present, a.endsLine || b.endsLine)
  }

  // What is to be known of a token's trivia: that there is some, and that it ends a line.
  ghost function FlagsOf(items: seq<Raw>): Flags {
    Flags(items != [], exists r | r in items :: r.kind == Newline)
  }

  ghost function Syntax(t: Token): SyntaxToken {
    SyntaxToken(t.kind, t.start.offset, t.end.offset, FlagsOf(t.leading), FlagsOf(t.trailing))
  }

  ghost function SyntaxAll(tokens: seq<Token>): (r: seq<SyntaxToken>)
    ensures |r| == |tokens|
  {
    seq(|tokens|, k requires 0 <= k < |tokens| => Syntax(tokens[k]))
  }

  lemma FlagsMore(items: seq<Raw>, r: Raw)
    ensures FlagsOf(items + [r]) == Or(FlagsOf(items), TriviaFlags(r.kind))
  {
    assert forall x :: x in items + [r] <==> x in items || x == r;
  }

  lemma SyntaxFirst(t: Token, rest: seq<Token>)
    ensures SyntaxAll([t] + rest) == [Syntax(t)] + SyntaxAll(rest)
  {
    hide Syntax;
  }

  method ReadTrailingFlags(s: Scanner) returns (flags: Flags, pending: Raw, hasPending: bool)
    requires s.Valid()
    modifies s
    ensures s.Valid() && flags == FlagsOf(TrailingFrom(s.src, old(s.pos), []))
    ensures var next := TrailingEnd(s.src, old(s.pos));
            if hasPending then pending == RawAt(s.src, next) && s.pos == pending.end.offset && !pending.kind.IsTrivia()
            else s.pos == next
  {
    flags := Flags(false, false);
    ghost var all := [];
    while true
      invariant s.Valid() && old(s.pos) <= s.pos && flags == FlagsOf(all)
      invariant TrailingFrom(s.src, s.pos, all) == TrailingFrom(s.src, old(s.pos), [])
      invariant TrailingEnd(s.src, s.pos) == TrailingEnd(s.src, old(s.pos))
      decreases |s.src| - s.pos
    {
      pending := s.NextRaw();
      if !pending.kind.IsTrivia() { return flags, pending, true; }
      FlagsMore(all, pending);
      flags, all := Or(flags, TriviaFlags(pending.kind)), all + [pending];
      if pending.kind == Newline { return flags, pending, false; }
    }
  }

  // The fast builder agrees with the full one: the same kinds and spans, and flags that
  // are those of the trivia attached there.
  method BuildSyntaxTokens(src: string) returns (tokens: seq<SyntaxToken>)
    ensures tokens == SyntaxAll(TokensFrom(src, 0, []))
  {
    hide RawAt, SyntaxAll, TokensFrom, TrailingFrom, TrailingEnd, FlagsOf;
    var s := new Scanner(src);
    tokens := [];
    var pending := Raw(Invalid, Position(0, 0, 0), Position(0, 0, 0));
    var hasPending := false;
    var leadingFlags := Flags(false, false);
    ghost var from, leading := 0, [];
    NoFlags();
    while true
      invariant s.src == src && s.Valid() && from <= |src| && leadingFlags == FlagsOf(leading)
      invariant if hasPending then pending == RawAt(src, from) && s.pos == pending.end.offset else s.pos == from
      invariant tokens + SyntaxAll(TokensFrom(src, from, leading)) == SyntaxAll(TokensFrom(src, 0, []))
      decreases |src| - from
    {
      var r;
      if hasPending {
        r, hasPending := pending, false;
      } else {
        r := s.NextRaw();
      }
      TokensStep(src, from, leading);
      if r.kind.IsTrivia() {
        FlagsMore(leading, r);
        leadingFlags, leading := Or(leadingFlags, TriviaFlags(r.kind)), leading + [r];
        from := r.end.offset;
      } else {
        ghost var t := Token(r.kind, r.start, r.end, leading,
                             if r.kind == EOF then [] else TrailingFrom(src, r.end.offset, []));
        var built := SyntaxToken(r.kind, r.start.offset, r.end.offset, leadingFlags, Flags(false, false));
        NoFlags();
        if r.kind == EOF {
          SyntaxFirst(t, []);
          assert [t] + [] == [t];
          SyntaxNone();
          return tokens + [built];
        }
        var trailing;
        trailing, pending, hasPending := ReadTrailingFlags(s);
        built := built.(trailing := trailing);
        from := TrailingEnd(src, r.end.offset);
        SyntaxFirst(t, TokensFrom(src, from, []));
        Reassociate(tokens, [built], SyntaxAll(TokensFrom(src, from, [])));
        tokens := tokens + [built];
        leadingFlags, leading := Flags(false, false), [];
      }
    }
  }

  lemma NoFlags()
    ensures FlagsOf([]) == Flags(false, false)
  {
  }

  lemma SyntaxNone()
    ensures SyntaxAll([]) == []
  {
  }
}
