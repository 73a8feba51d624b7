// Skipping over an item that cannot be parsed (parser.go, recoverStuckItem and
// updateRecoveryLiveness): brackets are counted only where every open #if group is still in
// its first arm, and the parser always moves on.
module Recovery {
  import opened Tokens

  datatype Directive = IfDirective | ElseDirective | EndIfDirective | OtherDirective

  // A token; for a `#`, the directive behind it.
  datatype Item = Item(kind: Kind, directive: Directive)

  // ----- by definition: the groups that are open, and the depth of brackets ---------------------

  // For every open group, whether it is still in its first arm.
  function Groups(items: seq<Item>, start: nat, end: nat): seq<bool>
    requires start <= end <= |items|
    decreases end - start
  {
    if start == end then []
    else
      var before := Groups(items, start, end - 1);
      var t := items[end - 1];
      if t.kind == Hash then Updated(before, t.directive) else before
  }

  // What a directive does to them.
  function Updated(live: seq<bool>, d: Directive): seq<bool> {
    match d
    case IfDirective => live + [true]
    case ElseDirective => if live == [] then [] else live[..|live| - 1] + [false]
    case EndIfDirective => if live == [] then [] else live[..|live| - 1]
    case OtherDirective => live
  }

  // The token at `end` counts: no open group has left its first arm.
  predicate Counts(items: seq<Item>, start: nat, end: nat)
    requires start <= end < |items|
  {
    false !in Groups(items, start, end + 1)
  }

  // Brackets opened and not closed again among the tokens that count.
  function Depth(items: seq<Item>, start: nat, end: nat): nat
    requires start <= end <= |items|
    decreases end - start
  {
    if start == end then 0
    else
      var before := Depth(items, start, end - 1);
      var k := items[end - 1].kind;
      if !Counts(items, start, end - 1) then before
      else if k.Opens() then before + 1
      else if k.Closes() && before > 0 then before - 1
      else before
  }

  // Where skipping stops: at a semicolon, a closing bracket or a directive outside all
  // brackets, or at the end.
  predicate StopsAt(items: seq<Item>, start: nat, k: nat)
    requires start <= k < |items|
  {
    var kind := items[k].kind;
    kind == EOF || (Depth(items, start, k) == 0 && (kind == Semicolon || kind.Closes() || kind == Hash))
  }

  ghost predicate FirstStop(items: seq<Item>, start: nat, k: nat) {
    start <= k < |items| && StopsAt(items, start, k) && forall j | start <= j < k :: !StopsAt(items, start, j)
  }

  // ----- with a counter of groups that left their first arm ---------------------------------------

  function Dead(live: seq<bool>): nat {
    if live == [] then 0 else Dead(live[..|live| - 1]) + if live[|live| - 1] then 0 else 1
  }

  lemma {:induction false} DeadIsCount(live: seq<bool>)
    ensures Dead(live) == 0 <==> false !in live
  {
    if live != [] {
      DeadIsCount(live[..|live| - 1]);
      assert live == live[..|live| - 1] + [live[|live| - 1]];
    }
  }

  method UpdateRecoveryLiveness(live: seq<bool>, liveFalseCount: nat, d: Directive) returns (l: seq<bool>, count: nat)
    requires liveFalseCount == Dead(live)
    ensures count == Dead(l)
    ensures l == Updated(live, d)
  {
    l, count := live, liveFalseCount;
    match d
    case IfDirective =>
      l := live + [true];
      assert l[..|live|] == live;
    case ElseDirective =>
      if |live| > 0 {
        if live[|live| - 1] { count := count + 1; }
        l := live[|live| - 1 := false];
        assert l[..|live| - 1] == live[..|live| - 1];
      }
    case EndIfDirective =>
      if |live| > 0 {
        if !live[|live| - 1] { count := count - 1; }
        l := live[..|live| - 1];
      }
    case OtherDirective =>
  }

  // What one more token does to the groups and to the depth.
  lemma TokenStep(items: seq<Item>, start: nat, k: nat)
    requires start <= k < |items|
    ensures Groups(items, start, k + 1) ==
            if items[k].kind == Hash then Updated(Groups(items, start, k), items[k].directive)
            else Groups(items, start, k)
    ensures var before := Depth(items, start, k);
            Depth(items, start, k + 1) ==
            if false in Groups(items, start, k + 1) then before
            else if items[k].kind.Opens() then before + 1
            else if items[k].kind.Closes() && before > 0 then before - 1
            else before
  {
    hide Kind.Opens, Kind.Closes;
  }

  lemma OneRole(k: Kind)
    ensures k.Opens() ==> !k.Closes() && k != EOF && k != Semicolon && k != Hash
    ensures k.Closes() ==> k != EOF && k != Semicolon && k != Hash
  {
  }

  lemma StopFacts(items: seq<Item>, start: nat, k: nat)
    requires start <= k < |items| && items[k].kind != EOF
    ensures StopsAt(items, start, k) <==>
            Depth(items, start, k) == 0 &&
            (items[k].kind == Semicolon || items[k].kind.Closes() || items[k].kind == Hash)
  {
    hide Depth, Kind.Closes;
  }

  lemma NothingBefore(items: seq<Item>, start: nat)
    requires start < |items|
    ensures Groups(items, start, start) == [] && Depth(items, start, start) == 0 && Dead([]) == 0
  {
  }

  // Skips to the first stop. A semicolon is skipped as well, unless the grammar keeps it;
  // a stop right at the start is skipped in any case, so only the end of input leaves
  // the parser where it is.
  method RecoverStuckItem(items: seq<Item>, start: nat, preserveSemicolon: bool) returns (pos: nat, ghost stop: nat)
    requires items != [] && items[|items| - 1].kind == EOF && start < |items|
    ensures FirstStop(items, start, stop)
    ensures pos == if items[stop].kind == EOF then stop
                   else if items[stop].kind == Semicolon && !preserveSemicolon then stop + 1
                   else if stop == start then stop + 1
                   else stop
    ensures items[start].kind != EOF ==> start < pos < |items|
  {
    hide Kind.Opens, Kind.Closes, Groups, Updated, Depth, Counts, StopsAt, Dead;
    NothingBefore(items, start);
    pos := start;
    var depth, live, liveFalseCount := 0, [], 0;
    while items[pos].kind != EOF
      invariant start <= pos < |items|
      invariant live == Groups(items, start, pos) && liveFalseCount == Dead(live) && depth == Depth(items, start, pos)
      invariant forall j | start <= j < pos :: !StopsAt(items, start, j)
      decreases |items| - pos
    {
      var t := items[pos];
      TokenStep(items, start, pos);
      StopFacts(items, start, pos);
      OneRole(t.kind);
      if t.kind == Hash {
        live, liveFalseCount := UpdateRecoveryLiveness(live, liveFalseCount, t.directive);
      }
      DeadIsCount(live);
      var counting := liveFalseCount == 0;
      if t.kind.Opens() {
        if counting { depth := depth + 1; }
      } else if t.kind == Semicolon {
        if depth == 0 {
          stop := pos;
          if !preserveSemicolon || pos == start { pos := pos + 1; }
          return;
        }
      } else if t.kind.Closes() {
        if depth == 0 {
          stop := pos;
          if pos == start { pos := pos + 1; }
          return;
        }
        if counting { depth := depth - 1; }
      } else if t.kind == Hash {
        if depth == 0 {
          stop := pos;
          if pos == start { pos := pos + 1; }
          return;
        }
      }
      pos := pos + 1;
    }
    stop := pos;
    EndStops(items, start, pos);
  }

  lemma EndStops(items: seq<Item>, start: nat, k: nat)
    requires start <= k < |items| && items[k].kind == EOF
    ensures StopsAt(items, start, k)
  {
  }
}
