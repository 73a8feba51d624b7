// Line starts and positions looked up in them (token/line_map.go): the same lines and
// columns the scanner keeps along.
module LineMaps {
  import opened Scanning

  // The offsets at which the lines of the first n characters, and the next one, start.
  function LineStarts(src: string, n: nat): (r: seq<nat>)
    requires n <= |src|
    ensures r != [] && r[0] == 0
  {
    if n == 0 then [0]
    else if src[n - 1] == '\n' then LineStarts(src, n - 1) + [n]
    else LineStarts(src, n - 1)
  }

  method NewLineMap(src: string) returns (starts: seq<nat>)
    ensures starts == LineStarts(src, |src|)
  {
    starts := [0];
    for offset := 0 to |src|
      invariant starts == LineStarts(src, offset)
    {
      if src[offset] == '\n' { starts := starts + [offset + 1]; }
    }
  }

  ghost predicate Increasing(s: seq<nat>) {
    forall i, j | 0 <= i < j < |s| :: s[i] < s[j]
  }

  lemma {:induction false} StartsIncrease(src: string, n: nat)
    requires n <= |src|
    ensures var s := LineStarts(src, n); Increasing(s) && s[|s| - 1] <= n
  {
    if n > 0 { StartsIncrease(src, n - 1); }
  }

  // The starts up to an offset are the first so many of all starts; the others lie behind it.
  lemma {:induction false} StartsUpTo(src: string, offset: nat, n: nat)
    requires offset <= n <= |src|
    ensures var few, all := LineStarts(src, offset), LineStarts(src, n);
            few <= all && forall k | |few| <= k < |all| :: offset < all[k]
  {
    if offset < n { StartsUpTo(src, offset, n - 1); }
  }

  // The scanner's line is the number of starts so far; its column counts from the last one.
  lemma {:induction false} ScannerPosition(src: string, offset: nat)
    requires offset <= |src|
    ensures var s := LineStarts(src, offset);
            s[|s| - 1] <= offset && LineOf(src, offset) == |s| && ColOf(src, offset) == offset - s[|s| - 1] + 1
  {
    if offset > 0 { ScannerPosition(src, offset - 1); }
  }

  // The first index whose entry is above offset, by bisection.
  method FirstAbove(starts: seq<nat>, offset: nat) returns (line: nat)
    requires Increasing(starts)
    ensures line <= |starts|
    ensures forall k | 0 <= k < line :: starts[k] <= offset
    ensures forall k | line <= k < |starts| :: offset < starts[k]
  {
    var i, j := 0, |starts|;
    while i < j
      invariant 0 <= i <= j <= |starts|
      invariant forall k | 0 <= k < i :: starts[k] <= offset
      invariant forall k | j <= k < |starts| :: offset < starts[k]
    {
      var h := (i + j) / 2;
      if starts[h] > offset { j := h; } else { i := h + 1; }
    }
    line := i;
  }

  // The lines before this one start at or before the offset, the others after it.
  ghost predicate Splits(starts: seq<nat>, line: nat, offset: nat) {
    && line <= |starts|
    && (forall k | 0 <= k < line :: starts[k] <= offset) && forall k | line <= k < |starts| :: offset < starts[k]
  }

  // Looking an offset up in any table of line starts.
  method LookUp(starts: seq<nat>, offset: nat) returns (p: Position)
    requires Increasing(starts)
    ensures exists line ::
              Splits(starts, line, offset) &&
              p == if line == 0 then Position(offset, 1, offset + 1)
                   else Position(offset, line, offset - starts[line - 1] + 1)
  {
    var line := FirstAbove(starts, offset);
    assert Splits(starts, line, offset);
    if line == 0 { return Position(offset, 1, offset + 1); }
    var start := starts[line - 1];
    p := Position(offset, line, offset - start + 1);
  }

  // In the source's line map, this gives the position the scanner gives the offset.
  method FindPosition(src: string, starts: seq<nat>, offset: nat) returns (p: Position)
    requires starts == LineStarts(src, |src|) && offset <= |src|
    ensures p == PositionAt(src, offset)
  {
    StartsIncrease(src, |src|);
    StartsUpTo(src, offset, |src|);
    StartsIncrease(src, offset);
    ScannerPosition(src, offset);
    p := LookUp(starts, offset);
    ghost var few := LineStarts(src, offset);
    assert starts[|few| - 1] == few[|few| - 1];
  }
}
