// Moving offsets over an edit (rebase.go, shiftedStart and shiftedEnd; reparse.go, validEdit).
module Shifts {
  import opened Chars

  // The edit replaces one range of the old source by one of the new source, at the same
  // place, and leaves all around it as it was.
  predicate ValidEdit(previous: string, current: string, before: Range, after: Range) {
    && before.start <= before.end <= |previous| && after.start <= after.end <= |current| && before.start == after.start
    && previous[..before.start] == current[..after.start] && previous[before.end..] == current[after.end..]
  }

  predicate Edit(before: Range, after: Range) {
    before.start <= before.end && after.start <= after.end && before.start == after.start
  }

  function Min(a: nat, b: nat): nat { if a < b then a else b }

  function ShiftedStart(v: nat, before: Range, after: Range): nat
    requires Edit(before, after)
  {
    if v < before.start then v
    else if v >= before.end then v - before.end + after.end
    else after.start + Min(v - before.start, after.end - after.start)
  }

  function ShiftedEnd(v: nat, before: Range, after: Range): nat
    requires Edit(before, after)
  {
    if v <= before.start then v
    else if v >= before.end then v - before.end + after.end
    else after.start + Min(v - before.start, after.end - after.start)
  }

  // Both keep the order of offsets, and stay inside a source that grows by the edit.
  lemma ShiftsAreMonotone(a: nat, b: nat, length: nat, before: Range, after: Range)
    requires Edit(before, after) && a <= b <= length && before.end <= length
    ensures ShiftedStart(a, before, after) <= ShiftedStart(b, before, after) <= length - before.end + after.end
    ensures ShiftedEnd(a, before, after) <= ShiftedEnd(b, before, after) <= length - before.end + after.end
  {
  }

  // A range stays a range, unless it is an empty one exactly where text is inserted: its
  // start moves behind the insertion, its end stays in front of it.
  lemma RangeStaysRange(r: Range, before: Range, after: Range)
    requires Edit(before, after) && r.start <= r.end
    ensures ShiftedStart(r.start, before, after) <= ShiftedEnd(r.end, before, after) <==>
            !(r.start == r.end == before.start == before.end && after.start < after.end)
  {
  }

  // Such a range, where two characters are inserted at offset 3.
  lemma InsertionTurnsEmptyRange()
    ensures var before, after := Range(3, 3), Range(3, 5);
            ShiftedStart(3, before, after) == 5 && ShiftedEnd(3, before, after) == 3
  {
  }

  // Text outside the edit is found again at its shifted place.
  lemma OutsideTextKept(previous: string, current: string, r: Range, before: Range, after: Range)
    requires ValidEdit(previous, current, before, after) && r.start < r.end <= |previous|
    requires r.end <= before.start || before.end <= r.start
    ensures var s, e := ShiftedStart(r.start, before, after), ShiftedEnd(r.end, before, after);
            s <= e <= |current| && current[s..e] == previous[r.start..r.end]
  {
    if r.end <= before.start {
      SliceOfPrefix(previous, before.start, r.start, r.end);
      SliceOfPrefix(current, after.start, r.start, r.end);
    } else {
      var d := before.end;
      assert |previous[before.end..]| == |current[after.end..]|;
      SliceOfSuffix(previous, d, r.start, r.end);
      SliceOfSuffix(current, after.end, r.start - d + after.end, r.end - d + after.end);
    }
  }

  lemma SliceOfPrefix(s: string, n: nat, a: nat, b: nat)
    requires a <= b <= n <= |s|
    ensures s[a..b] == s[..n][a..b]
  {
  }

  lemma SliceOfSuffix(s: string, n: nat, a: nat, b: nat)
    requires n <= a <= b <= |s|
    ensures s[a..b] == s[n..][a - n..b - n]
  {
  }

  // A declaration around the edit covers the old text with the new one put in.
  lemma EditedTextCovered(previous: string, current: string, r: Range, before: Range, after: Range)
    requires ValidEdit(previous, current, before, after)
    requires r.start < r.end <= |previous| && r.start <= before.start && before.end <= r.end
    requires before.start == before.end ==> r.start < before.start < r.end
    ensures ShiftedStart(r.start, before, after) == r.start
    ensures ShiftedEnd(r.end, before, after) == r.end - before.end + after.end <= |current|
    ensures current[r.start..r.end - before.end + after.end] ==
            previous[r.start..before.start] + current[after.start..after.end] + previous[before.end..r.end]
  {
    var e := r.end - before.end + after.end;
    SuffixLengths(previous, current, before, after);
    SliceOfPrefix(previous, before.start, r.start, before.start);
    SliceOfPrefix(current, after.start, r.start, after.start);
    SliceOfSuffix(previous, before.end, before.end, r.end);
    SliceOfSuffix(current, after.end, after.end, e);
    ThreePieces(current, r.start, after.start, after.end, e);
  }

  lemma SuffixLengths(previous: string, current: string, before: Range, after: Range)
    requires ValidEdit(previous, current, before, after)
    ensures |previous| - before.end == |current| - after.end
  {
    assert |previous[before.end..]| == |current[after.end..]|;
  }

  lemma ThreePieces(s: string, a: nat, b: nat, c: nat, d: nat)
    requires a <= b <= c <= d <= |s|
    ensures s[a..d] == s[a..b] + s[b..c] + s[c..d]
  {
  }
}
