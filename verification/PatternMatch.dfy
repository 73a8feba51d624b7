// The textual macro-pattern matcher of preprocess/pattern.go: quotes, bracket
// groups, captures that run to a delimiter, and optional blanks.
module PatternMatch {
  import opened Chars

  type Captures = map<int, Range>
  datatype Match = NoMatch | Matched(end: nat, args: Captures)

  // ----- what the scanning loops compute -----------------------------------

  // The offset just past the closing quote, or the end of the text.
  function QuoteEnd(s: string, i: nat, quote: char, control: char): (e: nat)
    requires i <= |s|
    ensures i <= e <= |s|
    decreases |s| - i
  {
    if i == |s| then |s|
    else if s[i] == control && i + 1 < |s| then QuoteEnd(s, i + 2, quote, control)
    else if s[i] == quote then i + 1
    else QuoteEnd(s, i + 1, quote, control)
  }

  function SkipQuoted(s: string, start: nat, control: char): (r: Option<nat>)
    ensures r.Some? ==> start < r.value <= |s| && (s[start] == '!' || s[start] == '"' || s[start] == '\'')
  {
    if start >= |s| then None
    else
      var q := if s[start] == '!' && start + 1 < |s| && s[start + 1] == '"' then start + 1 else start;
      if s[q] != '"' && s[q] != '\'' then None else Some(QuoteEnd(s, q + 1, s[q], control))
  }

  predicate Opener(c: char) { c == '(' || c == '[' || c == '{' }

  function CloserOf(open: char): char {
    if open == '(' then ')' else if open == '[' then ']' else '}'
  }

  // Scans with a non-empty stack of open brackets; a closing bracket that does
  // not match the innermost open one is passed over.
  function GroupEnd(s: string, i: nat, stack: string, control: char): (e: nat)
    requires i <= |s| && stack != ""
    ensures i <= e <= |s|
    decreases |s| - i
  {
    if i == |s| then |s|
    else
      var quoted := SkipQuoted(s, i, control);
      if quoted.Some? then GroupEnd(s, quoted.value, stack, control)
      else if Opener(s[i]) then GroupEnd(s, i + 1, stack + [s[i]], control)
      else if s[i] == CloserOf(stack[|stack| - 1]) then
        if |stack| == 1 then i + 1 else GroupEnd(s, i + 1, stack[..|stack| - 1], control)
      else GroupEnd(s, i + 1, stack, control)
  }

  function SkipGroup(s: string, start: nat, control: char): (r: Option<nat>)
    ensures r.Some? ==> start < r.value <= |s|
  {
    if start >= |s| || !Opener(s[start]) then None
    else Some(GroupEnd(s, start + 1, [s[start]], control))
  }

  // Where a capture stops: at its delimiter outside quotes and groups, or at the end.
  function CaptureEnd(s: string, i: nat, delimiter: char, control: char): (e: nat)
    requires i <= |s|
    ensures i <= e <= |s|
    ensures e < |s| ==> s[e] == delimiter
    decreases |s| - i
  {
    if i == |s| || s[i] == delimiter then i
    else
      var quoted := SkipQuoted(s, i, control);
      if quoted.Some? then CaptureEnd(s, quoted.value, delimiter, control)
      else
        var group := SkipGroup(s, i, control);
        if group.Some? then CaptureEnd(s, group.value, delimiter, control)
        else CaptureEnd(s, i + 1, delimiter, control)
  }

  function SkipBlanks(s: string, i: nat): (e: nat)
    requires i <= |s|
    ensures i <= e <= |s|
    ensures forall k | i <= k < e :: s[k] <= ' '
    ensures e < |s| ==> s[e] > ' '
    decreases |s| - i
  {
    if i < |s| && s[i] <= ' ' then SkipBlanks(s, i + 1) else i
  }

  function PrefixLength(p: string, i: nat): (e: nat)
    requires i <= |p|
    ensures i <= e <= |p|
    ensures forall k | i <= k < e :: PawnAlphanum(p[k])
    ensures e < |p| ==> !PawnAlphanum(p[e])
    decreases |p| - i
  {
    if i < |p| && PawnAlphanum(p[i]) then PrefixLength(p, i + 1) else i
  }

  predicate CaptureMark(p: string, pi: nat) {
    pi + 2 < |p| && p[pi] == '%' && Digit(p[pi + 1])
  }

  function Label(p: string, pi: nat): int
    requires CaptureMark(p, pi)
  {
    p[pi + 1] as int - '0' as int
  }

  // The last byte of the pattern is a semicolon that the end of the line may replace.
  predicate SoftSemicolon(p: string, pi: nat, semis: bool) {
    pi + 1 == |p| && p[pi] == ';' && !semis
  }

  // Blanks are insignificant before this pattern byte.
  predicate BlanksAllowed(p: string, pi: nat, semis: bool)
    requires pi < |p|
  {
    SoftSemicolon(p, pi, semis) || (!PawnAlphanum(p[pi]) && pi > 0 && p[pi - 1] != p[pi])
  }

  datatype Progress = Stuck | On(si: nat, pi: nat, args: Captures)

  // One round of the matching loop.
  function MatchRound(s: string, si: nat, p: string, pi: nat, semis: bool, control: char, args: Captures): (r: Progress)
    requires si <= |s| && pi < |p|
    ensures r.On? ==> si <= r.si <= |s| && pi < r.pi <= |p|
  {
    if p[pi] == '%' then
      if !CaptureMark(p, pi) then Stuck
      else
        var e := CaptureEnd(s, si, p[pi + 2], control);
        var captured := args[Label(p, pi) := Range(si, e)];
        if e < |s| then On(e + 1, pi + 3, captured)
        else if SoftSemicolon(p, pi + 2, semis) then On(e, pi + 3, captured)
        else Stuck
    else
      var j := if BlanksAllowed(p, pi, semis) then SkipBlanks(s, si) else si;
      if j < |s| && s[j] == p[pi] then On(j + 1, pi + 1, args)
      else if j == |s| && SoftSemicolon(p, pi, semis) then On(j, pi + 1, args)
      else Stuck
  }

  // The match of p[pi..] against s[si..].
  function MatchFrom(s: string, si: nat, p: string, pi: nat, semis: bool, control: char, args: Captures): (r: Match)
    requires si <= |s| && pi <= |p|
    ensures r.Matched? ==> si <= r.end <= |s|
    decreases |p| - pi
  {
    if pi == |p| then
      if pi > 0 && PawnAlphanum(p[pi - 1]) && si < |s| && PawnAlphanum(s[si]) then NoMatch
      else Matched(si, args)
    else
      match MatchRound(s, si, p, pi, semis, control, args)
      case Stuck => NoMatch
      case On(si', pi', args') => MatchFrom(s, si', p, pi', semis, control, args')
  }

  function MatchPattern(s: string, p: string, semis: bool, control: char): (r: Match)
    ensures r.Matched? ==> 0 < r.end <= |s|
  {
    var prefix := PrefixLength(p, 0);
    if prefix == 0 || |s| < prefix || s[..prefix] != p[..prefix] then NoMatch
    else MatchFrom(s, prefix, p, prefix, semis, control, map[])
  }

  // ----- the loops themselves ----------------------------------------------

  method SkipPawnQuoted(source: string, start: nat, control: char) returns (next: nat, ok: bool)
    ensures (if ok then Some(next) else None) == SkipQuoted(source, start, control)
    ensures !ok ==> next == start
  {
    if start >= |source| { return start, false; }
    var quoteIndex := start;
    if source[start] == '!' && start + 1 < |source| && source[start + 1] == '"' {
      quoteIndex := quoteIndex + 1;
    }
    var quote := source[quoteIndex];
    if quote != '"' && quote != '\'' { return start, false; }
    var index := quoteIndex + 1;
    while index < |source|
      invariant quoteIndex < index <= |source|
      invariant QuoteEnd(source, index, quote, control) == QuoteEnd(source, quoteIndex + 1, quote, control)
    {
      if source[index] == control && index + 1 < |source| {
        index := index + 2;
        continue;
      }
      if source[index] == quote { return index + 1, true; }
      index := index + 1;
    }
    return |source|, true;
  }

  method SkipPawnGroup(source: string, start: nat, control: char) returns (next: nat, ok: bool)
    ensures (if ok then Some(next) else None) == SkipGroup(source, start, control)
    ensures !ok ==> next == start
  {
    if start >= |source| || !Opener(source[start]) { return start, false; }
    var stack := [source[start]];
    var index := start + 1;
    while index < |source|
      invariant start < index <= |source| && stack != ""
      invariant GroupEnd(source, index, stack, control) == GroupEnd(source, start + 1, [source[start]], control)
      decreases |source| - index
    {
      var quotedEnd, quoted := SkipPawnQuoted(source, index, control);
      if quoted {
        index := quotedEnd;
        continue;
      }
      if Opener(source[index]) {
        stack := stack + [source[index]];
      } else if source[index] == CloserOf(stack[|stack| - 1]) {
        stack := stack[..|stack| - 1];
        if |stack| == 0 { return index + 1, true; }
      }
      index := index + 1;
    }
    return |source|, true;
  }

  method MatchPawnPattern(source: string, pattern: string, semicolons: bool, control: char) returns (r: Match)
    ensures r == MatchPattern(source, pattern, semicolons, control)
  {
    var prefix := 0;
    while prefix < |pattern| && PawnAlphanum(pattern[prefix])
      invariant prefix <= |pattern| && PrefixLength(pattern, prefix) == PrefixLength(pattern, 0)
    {
      prefix := prefix + 1;
    }
    if prefix == 0 || |source| < prefix || source[..prefix] != pattern[..prefix] { return NoMatch; }
    var si, pi := prefix, prefix;
    var args: Captures := map[];
    while pi < |pattern|
      invariant 0 < pi <= |pattern| && 0 <= si <= |source|
      invariant MatchFrom(source, si, pattern, pi, semicolons, control, args)
             == MatchFrom(source, prefix, pattern, prefix, semicolons, control, map[])
    {
      var progress := MatchNext(source, si, pattern, pi, semicolons, control, args);
      if progress.Stuck? { return NoMatch; }
      si, pi, args := progress.si, progress.pi, progress.args;
    }
    if pi > 0 && PawnAlphanum(pattern[pi - 1]) && si < |source| && PawnAlphanum(source[si]) { return NoMatch; }
    return Matched(si, args);
  }

  // The body of the matching loop.
  method MatchNext(source: string, sourceIndex: nat, pattern: string, patternIndex: nat, semicolons: bool,
                   control: char, args: Captures) returns (r: Progress)
    requires sourceIndex <= |source| && 0 < patternIndex < |pattern|
    ensures r == MatchRound(source, sourceIndex, pattern, patternIndex, semicolons, control, args)
  {
    var si, pi := sourceIndex, patternIndex;
    var current := pattern[pi];
    if current == '%' {
      if pi + 2 >= |pattern| || pattern[pi + 1] < '0' || pattern[pi + 1] > '9' { return Stuck; }
      var slot := pattern[pi + 1] as int - '0' as int;
      var delimiter := pattern[pi + 2];
      pi := pi + 3;
      var start := si;
      si := ScanCapture(source, start, delimiter, control);
      var captured := args[slot := Range(start, si)];
      if si < |source| && source[si] == delimiter { return On(si + 1, pi, captured); }
      if delimiter == ';' && pi == |pattern| && !semicolons { return On(si, pi, captured); }
      return Stuck;
    } else if current == ';' && pi + 1 == |pattern| && !semicolons {
      si := ScanBlanks(source, si);
      if si < |source| {
        if source[si] != ';' { return Stuck; }
        si := si + 1;
      }
      return On(si, pi + 1, args);
    } else {
      if !PawnAlphanum(current) && pi > 0 && pattern[pi - 1] != current {
        si := ScanBlanks(source, si);
      }
      if si >= |source| || source[si] != current { return Stuck; }
      return On(si + 1, pi + 1, args);
    }
  }

  // The inner capture loop and the inner blank loop of the matcher.
  method ScanCapture(source: string, start: nat, delimiter: char, control: char) returns (e: nat)
    requires start <= |source|
    ensures e == CaptureEnd(source, start, delimiter, control)
  {
    e := start;
    while e < |source| && source[e] != delimiter
      invariant start <= e <= |source|
      invariant CaptureEnd(source, e, delimiter, control) == CaptureEnd(source, start, delimiter, control)
      decreases |source| - e
    {
      var next, ok := SkipPawnQuoted(source, e, control);
      if ok { e := next; continue; }
      next, ok := SkipPawnGroup(source, e, control);
      if ok { e := next; continue; }
      e := e + 1;
    }
  }

  method ScanBlanks(source: string, start: nat) returns (e: nat)
    requires start <= |source|
    ensures e == SkipBlanks(source, start)
  {
    e := start;
    while e < |source| && source[e] <= ' '
      invariant start <= e <= |source| && SkipBlanks(source, e) == SkipBlanks(source, start)
    {
      e := e + 1;
    }
  }
}
