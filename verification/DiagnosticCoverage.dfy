// Whether a diagnostic already meets a node (parser.go, buildDiagnosticCoverage and
// diagnosticCovers): two sorted tables searched by bisection answer as a scan would.
module DiagnosticCoverage {
  import opened Chars

  // A point meets a node it touches, a longer range a node it overlaps.
  predicate Meets(d: Range, start: nat, end: nat) {
    if d.start == d.end then start <= d.start <= end else d.start < end && start < d.end
  }

  ghost predicate AnyMeets(ds: seq<Range>, start: nat, end: nat) {
    exists d | d in ds :: Meets(d, start, end)
  }

  // A range with the furthest end of the ranges up to it.
  datatype Entry = Entry(start: nat, end: nat, maxEnd: nat)

  datatype Coverage = Coverage(points: seq<nat>, ranges: seq<Entry>)

  ghost predicate PointsSorted(s: seq<nat>) {
    forall i, j | 0 <= i < j < |s| :: s[i] <= s[j]
  }

  ghost predicate RangesSorted(s: seq<Entry>) {
    forall i, j | 0 <= i < j < |s| :: s[i].start <= s[j].start
  }

  ghost predicate Furthest(s: seq<Entry>) {
    forall i | 0 <= i < |s| :: FurthestAt(s, i)
  }

  ghost predicate FurthestAt(s: seq<Entry>, i: nat)
    requires i < |s|
  {
    && (forall k | 0 <= k <= i :: s[k].end <= s[i].maxEnd)
    && (s[i].maxEnd == 0 || exists k | 0 <= k <= i :: s[k].end == s[i].maxEnd)
  }

  ghost predicate Tabulates(c: Coverage, ds: seq<Range>) {
    && PointsSorted(c.points) && RangesSorted(c.ranges) && Furthest(c.ranges)
    && (forall d | d in ds :: if d.start == d.end then d.start in c.points
                              else exists e | e in c.ranges :: e.start == d.start && e.end == d.end)
    && (forall p | p in c.points :: Range(p, p) in ds)
    && (forall e | e in c.ranges :: Range(e.start, e.end) in ds && e.start != e.end)
  }

  // ----- building the tables -------------------------------------------------------------------

  lemma MembersAround<T>(s: seq<T>, i: nat, x: T)
    requires i <= |s|
    ensures forall q :: q in s[..i] + [x] + s[i..] <==> q in s || q == x
  {
    assert s == s[..i] + s[i..];
  }

  // The library's sorting, of which only the result matters: the same elements in order.
  method SortPoints(s: seq<nat>) returns (r: seq<nat>)
    ensures PointsSorted(r) && forall q :: q in r <==> q in s
  {
    r := [];
    for n := 0 to |s|
      invariant PointsSorted(r) && forall q :: q in r <==> q in s[..n]
    {
      assert s[..n + 1] == s[..n] + [s[n]];
      r := InsertPoint(r, s[n]);
    }
    assert s[..|s|] == s;
  }

  method InsertPoint(s: seq<nat>, p: nat) returns (r: seq<nat>)
    requires PointsSorted(s)
    ensures PointsSorted(r) && forall q :: q in r <==> q in s || q == p
  {
    var i := |s|;
    while i > 0 && s[i - 1] > p
      invariant 0 <= i <= |s| && forall k | i <= k < |s| :: p < s[k]
    {
      i := i - 1;
    }
    r := s[..i] + [p] + s[i..];
    MembersAround(s, i, p);
    InsertedPoint(s, i, p);
  }

  lemma InsertedPoint(s: seq<nat>, i: nat, p: nat)
    requires PointsSorted(s) && i <= |s| && (i > 0 ==> s[i - 1] <= p) && forall k | i <= k < |s| :: p < s[k]
    ensures PointsSorted(s[..i] + [p] + s[i..])
  {
    var r := s[..i] + [p] + s[i..];
    assert forall k | 0 <= k < |r| :: r[k] == if k < i then s[k] else if k == i then p else s[k - 1];
  }

  method SortRanges(s: seq<Entry>) returns (r: seq<Entry>)
    ensures RangesSorted(r) && forall q :: q in r <==> q in s
  {
    r := [];
    for n := 0 to |s|
      invariant RangesSorted(r) && forall q :: q in r <==> q in s[..n]
    {
      assert s[..n + 1] == s[..n] + [s[n]];
      r := InsertRange(r, s[n]);
    }
    assert s[..|s|] == s;
  }

  method InsertRange(s: seq<Entry>, e: Entry) returns (r: seq<Entry>)
    requires RangesSorted(s)
    ensures RangesSorted(r) && forall q :: q in r <==> q in s || q == e
  {
    var i := |s|;
    while i > 0 && s[i - 1].start > e.start
      invariant 0 <= i <= |s| && forall k | i <= k < |s| :: e.start < s[k].start
    {
      i := i - 1;
    }
    r := s[..i] + [e] + s[i..];
    MembersAround(s, i, e);
    InsertedRange(s, i, e);
  }

  lemma InsertedRange(s: seq<Entry>, i: nat, e: Entry)
    requires RangesSorted(s) && i <= |s| && (i > 0 ==> s[i - 1].start <= e.start)
    requires forall k | i <= k < |s| :: e.start < s[k].start
    ensures RangesSorted(s[..i] + [e] + s[i..])
  {
    var r := s[..i] + [e] + s[i..];
    assert forall k | 0 <= k < |r| :: r[k] == if k < i then s[k] else if k == i then e else s[k - 1];
  }

  method BuildDiagnosticCoverage(ds: seq<Range>) returns (c: Coverage)
    ensures Tabulates(c, ds)
  {
    var points, ranges := [], [];
    for i := 0 to |ds|
      invariant forall k | 0 <= k < i :: if ds[k].start == ds[k].end then ds[k].start in points
                                         else Entry(ds[k].start, ds[k].end, 0) in ranges
      invariant forall p | p in points :: Range(p, p) in ds
      invariant forall e | e in ranges :: Range(e.start, e.end) in ds && e.start != e.end && e.maxEnd == 0
    {
      var d := ds[i];
      if d.start == d.end { points := points + [d.start]; } else { ranges := ranges + [Entry(d.start, d.end, 0)]; }
    }
    points := SortPoints(points);
    ranges := SortRanges(ranges);
    var maxEnd, filled := 0, [];
    for i := 0 to |ranges|
      invariant |filled| == i && Furthest(filled)
      invariant maxEnd == if i == 0 then 0 else filled[i - 1].maxEnd
      invariant forall k | 0 <= k < i :: filled[k].start == ranges[k].start && filled[k].end == ranges[k].end
    {
      maxEnd := if ranges[i].end > maxEnd then ranges[i].end else maxEnd;
      ghost var before := filled;
      filled := filled + [ranges[i].(maxEnd := maxEnd)];
      FurthestMore(before, filled[i]);
    }
    c := Coverage(points, filled);
    forall d | d in ds && d.start != d.end ensures exists e | e in filled :: e.start == d.start && e.end == d.end {
      var k :| 0 <= k < |ds| && ds[k] == d;
      var j :| 0 <= j < |ranges| && ranges[j] == Entry(d.start, d.end, 0);
      assert filled[j] in filled;
    }
    forall e | e in filled ensures Range(e.start, e.end) in ds && e.start != e.end {
      var j :| 0 <= j < |filled| && filled[j] == e;
      assert ranges[j] in ranges;
    }
  }

  lemma FurthestMore(s: seq<Entry>, e: Entry)
    requires Furthest(s)
    requires var last := if s == [] then 0 else s[|s| - 1].maxEnd;
             e.maxEnd == if e.end > last then e.end else last
    ensures Furthest(s + [e])
  {
    var t := s + [e];
    forall i | 0 <= i < |t| ensures FurthestAt(t, i) {
      if i < |s| {
        assert FurthestAt(s, i);
        assert forall k | 0 <= k <= i :: t[k] == s[k];
      } else {
        assert t[i] == e;
        if s != [] {
          assert FurthestAt(s, |s| - 1);
          assert forall k | 0 <= k < |s| :: t[k] == s[k];
        }
      }
    }
  }

  // ----- asking them -----------------------------------------------------------------------------

  method FirstPointFrom(points: seq<nat>, start: nat) returns (i: nat)
    requires PointsSorted(points)
    ensures i <= |points| && (forall k | 0 <= k < i :: points[k] < start)
            && (forall k | i <= k < |points| :: start <= points[k])
  {
    var lo, hi := 0, |points|;
    while lo < hi
      invariant 0 <= lo <= hi <= |points|
      invariant forall k | 0 <= k < lo :: points[k] < start
      invariant forall k | hi <= k < |points| :: start <= points[k]
    {
      var h := (lo + hi) / 2;
      if points[h] >= start { hi := h; } else { lo := h + 1; }
    }
    i := lo;
  }

  method FirstRangeFrom(ranges: seq<Entry>, end: nat) returns (i: nat)
    requires RangesSorted(ranges)
    ensures i <= |ranges| && (forall k | 0 <= k < i :: ranges[k].start < end)
    ensures forall k | i <= k < |ranges| :: end <= ranges[k].start
  {
    var lo, hi := 0, |ranges|;
    while lo < hi
      invariant 0 <= lo <= hi <= |ranges|
      invariant forall k | 0 <= k < lo :: ranges[k].start < end
      invariant forall k | hi <= k < |ranges| :: end <= ranges[k].start
    {
      var h := (lo + hi) / 2;
      if ranges[h].start >= end { hi := h; } else { lo := h + 1; }
    }
    i := lo;
  }

  // The two searches answer as a scan over all diagnostics.
  method DiagnosticCovers(c: Coverage, start: nat, end: nat, ghost ds: seq<Range>) returns (covered: bool)
    requires Tabulates(c, ds)
    ensures covered <==> AnyMeets(ds, start, end)
  {
    var point := FirstPointFrom(c.points, start);
    PointsAnswer(c, ds, start, end, point);
    if point < |c.points| && c.points[point] <= end { return true; }
    var rangeEnd := FirstRangeFrom(c.ranges, end);
    covered := rangeEnd > 0 && c.ranges[rangeEnd - 1].maxEnd > start;
    RangesAnswer(c, ds, start, end, rangeEnd);
  }

  lemma PointsAnswer(c: Coverage, ds: seq<Range>, start: nat, end: nat, n: nat)
    requires Tabulates(c, ds) && n <= |c.points|
    requires (forall k | 0 <= k < n :: c.points[k] < start) && (forall k | n <= k < |c.points| :: start <= c.points[k])
    ensures (n < |c.points| && c.points[n] <= end) <==> exists d | d in ds :: d.start == d.end && Meets(d, start, end)
  {
    var s := c.points;
    if n < |s| && s[n] <= end {
      assert s[n] in s && Meets(Range(s[n], s[n]), start, end);
    }
    forall d | d in ds && d.start == d.end && Meets(d, start, end) ensures n < |s| && s[n] <= end {
      assert d.start in s;
      var k :| 0 <= k < |s| && s[k] == d.start;
    }
  }

  lemma RangesAnswer(c: Coverage, ds: seq<Range>, start: nat, end: nat, n: nat)
    requires Tabulates(c, ds) && n <= |c.ranges|
    requires (forall k | 0 <= k < n :: c.ranges[k].start < end)
             && (forall k | n <= k < |c.ranges| :: end <= c.ranges[k].start)
    ensures (n > 0 && c.ranges[n - 1].maxEnd > start)
       <==> exists d | d in ds :: d.start != d.end && Meets(d, start, end)
  {
    var s := c.ranges;
    if n > 0 && s[n - 1].maxEnd > start {
      assert FurthestAt(s, n - 1);
      var k :| 0 <= k <= n - 1 && s[k].end == s[n - 1].maxEnd;
      assert s[k] in s && Meets(Range(s[k].start, s[k].end), start, end);
    }
    forall d | d in ds && d.start != d.end && Meets(d, start, end) ensures n > 0 && s[n - 1].maxEnd > start {
      var e :| e in s && e.start == d.start && e.end == d.end;
      var k :| 0 <= k < |s| && s[k] == e;
      assert k < n && FurthestAt(s, n - 1);
    }
  }
}
