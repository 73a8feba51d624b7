// Child and field lists of the compact builder (compact_sink.go): two entries
// inline, the rest in an arena window. Here the builder is a value; the lists are
// proved to behave as one plain sequence a node, through any nesting of
// transactions. CompactBuilder runs the same operations on arrays.
module NodeLists {
  import opened Arena

  datatype Rec<T> = Rec(inline0: T, inline1: T, count: nat, spill: nat)

  // ids[n] is node n's record, 0 for none; record 0 and spill 0 are placeholders.
  datatype Store<T> = Store(ids: seq<nat>, records: seq<Rec<T>>, spills: seq<Slice>, arena: Arena<T>)

  datatype Mark = Mark(ids: nat, records: nat, spills: nat, blocks: nat, next: nat)

  function EmptyStore<T>(r: Rules<T>): Store<T> {
    Store([0], [Rec(r.zero, r.zero, 0, 0)], [NIL], Arena([], 0))
  }

  ghost predicate Spilled<T>(s: Store<T>, i: nat)
    requires i < |s.records|
  {
    i > 0 && s.records[i].count > 2
  }

  ghost predicate RecordOk<T>(s: Store<T>, i: nat)
    requires i < |s.records|
  {
    Spilled(s, i) ==>
      var d := s.records[i];
      0 < d.spill < |s.spills| && InUse(s.arena, s.spills[d.spill]) && s.spills[d.spill].len == d.count
  }

  ghost predicate SpillsApart<T>(s: Store<T>, i: nat, j: nat)
    requires i < |s.records| && j < |s.records| && RecordOk(s, i) && RecordOk(s, j)
  {
    i != j && Spilled(s, i) && Spilled(s, j) ==> Apart(s.spills[s.records[i].spill], s.spills[s.records[j].spill])
  }

  ghost predicate Valid<T>(s: Store<T>) {
    && s.ids != [] && s.ids[0] == 0 && s.records != [] && s.spills != [] && ValidArena(s.arena)
    && (forall n | 0 <= n < |s.ids| :: s.ids[n] < |s.records|)
    && (forall m, n | 0 <= m < n < |s.ids| && s.ids[m] != 0 :: s.ids[m] != s.ids[n])
    && (forall i | 0 <= i < |s.records| :: RecordOk(s, i))
    && (forall i, j | 0 <= i < |s.records| && 0 <= j < |s.records| :: SpillsApart(s, i, j))
  }

  ghost function RecordList<T>(s: Store<T>, i: nat): seq<T>
    requires i < |s.records| && RecordOk(s, i)
  {
    var d := s.records[i];
    if i == 0 || d.count == 0 then []
    else if d.count <= 2 then [d.inline0, d.inline1][..d.count]
    else Read(s.arena, s.spills[d.spill])
  }

  ghost function Lists<T>(s: Store<T>): (r: seq<seq<T>>)
    requires Valid(s)
    ensures |r| == |s.ids|
  {
    seq(|s.ids|, n requires 0 <= n < |s.ids| => RecordList(s, s.ids[n]))
  }

  // ----- operations ------------------------------------------------------------------

  function AddNode<T>(s: Store<T>): Store<T> { s.(ids := s.ids + [0]) }

  function Ensure<T>(r: Rules<T>, s: Store<T>, n: nat): Store<T>
    requires n < |s.ids|
  {
    if s.ids[n] == 0 then
      s.(ids := s.ids[n := |s.records|], records := s.records + [Rec(r.zero, r.zero, 0, 0)])
    else s
  }

  // A list that outgrows its record moves to the arena: children into a window
  // of four at once, fields by appending one entry after the other.
  function StartSpill<T>(r: Rules<T>, a: Arena<T>, d: Rec<T>, atOnce: bool): (Arena<T>, Slice)
    requires ValidArena(a) && r.firstCap >= 2
  {
    if atOnce then
      var (a', t) := Alloc(r, a, r.firstCap);
      (Fill(a', t, [d.inline0, d.inline1]), t.(len := 2))
    else
      AppendKeeps(r, a, NIL, d.inline0, NIL);
      var (a', t) := Append(r, a, NIL, d.inline0);
      Append(r, a', t, d.inline1)
  }

  lemma StartSpillKeeps<T>(r: Rules<T>, a: Arena<T>, d: Rec<T>, atOnce: bool, u: Slice)
    requires ValidArena(a) && r.firstCap >= 2 && InUse(a, u)
    ensures var (a', t) := StartSpill(r, a, d, atOnce);
      && ValidArena(a') && InUse(a', t) && t.len == 2 && Read(a', t) == [d.inline0, d.inline1]
      && Same(a, a', u) && Apart(t, u)
  {
    if atOnce {
      AllocIsFresh(r, a, r.firstCap, u);
      var (a', t) := Alloc(r, a, r.firstCap);
      FillKeeps(a', t, [d.inline0, d.inline1], u);
    } else {
      AppendKeeps(r, a, NIL, d.inline0, u);
      var (a', t) := Append(r, a, NIL, d.inline0);
      AppendKeeps(r, a', t, d.inline1, u);
    }
  }

  lemma StartSpillExtends<T>(r: Rules<T>, a0: Arena<T>, a: Arena<T>, d: Rec<T>, atOnce: bool)
    requires ValidArena(a0) && ValidArena(a) && Extends(a0, a) && r.firstCap >= 2
    ensures var (a', t) := StartSpill(r, a, d, atOnce); Extends(a0, a') && Beyond(a0, t)
  {
    if atOnce {
      AllocExtends(r, a0, a, r.firstCap);
      var (a', t) := Alloc(r, a, r.firstCap);
      FillExtends(a0, a', t, [d.inline0, d.inline1]);
    } else {
      AppendExtends(r, a0, a, NIL, d.inline0);
      AppendKeeps(r, a, NIL, d.inline0, NIL);
      var (a', t) := Append(r, a, NIL, d.inline0);
      AppendExtends(r, a0, a', t, d.inline1);
    }
  }

  // The window a growing record appends to.
  function OpenSpill<T>(r: Rules<T>, s: Store<T>, i: nat, atOnce: bool): (Arena<T>, Slice)
    requires i < |s.records| && ValidArena(s.arena) && r.firstCap >= 2
    requires s.records[i].count > 2 ==> s.records[i].spill < |s.spills|
  {
    if s.records[i].count > 2 then (s.arena, s.spills[s.records[i].spill])
    else StartSpill(r, s.arena, s.records[i], atOnce)
  }

  function AddToRecord<T>(r: Rules<T>, s: Store<T>, i: nat, x: T, atOnce: bool): Store<T>
    requires 0 < i < |s.records| && ValidArena(s.arena) && r.firstCap >= 2 && RecordOk(s, i)
  {
    var d := s.records[i];
    if d.count < 2 then
      var d' := (if d.count == 0 then d.(inline0 := x) else d.(inline1 := x)).(count := d.count + 1);
      s.(records := s.records[i := d'])
    else
      StartSpillKeeps(r, s.arena, d, atOnce, NIL);
      var (a, t) := OpenSpill(r, s, i, atOnce);
      InstallWindow(s, i, Append(r, a, t, x))
  }

  // Record i now appends to this window, with one entry more.
  function InstallWindow<T>(s: Store<T>, i: nat, w: (Arena<T>, Slice)): Store<T>
    requires i < |s.records| && (s.records[i].count > 2 ==> s.records[i].spill < |s.spills|)
  {
    var d := s.records[i];
    var spill := if d.count > 2 then d.spill else |s.spills|;
    var spills := if d.count > 2 then s.spills[d.spill := w.1] else s.spills + [w.1];
    s.(records := s.records[i := d.(count := d.count + 1, spill := spill)], spills := spills, arena := w.0)
  }

  function Add<T>(r: Rules<T>, s: Store<T>, n: nat, x: T, atOnce: bool): Store<T>
    requires Valid(s) && 0 < n < |s.ids| && r.firstCap >= 2
  {
    EnsureKeeps(r, s, n);
    var e := Ensure(r, s, n);
    AddToRecord(r, e, e.ids[n], x, atOnce)
  }

  function SetRecord<T>(r: Rules<T>, s: Store<T>, i: nat, xs: seq<T>): Store<T>
    requires i < |s.records|
  {
    var d := s.records[i].(count := |xs|);
    if |xs| <= 2 then
      var d0 := if |xs| > 0 then d.(inline0 := xs[0]) else d;
      var d1 := if |xs| > 1 then d0.(inline1 := xs[1]) else d0;
      s.(records := s.records[i := d1.(spill := 0)])
    else
      var (a, t) := Alloc(r, s.arena, |xs|);
      s.(records := s.records[i := d.(spill := |s.spills|)], spills := s.spills + [t], arena := Fill(a, t, xs))
  }

  function SetAll<T>(r: Rules<T>, s: Store<T>, n: nat, xs: seq<T>): Store<T>
    requires Valid(s) && 0 < n < |s.ids|
  {
    EnsureKeeps(r, s, n);
    var e := Ensure(r, s, n);
    SetRecord(r, e, e.ids[n], xs)
  }

  function MarkOf<T>(s: Store<T>): Mark {
    Mark(|s.ids|, |s.records|, |s.spills|, |s.arena.cells|, s.arena.next)
  }

  function Rewind<T>(s: Store<T>, m: Mark): Store<T>
    requires m.ids <= |s.ids| && m.records <= |s.records| && m.spills <= |s.spills| && m.blocks <= |s.arena.cells|
  {
    Store(s.ids[..m.ids], s.records[..m.records], s.spills[..m.spills], RewindArena(s.arena, m.blocks, m.next))
  }

  // ----- the lists are plain sequences --------------------------------------------------

  lemma AddNodeKeeps<T>(s: Store<T>)
    requires Valid(s)
    ensures Valid(AddNode(s)) && Lists(AddNode(s)) == Lists(s) + [[]]
  {
    var s' := AddNode(s);
    assert forall i | 0 <= i < |s.records| :: RecordOk(s, i) ==> RecordOk(s', i);
    assert forall i, j | 0 <= i < |s.records| && 0 <= j < |s.records| :: SpillsApart(s, i, j) ==> SpillsApart(s', i, j);
  }

  lemma EnsureKeeps<T>(r: Rules<T>, s: Store<T>, n: nat)
    requires Valid(s) && 0 < n < |s.ids|
    ensures var e := Ensure(r, s, n);
      Valid(e) && |e.ids| == |s.ids| && 0 < e.ids[n] < |e.records| && Lists(e) == Lists(s) && e.arena == s.arena
          && e.spills == s.spills
  {
    var e := Ensure(r, s, n);
    assert forall i | 0 <= i < |s.records| :: RecordOk(s, i) ==> RecordOk(e, i);
    assert forall i, j | 0 <= i < |s.records| && 0 <= j < |s.records| :: SpillsApart(s, i, j) ==> SpillsApart(e, i, j);
  }

  // The windows of the other records are where they were, and clear of record i's.
  ghost predicate OthersKept<T>(s: Store<T>, s': Store<T>, i: nat, j: nat)
    requires i < |s.records| && j < |s.records| == |s'.records| && RecordOk(s, j) && RecordOk(s', i)
  {
    j != i && Spilled(s, j) ==>
      var spill := s.records[j].spill;
      && spill < |s'.spills| && s'.spills[spill] == s.spills[spill] && Same(s.arena, s'.arena, s.spills[spill])
      && (Spilled(s', i) ==> Apart(s'.spills[s'.records[i].spill], s.spills[spill]))
  }

  lemma ReplaceRecord<T>(s: Store<T>, s': Store<T>, n: nat)
    requires Valid(s) && 0 < n < |s.ids| && 0 < s.ids[n]
    requires s'.ids == s.ids && s'.spills != [] && ValidArena(s'.arena)
    requires |s'.records| == |s.records| && s'.records == s.records[s.ids[n] := s'.records[s.ids[n]]]
    requires RecordOk(s', s.ids[n])
    requires forall j | 0 <= j < |s.records| :: OthersKept(s, s', s.ids[n], j)
    ensures Valid(s') && Lists(s') == Lists(s)[n := RecordList(s', s.ids[n])]
  {
    var i := s.ids[n];
    forall j | 0 <= j < |s.records| ensures RecordOk(s', j) && (j != i ==> RecordList(s', j) == RecordList(s, j)) {
      assert OthersKept(s, s', i, j) && RecordOk(s, j);
    }
    forall j, k | 0 <= j < |s.records| && 0 <= k < |s.records| ensures SpillsApart(s', j, k) {
      assert OthersKept(s, s', i, j) && OthersKept(s, s', i, k) && SpillsApart(s, j, k);
    }
  }

  lemma AddInline<T>(r: Rules<T>, s: Store<T>, n: nat, x: T, atOnce: bool)
    requires Valid(s) && 0 < n < |s.ids| && 0 < s.ids[n] && r.firstCap >= 2 && s.records[s.ids[n]].count < 2
    ensures var s' := AddToRecord(r, s, s.ids[n], x, atOnce);
      Valid(s') && Lists(s') == Lists(s)[n := Lists(s)[n] + [x]]
  {
    var i := s.ids[n];
    var s' := AddToRecord(r, s, i, x, atOnce);
    assert RecordOk(s', i);
    forall j | 0 <= j < |s.records| ensures OthersKept(s, s', i, j) {
      assert RecordOk(s, j);
    }
    assert RecordList(s', i) == RecordList(s, i) + [x];
    ReplaceRecord(s, s', n);
  }

  // The open window holds the record's list, away from every other window.
  lemma OpenSpillKeeps<T>(r: Rules<T>, s: Store<T>, i: nat, atOnce: bool, j: nat)
    requires Valid(s) && 0 < i < |s.records| && j < |s.records| && r.firstCap >= 2 && s.records[i].count >= 2
    requires RecordOk(s, i) && RecordOk(s, j)
    ensures var (a, t) := OpenSpill(r, s, i, atOnce);
      && ValidArena(a) && InUse(a, t) && t.len == s.records[i].count && Read(a, t) == RecordList(s, i)
      && (j != i && Spilled(s, j) ==>
            Same(s.arena, a, s.spills[s.records[j].spill]) && Apart(t, s.spills[s.records[j].spill]))
  {
    assert SpillsApart(s, i, j);
    var d := s.records[i];
    if d.count == 2 {
      assert [d.inline0, d.inline1][..2] == [d.inline0, d.inline1];
      StartSpillKeeps(r, s.arena, d, atOnce, if j != i && Spilled(s, j) then s.spills[s.records[j].spill] else NIL);
    }
  }

  lemma AddSpilled<T>(r: Rules<T>, s: Store<T>, n: nat, x: T, atOnce: bool)
    requires Valid(s) && 0 < n < |s.ids| && 0 < s.ids[n] && r.firstCap >= 2 && s.records[s.ids[n]].count >= 2
    ensures var s' := AddToRecord(r, s, s.ids[n], x, atOnce);
      Valid(s') && Lists(s') == Lists(s)[n := Lists(s)[n] + [x]]
  {
    var i := s.ids[n];
    assert RecordOk(s, i);
    var (a, t) := OpenSpill(r, s, i, atOnce);
    var s' := AddToRecord(r, s, i, x, atOnce);
    OpenSpillKeeps(r, s, i, atOnce, i);
    AppendKeeps(r, a, t, x, NIL);
    assert RecordOk(s', i);
    assert RecordList(s', i) == RecordList(s, i) + [x];
    forall j | 0 <= j < |s.records| ensures OthersKept(s, s', i, j) {
      assert RecordOk(s, j) && SpillsApart(s, i, j);
      OpenSpillKeeps(r, s, i, atOnce, j);
      if j != i && Spilled(s, j) {
        AppendKeeps(r, a, t, x, s.spills[s.records[j].spill]);
      }
    }
    ReplaceRecord(s, s', n);
  }

  // Adding appends to one node's list and to no other.
  lemma AddKeeps<T>(r: Rules<T>, s: Store<T>, n: nat, x: T, atOnce: bool)
    requires Valid(s) && 0 < n < |s.ids| && r.firstCap >= 2
    ensures var s' := Add(r, s, n, x, atOnce);
      Valid(s') && Lists(s') == Lists(s)[n := Lists(s)[n] + [x]]
  {
    EnsureKeeps(r, s, n);
    var e := Ensure(r, s, n);
    if e.records[e.ids[n]].count < 2 {
      AddInline(r, e, n, x, atOnce);
    } else {
      AddSpilled(r, e, n, x, atOnce);
    }
  }

  // Setting replaces one node's list and no other.
  lemma SetKeeps<T>(r: Rules<T>, s: Store<T>, n: nat, xs: seq<T>)
    requires Valid(s) && 0 < n < |s.ids|
    ensures var s' := SetAll(r, s, n, xs);
      Valid(s') && Lists(s') == Lists(s)[n := xs]
  {
    EnsureKeeps(r, s, n);
    var e := Ensure(r, s, n);
    var i := e.ids[n];
    var s' := SetRecord(r, e, i, xs);
    if |xs| > 2 {
      AllocIsFresh(r, e.arena, |xs|, NIL);
      var (a, t) := Alloc(r, e.arena, |xs|);
      FillKeeps(a, t, xs, NIL);
      assert RecordOk(s', i);
      forall j | 0 <= j < |e.records| ensures OthersKept(e, s', i, j) {
        assert RecordOk(e, j);
        if j != i && Spilled(e, j) {
          AllocIsFresh(r, e.arena, |xs|, e.spills[e.records[j].spill]);
          FillKeeps(a, t, xs, e.spills[e.records[j].spill]);
        }
      }
    } else {
      assert RecordOk(s', i);
      forall j | 0 <= j < |e.records| ensures OthersKept(e, s', i, j) {
        assert RecordOk(e, j);
      }
    }
    ReplaceRecord(e, s', n);
    assert RecordList(s', i) == xs;
  }

  // ----- transactions ---------------------------------------------------------------------

  // s still holds everything s0 did, and what it added lies beyond.
  ghost predicate Grown<T>(s0: Store<T>, s: Store<T>) {
    && s0.ids <= s.ids && s0.records <= s.records && s0.spills <= s.spills && Extends(s0.arena, s.arena)
    && (forall n | |s0.ids| <= n < |s.ids| :: s.ids[n] == 0 || s.ids[n] >= |s0.records|)
    && (forall i | |s0.records| <= i < |s.records| :: SpillBeyond(s0, s, i))
  }

  ghost predicate SpillBeyond<T>(s0: Store<T>, s: Store<T>, i: nat)
    requires i < |s.records|
  {
    s.records[i].count > 2 ==>
      |s0.spills| <= s.records[i].spill < |s.spills| && Beyond(s0.arena, s.spills[s.records[i].spill])
  }

  lemma EnsureGrown<T>(r: Rules<T>, s0: Store<T>, s: Store<T>, n: nat)
    requires Valid(s0) && Valid(s) && Grown(s0, s) && |s0.ids| <= n < |s.ids|
    ensures var e := Ensure(r, s, n); Grown(s0, e) && |s0.records| <= e.ids[n] < |e.records|
  {
    var e := Ensure(r, s, n);
    assert forall i | |s0.records| <= i < |s.records| :: SpillBeyond(s0, s, i) ==> SpillBeyond(s0, e, i);
  }

  lemma AddGrown<T>(r: Rules<T>, s0: Store<T>, s: Store<T>, n: nat, x: T, atOnce: bool)
    requires Valid(s0) && Valid(s) && Grown(s0, s) && |s0.ids| <= n < |s.ids| && r.firstCap >= 2
    ensures Grown(s0, Add(r, s, n, x, atOnce))
  {
    EnsureKeeps(r, s, n);
    EnsureGrown(r, s0, s, n);
    var e := Ensure(r, s, n);
    var i := e.ids[n];
    var d := e.records[i];
    var s' := Add(r, s, n, x, atOnce);
    assert RecordOk(e, i) && SpillBeyond(s0, e, i);
    if d.count >= 2 {
      StartSpillKeeps(r, e.arena, d, atOnce, NIL);
      StartSpillExtends(r, s0.arena, e.arena, d, atOnce);
      var (a, t) := OpenSpill(r, e, i, atOnce);
      AppendExtends(r, s0.arena, a, t, x);
    }
    GrownByRecord(s0, e, s', i);
  }

  lemma SetGrown<T>(r: Rules<T>, s0: Store<T>, s: Store<T>, n: nat, xs: seq<T>)
    requires Valid(s0) && Valid(s) && Grown(s0, s) && |s0.ids| <= n < |s.ids|
    ensures Grown(s0, SetAll(r, s, n, xs))
  {
    EnsureKeeps(r, s, n);
    EnsureGrown(r, s0, s, n);
    var e := Ensure(r, s, n);
    if |xs| > 2 {
      AllocExtends(r, s0.arena, e.arena, |xs|);
      var (a, t) := Alloc(r, e.arena, |xs|);
      FillExtends(s0.arena, a, t, xs);
    }
    GrownByRecord(s0, e, SetAll(r, s, n, xs), e.ids[n]);
  }

  // Changing one new record, and spills beyond the mark, keeps a store grown.
  lemma GrownByRecord<T>(s0: Store<T>, e: Store<T>, s': Store<T>, i: nat)
    requires Grown(s0, e) && |s0.records| <= i < |e.records| == |s'.records|
    requires s'.ids == e.ids && s'.records == e.records[i := s'.records[i]]
    requires Extends(s0.arena, s'.arena) && SpillBeyond(s0, s', i)
    requires |e.spills| <= |s'.spills|
    requires forall k | 0 <= k < |e.spills| ::
      s'.spills[k] == e.spills[k] || (k >= |s0.spills| && Beyond(s0.arena, s'.spills[k]))
    ensures Grown(s0, s')
  {
    forall j | |s0.records| <= j < |s'.records| ensures SpillBeyond(s0, s', j) {
      assert SpillBeyond(s0, e, j);
    }
  }

  // Rewinding to a mark gives back every list as it was at the mark.
  lemma RewindKeeps<T>(s0: Store<T>, s: Store<T>)
    requires Valid(s0) && Valid(s) && Grown(s0, s)
    ensures var s' := Rewind(s, MarkOf(s0));
      Valid(s') && Lists(s') == Lists(s0) && MarkOf(s') == MarkOf(s0) && Grown(s0, s')
  {
    var s' := Rewind(s, MarkOf(s0));
    RewindRestores(s0.arena, s.arena);
    forall i | 0 <= i < |s0.records| ensures RecordOk(s', i) && RecordList(s', i) == RecordList(s0, i) {
      assert RecordOk(s0, i);
      if Spilled(s0, i) {
        ExtendsSame(s0.arena, s'.arena, s0.spills[s0.records[i].spill]);
      }
    }
    forall i, j | 0 <= i < |s0.records| && 0 <= j < |s0.records| ensures SpillsApart(s', i, j) {
      assert RecordOk(s0, i) && RecordOk(s0, j) && SpillsApart(s0, i, j);
    }
  }

  lemma GrownTransitive<T>(s0: Store<T>, s1: Store<T>, s2: Store<T>)
    requires Valid(s0) && Valid(s1) && Grown(s0, s1) && Grown(s1, s2)
    ensures Grown(s0, s2)
  {
    ExtendsTransitive(s0.arena, s1.arena, s2.arena);
    forall i | |s0.records| <= i < |s2.records| ensures SpillBeyond(s0, s2, i) {
      if i < |s1.records| {
        assert SpillBeyond(s0, s1, i);
      } else {
        assert SpillBeyond(s1, s2, i);
      }
    }
  }

  // ----- whole histories ------------------------------------------------------------------

  // A history of building: an attempt is marked, carried out and rewound.
  datatype Ops<T> =
    | End
    | New(rest: Ops<T>)
    | AddTo(n: nat, x: T, rest: Ops<T>)
    | SetTo(n: nat, xs: seq<T>, rest: Ops<T>)
    | Attempt(inner: Ops<T>, rest: Ops<T>)

  // Inside an attempt only nodes created by it are changed.
  predicate Legal<T>(ops: Ops<T>, from: nat, count: nat) {
    match ops
    case End => true
    case New(rest) => Legal(rest, from, count + 1)
    case AddTo(n, _, rest) => from <= n < count && Legal(rest, from, count)
    case SetTo(n, _, rest) => from <= n < count && Legal(rest, from, count)
    case Attempt(inner, rest) => Legal(inner, count, count) && Legal(rest, from, count)
  }

  // The meaning of a history on plain sequences.
  function Meaning<T>(ls: seq<seq<T>>, ops: Ops<T>, from: nat): seq<seq<T>>
    requires Legal(ops, from, |ls|)
    decreases ops
  {
    match ops
    case End => ls
    case New(rest) => Meaning(ls + [[]], rest, from)
    case AddTo(n, x, rest) => Meaning(ls[n := ls[n] + [x]], rest, from)
    case SetTo(n, xs, rest) => Meaning(ls[n := xs], rest, from)
    case Attempt(_, rest) => Meaning(ls, rest, from)
  }

  // What the builder does for a history that began at s0. Whatever the history,
  // and however attempts nest in it, the lists are the plain ones, and everything
  // older than the history is left alone.
  ghost function Perform<T>(r: Rules<T>, s0: Store<T>, s: Store<T>, ops: Ops<T>, atOnce: bool): (s': Store<T>)
    requires Valid(s0) && Valid(s) && Grown(s0, s) && r.firstCap >= 2
    requires Legal(ops, |s0.ids|, |s.ids|)
    ensures Valid(s') && Grown(s0, s') && Lists(s') == Meaning(Lists(s), ops, |s0.ids|)
    decreases ops
  {
    match ops
    case End => s
    case New(rest) =>
      AddNodeKeeps(s);
      AddNodeGrown(s0, s);
      Perform(r, s0, AddNode(s), rest, atOnce)
    case AddTo(n, x, rest) =>
      AddKeeps(r, s, n, x, atOnce);
      AddGrown(r, s0, s, n, x, atOnce);
      Perform(r, s0, Add(r, s, n, x, atOnce), rest, atOnce)
    case SetTo(n, xs, rest) =>
      SetKeeps(r, s, n, xs);
      SetGrown(r, s0, s, n, xs);
      Perform(r, s0, SetAll(r, s, n, xs), rest, atOnce)
    case Attempt(inner, rest) =>
      GrownReflexive(s);
      var tried := Perform(r, s, s, inner, atOnce);
      RewindKeeps(s, tried);
      var s1 := Rewind(tried, MarkOf(s));
      GrownTransitive(s0, s, s1);
      Perform(r, s0, s1, rest, atOnce)
  }

  lemma AddNodeGrown<T>(s0: Store<T>, s: Store<T>)
    requires Valid(s) && Grown(s0, s)
    ensures Grown(s0, AddNode(s))
  {
    var s' := AddNode(s);
    assert forall i | |s0.records| <= i < |s.records| :: SpillBeyond(s0, s, i) ==> SpillBeyond(s0, s', i);
  }

  // An attempt leaves no trace in the lists, whatever was built in it.
  lemma AttemptLeavesNoTrace<T>(r: Rules<T>, s: Store<T>, inner: Ops<T>, atOnce: bool)
    requires Valid(s) && r.firstCap >= 2 && Legal(inner, |s.ids|, |s.ids|)
    ensures Grown(s, s) && Lists(Perform(r, s, s, Attempt(inner, End), atOnce)) == Lists(s)
  {
    GrownReflexive(s);
    var s' := Perform(r, s, s, Attempt(inner, End), atOnce);
    var ls := Lists(s);
    assert Meaning(ls, End, |s.ids|) == ls;
    assert Meaning(ls, Attempt(inner, End), |s.ids|) == ls;
    assert Lists(s') == Meaning(ls, Attempt(inner, End), |s.ids|);
  }

  lemma GrownReflexive<T>(s: Store<T>)
    requires Valid(s)
    ensures Grown(s, s)
  {
    assert forall b | 0 <= b < |s.arena.cells| :: KeepsBlock(s.arena, s.arena, b);
  }
}
