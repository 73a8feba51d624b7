// The builder's list storage as it runs: blocks are arrays, lists are windows
// into them, and every operation works in place (compact_sink.go).
module CompactBuilder {
  import opened Arena
  import opened NodeLists

  ghost function Entries<T>(ls: seq<seq<T>>): nat {
    if ls == [] then 0 else Entries(ls[..|ls| - 1]) + |ls[|ls| - 1]|
  }

  lemma {:induction false} EntriesUpdate<T>(ls: seq<seq<T>>, n: nat, xs: seq<T>)
    requires n < |ls|
    ensures Entries(ls[n := xs]) == Entries(ls) - |ls[n]| + |xs|
    decreases |ls|
  {
    var init := ls[..|ls| - 1];
    if n == |ls| - 1 {
      assert ls[n := xs][..|ls| - 1] == init;
    } else {
      assert ls[n := xs][..|ls| - 1] == init[n := xs];
      EntriesUpdate(init, n, xs);
    }
  }

  lemma AddCounted<T>(r: Rules<T>, s: Store<T>, n: nat, x: T, atOnce: bool)
    requires Valid(s) && 0 < n < |s.ids| && r.firstCap >= 2
    ensures var s' := Add(r, s, n, x, atOnce);
      Valid(s') && Lists(s') == Lists(s)[n := Lists(s)[n] + [x]] && Entries(Lists(s')) == Entries(Lists(s)) + 1
  {
    AddKeeps(r, s, n, x, atOnce);
    EntriesUpdate(Lists(s), n, Lists(s)[n] + [x]);
  }

  lemma SetCounted<T>(r: Rules<T>, s: Store<T>, n: nat, xs: seq<T>)
    requires Valid(s) && 0 < n < |s.ids|
    ensures var s' := SetAll(r, s, n, xs);
      Valid(s') && Lists(s') == Lists(s)[n := xs] && Entries(Lists(s')) == Entries(Lists(s)) + |xs| - |Lists(s)[n]|
  {
    SetKeeps(r, s, n, xs);
    EntriesUpdate(Lists(s), n, xs);
  }

  lemma OpenSpillReady<T>(r: Rules<T>, s: Store<T>, i: nat, atOnce: bool)
    requires 0 < i < |s.records| && ValidArena(s.arena) && r.firstCap >= 2 && RecordOk(s, i) && s.records[i].count >= 2
    ensures var (a, t) := OpenSpill(r, s, i, atOnce); ValidArena(a) && InUse(a, t)
  {
    StartSpillKeeps(r, s.arena, s.records[i], atOnce, NIL);
  }

  // Adding to a full record: its window grows by the entry.
  lemma WindowStep<T>(r: Rules<T>, s: Store<T>, i: nat, x: T, atOnce: bool)
    requires 0 < i < |s.records| && ValidArena(s.arena) && r.firstCap >= 2 && RecordOk(s, i) && s.records[i].count >= 2
    ensures s.records[i].count > 2 ==> s.records[i].spill < |s.spills|
    ensures var (a, t) := OpenSpill(r, s, i, atOnce);
            && ValidArena(a) && InUse(a, t)
            && AddToRecord(r, s, i, x, atOnce) == InstallWindow(s, i, Append(r, a, t, x))
  {
    hide Append, InstallWindow, StartSpill, InUse, ValidArena;
    OpenSpillReady(r, s, i, atOnce);
  }

  lemma InstallIgnoresArena<T>(s: Store<T>, w: (Arena<T>, Slice), i: nat)
    requires i < |s.records| && (s.records[i].count > 2 ==> s.records[i].spill < |s.spills|)
    ensures InstallWindow(s.(arena := w.0), i, w) == InstallWindow(s, i, w)
  {
  }

  lemma CountIsLength<T>(s: Store<T>, n: nat)
    requires Valid(s) && 0 < n < |s.ids| && s.ids[n] != 0
    ensures s.records[s.ids[n]].count == |Lists(s)[n]|
  {
    assert RecordOk(s, s.ids[n]);
  }

  class ListBuilder<T(0)> {
    const rules: Rules<T>
    const atOnce: bool
    var ids: seq<nat>
    var records: seq<Rec<T>>
    var spills: seq<Slice>
    var blocks: seq<array<T>>
    var next: nat
    var total: int  // entries in all lists together

    // Two positions never hold the same block.
    ghost predicate Distinct()
      reads this`blocks
    {
      forall b, c | 0 <= b < c < |blocks| :: blocks[b] != blocks[c]
    }

    function Cells(): (r: seq<seq<T>>)
      reads this`blocks, blocks
      ensures |r| == |blocks| && forall b | 0 <= b < |blocks| :: r[b] == blocks[b][..]
    {
      var bs := blocks;
      seq(|bs|, b requires 0 <= b < |bs| reads bs => bs[b][..])
    }

    function Memory(): Arena<T>
      reads this`blocks, this`next, blocks
    {
      Arena(Cells(), next)
    }

    function View(): (s: Store<T>)
      reads this`ids, this`records, this`spills, this`blocks, this`next, blocks
      ensures s.ids == ids
    {
      Store(ids, records, spills, Memory())
    }

    ghost predicate Ready()
      reads this, blocks
    {
      Distinct() && Valid(View()) && rules.firstCap >= 2 && total == Entries(Lists(View()))
    }

    // The lists, one plain sequence a node.
    ghost function Content(): (r: seq<seq<T>>)
      requires Ready()
      reads this, blocks
      ensures r == Lists(View()) && |r| == |ids|
    {
      Lists(View())
    }

    constructor (rules: Rules<T>, atOnce: bool)
      requires rules.firstCap >= 2
      ensures this.rules == rules && this.atOnce == atOnce && blocks == []
      ensures View() == EmptyStore(rules) && Ready() && Content() == [[]]
    {
      this.rules, this.atOnce := rules, atOnce;
      ids, records, spills := [0], [Rec(rules.zero, rules.zero, 0, 0)], [NIL];
      blocks, next, total := [], 0, 0;
    }

    // ----- the arena -----------------------------------------------------------------

    method MakeRoom(size: nat)
      requires Distinct() && ValidArena(Memory())
      modifies this`blocks, this`next
      ensures Distinct() && Memory() == WithRoom(rules, old(Memory()), size) && blocks != []
      ensures old(blocks) <= blocks && forall k | old(|blocks|) <= k < |blocks| :: fresh(blocks[k])
    {
      if |blocks| == 0 || blocks[|blocks| - 1].Length - next < size {
        var blockSize := rules.firstBlock;
        if |blocks| != 0 {
          blockSize := Min(blocks[|blocks| - 1].Length * 2, rules.maxBlock);
        }
        AddBlock(Max(size, blockSize));
      }
    }

    method AddBlock(length: nat)
      requires Distinct()
      modifies this`blocks, this`next
      ensures Distinct() && Memory() == Arena(old(Cells()) + [Zeros(rules, length)], 0)
      ensures |blocks| == old(|blocks|) + 1 && old(blocks) <= blocks && fresh(blocks[old(|blocks|)])
    {
      var zero := rules.zero;
      var block := new T[length](_ => zero);
      assert block[..] == Zeros(rules, length);
      blocks := blocks + [block];
      next := 0;
      assert Cells() == old(Cells()) + [Zeros(rules, length)];
    }

    method AllocSlice(size: nat) returns (t: Slice)
      requires Distinct() && ValidArena(Memory())
      modifies this`blocks, this`next
      ensures Distinct() && (Memory(), t) == Alloc(rules, old(Memory()), size)
      ensures old(blocks) <= blocks && forall k | old(|blocks|) <= k < |blocks| :: fresh(blocks[k])
    {
      hide WithRoom;
      MakeRoom(size);
      t := Slice(|blocks| - 1, next, size, size);
      next := next + size;
    }

    method WriteCell(b: nat, off: nat, x: T)
      requires Distinct() && b < |blocks| && off < blocks[b].Length
      modifies blocks[b]
      ensures Memory() == Write(old(Memory()), b, off, x)
    {
      blocks[b][off] := x;
      assert blocks[b][..] == old(blocks[b][..])[off := x];
      assert Cells() == old(Cells())[b := blocks[b][..]];
    }

    method FillCells(t: Slice, items: seq<T>)
      requires Distinct() && t.b < |blocks| && t.off + |items| <= blocks[t.b].Length
      modifies blocks[t.b]
      ensures Memory() == Fill(old(Memory()), t, items)
    {
      var block := blocks[t.b];
      ghost var before := block[..];
      for k := 0 to |items|
        invariant block[..] == before[..t.off] + items[..k] + before[t.off + k..]
      {
        block[t.off + k] := items[k];
      }
      assert block[..] == before[..t.off] + items + before[t.off + |items|..];
      assert Cells() == old(Cells())[t.b := block[..]];
    }

    method ReadCells(t: Slice) returns (items: seq<T>)
      requires InUse(Memory(), t)
      ensures items == Read(Memory(), t)
    {
      if t.cap == 0 { return []; }
      items := blocks[t.b][t.off..t.off + t.len];
      assert blocks[t.b][..][t.off..t.off + t.len] == items;
    }

    method GrowSlice(t: Slice) returns (t': Slice)
      requires Distinct() && ValidArena(Memory()) && InUse(Memory(), t) && rules.firstCap >= 2
      modifies this`blocks, this`next, blocks
      ensures Distinct() && (Memory(), t') == Grow(rules, old(Memory()), t)
      ensures old(blocks) <= blocks && forall k | old(|blocks|) <= k < |blocks| :: fresh(blocks[k])
    {
      hide Alloc, Fill, Read;
      if t.len < t.cap { return t; }
      var items := ReadCells(t);
      t' := AllocFilled(Max(rules.firstCap, t.cap * 2), items);
      t' := t'.(len := t.len);
    }

    method AppendCell(t: Slice, x: T) returns (t': Slice)
      requires Distinct() && ValidArena(Memory()) && InUse(Memory(), t) && rules.firstCap >= 2
      modifies this`blocks, this`next, blocks
      ensures Distinct() && (Memory(), t') == Append(rules, old(Memory()), t, x)
      ensures old(blocks) <= blocks && forall k | old(|blocks|) <= k < |blocks| :: fresh(blocks[k])
    {
      GrowKeeps(rules, Memory(), t, NIL);
      hide Grow, ValidArena, Read, Same, Apart;
      var grown := GrowSlice(t);
      WriteCell(grown.b, grown.off + grown.len, x);
      t' := grown.(len := grown.len + 1);
    }

    // ----- lists -------------------------------------------------------------------------

    method NewNode() returns (n: nat)
      requires Ready()
      modifies this`ids
      ensures Ready() && n == old(|ids|) && View() == AddNode(old(View()))
      ensures Content() == old(Content()) + [[]]
    {
      n := |ids|;
      AddNodeKeeps(View());
      ids := ids + [0];
      assert Cells() == old(Cells());
      assert (old(Lists(View())) + [[]])[..n] == old(Lists(View()));
    }

    method EnsureList(n: nat)
      requires 0 < n < |ids|
      modifies this`ids, this`records
      ensures View() == Ensure(rules, old(View()), n)
    {
      if ids[n] == 0 {
        ids := ids[n := |records|];
        records := records + [Rec(rules.zero, rules.zero, 0, 0)];
      }
    }

    method AllocFilled(size: nat, items: seq<T>) returns (t: Slice)
      requires Distinct() && ValidArena(Memory()) && |items| <= size && size > 0
      modifies this`blocks, this`next, blocks
      ensures Distinct()
      ensures var (a, t') := Alloc(rules, old(Memory()), size); t == t' && Memory() == Fill(a, t', items)
      ensures old(blocks) <= blocks && forall k | old(|blocks|) <= k < |blocks| :: fresh(blocks[k])
    {
      t := AllocSlice(size);
      assert t.b < |blocks| && t.off + |items| <= |Cells()[t.b]|;
      FillCells(t, items);
    }

    method BeginSpill(d: Rec<T>) returns (t: Slice)
      requires Distinct() && ValidArena(Memory()) && rules.firstCap >= 2
      modifies this`blocks, this`next, blocks
      ensures Distinct() && (Memory(), t) == StartSpill(rules, old(Memory()), d, atOnce)
      ensures old(blocks) <= blocks && forall k | old(|blocks|) <= k < |blocks| :: fresh(blocks[k])
    {
      hide Alloc, Fill, Append, Read;
      StartSpillKeeps(rules, Memory(), d, atOnce, NIL);
      if atOnce {
        t := AllocFilled(rules.firstCap, [d.inline0, d.inline1]);
        t := t.(len := 2);
      } else {
        AppendKeeps(rules, Memory(), NIL, d.inline0, NIL);
        t := AppendCell(NIL, d.inline0);
        t := AppendCell(t, d.inline1);
      }
    }

    // The window that a full record appends to.
    method OpenWindow(i: nat) returns (t: Slice)
      requires Distinct() && ValidArena(Memory()) && rules.firstCap >= 2
      requires 0 < i < |records| && RecordOk(View(), i) && records[i].count >= 2
      modifies this`blocks, this`next, blocks
      ensures Distinct() && (Memory(), t) == OpenSpill(rules, old(View()), i, atOnce)
      ensures old(blocks) <= blocks && forall k | old(|blocks|) <= k < |blocks| :: fresh(blocks[k])
    {
      hide StartSpill, InUse, Read;
      if records[i].count > 2 { return spills[records[i].spill]; }
      t := BeginSpill(records[i]);
    }

    method AddToList(i: nat, x: T)
      requires Distinct() && ValidArena(Memory()) && rules.firstCap >= 2 && 0 < i < |records| && RecordOk(View(), i)
      modifies this`records, this`spills, this`blocks, this`next, blocks
      ensures Distinct() && View() == AddToRecord(rules, old(View()), i, x, atOnce)
      ensures old(blocks) <= blocks && forall k | old(|blocks|) <= k < |blocks| :: fresh(blocks[k])
    {
      var d := records[i];
      if d.count < 2 {
        records := records[i := (if d.count == 0 then d.(inline0 := x) else d.(inline1 := x)).(count := d.count + 1)];
      } else {
        AddToWindow(i, x);
      }
    }

    method AddToWindow(i: nat, x: T)
      requires Distinct() && ValidArena(Memory()) && rules.firstCap >= 2 && 0 < i < |records| && RecordOk(View(), i)
      requires records[i].count >= 2
      modifies this`records, this`spills, this`blocks, this`next, blocks
      ensures Distinct() && View() == AddToRecord(rules, old(View()), i, x, atOnce)
      ensures old(blocks) <= blocks && forall k | old(|blocks|) <= k < |blocks| :: fresh(blocks[k])
    {
      hide RecordOk, Spilled, Append, OpenSpill, InUse, InstallWindow, AddToRecord, ValidArena;
      ghost var before := View();
      WindowStep(rules, before, i, x, atOnce);
      var open := OpenWindow(i);
      var grown := AppendCell(open, x);
      InstallIgnoresArena(before, (Memory(), grown), i);
      assert View() == before.(arena := Memory());
      SetWindow(i, grown);
    }

    method SetWindow(i: nat, grown: Slice)
      requires i < |records| && records[i].count >= 2 && (records[i].count > 2 ==> records[i].spill < |spills|)
      modifies this`records, this`spills
      ensures View() == InstallWindow(old(View()), i, (old(Memory()), grown))
    {
      var d := records[i];
      if d.count == 2 {
        d := d.(spill := |spills|);
        spills := spills + [grown];
      } else {
        spills := spills[d.spill := grown];
      }
      records := records[i := d.(count := d.count + 1)];
      assert Cells() == old(Cells());
    }

    method AddTo(n: nat, x: T)
      requires Distinct() && Valid(View()) && rules.firstCap >= 2 && 0 < n < |ids|
      modifies this`ids, this`records, this`spills, this`blocks, this`next, blocks
      ensures Distinct() && View() == Add(rules, old(View()), n, x, atOnce)
      ensures old(blocks) <= blocks && forall k | old(|blocks|) <= k < |blocks| :: fresh(blocks[k])
    {
      EnsureKeeps(rules, View(), n);
      EnsureList(n);
      assert RecordOk(View(), ids[n]) && ValidArena(Memory());
      hide AddToRecord, RecordOk, Ensure, Valid, ValidArena;
      AddToList(ids[n], x);
    }

    // Appends one entry to a node's list.
    method AddItem(n: nat, x: T)
      requires Ready() && 0 < n < |ids|
      modifies this, blocks
      ensures Ready() && View() == Add(rules, old(View()), n, x, atOnce)
      ensures Content() == old(Content()[n := Content()[n] + [x]])
      ensures old(blocks) <= blocks && forall k | old(|blocks|) <= k < |blocks| :: fresh(blocks[k])
    {
      AddCounted(rules, View(), n, x, atOnce);
      hide Add, Entries, Lists, Valid;
      AddTo(n, x);
      total := total + 1;
    }

    method SetList(i: nat, xs: seq<T>)
      requires Distinct() && ValidArena(Memory()) && i < |records|
      modifies this`records, this`spills, this`blocks, this`next, blocks
      ensures Distinct() && View() == SetRecord(rules, old(View()), i, xs)
      ensures old(blocks) <= blocks && forall k | old(|blocks|) <= k < |blocks| :: fresh(blocks[k])
    {
      hide Alloc, Fill;
      var d := records[i].(count := |xs|);
      if |xs| <= 2 {
        if |xs| > 0 { d := d.(inline0 := xs[0]); }
        if |xs| > 1 { d := d.(inline1 := xs[1]); }
        records := records[i := d.(spill := 0)];
        assert Cells() == old(Cells());
      } else {
        var spill := AllocFilled(|xs|, xs);
        records := records[i := d.(spill := |spills|)];
        spills := spills + [spill];
      }
    }

    method SetTo(n: nat, xs: seq<T>) returns (before: nat)
      requires Distinct() && Valid(View()) && 0 < n < |ids|
      modifies this`ids, this`records, this`spills, this`blocks, this`next, blocks
      ensures Distinct() && View() == SetAll(rules, old(View()), n, xs)
      ensures before == old(|Lists(View())[n]|)
      ensures old(blocks) <= blocks && forall k | old(|blocks|) <= k < |blocks| :: fresh(blocks[k])
    {
      EnsureKeeps(rules, View(), n);
      EnsureList(n);
      CountIsLength(View(), n);
      assert ValidArena(Memory());
      hide SetRecord, Ensure, Valid, ValidArena, Lists;
      before := records[ids[n]].count;
      SetList(ids[n], xs);
    }

    // Replaces a node's list.
    method SetItems(n: nat, xs: seq<T>)
      requires Ready() && 0 < n < |ids|
      modifies this, blocks
      ensures Ready() && View() == SetAll(rules, old(View()), n, xs)
      ensures Content() == old(Content()[n := xs])
      ensures old(blocks) <= blocks && forall k | old(|blocks|) <= k < |blocks| :: fresh(blocks[k])
    {
      hide SetAll, Entries, Lists, Valid, ValidArena, RecordOk;
      SetCounted(rules, View(), n, xs);
      var before := SetTo(n, xs);
      total := total + |xs| - before;
    }

    method Items(n: nat) returns (xs: seq<T>)
      requires Ready() && n < |ids|
      ensures xs == Content()[n]
    {
      var i := ids[n];
      assert RecordOk(View(), i);
      var d := records[i];
      if i == 0 || d.count == 0 { return []; }
      if d.count <= 2 { return [d.inline0, d.inline1][..d.count]; }
      xs := ReadCells(spills[d.spill]);
    }

    method TakeMark() returns (m: Mark)
      requires Ready()
      ensures m == MarkOf(View()) && Grown(View(), View())
    {
      GrownReflexive(View());
      m := Mark(|ids|, |records|, |spills|, |blocks|, next);
    }

    // Goes back to a mark after which only new nodes were changed.
    method RewindTo(m: Mark, marked: int, ghost s0: Store<T>)
      requires Ready() && Valid(s0) && Grown(s0, View()) && m == MarkOf(s0) && marked == Entries(Lists(s0))
      modifies this
      ensures Ready() && View() == Rewind(old(View()), m) && blocks <= old(blocks)
      ensures Content() == Lists(s0) && Grown(s0, View())
    {
      RewindKeeps(s0, View());
      ids, records, spills, total := ids[..m.ids], records[..m.records], spills[..m.spills], marked;
      if m.blocks == 0 {
        blocks, next := [], 0;
      } else {
        blocks, next := blocks[..m.blocks], m.next;
      }
      assert Cells() == Rewind(old(View()), m).arena.cells;
    }
  }
}
