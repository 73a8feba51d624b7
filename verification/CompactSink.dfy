// The compact builder as it runs (compact_sink.go): records, side tables, and the two list
// storages in their arrays. A history of building, with attempts given up anywhere in it,
// followed by the finished tree, gives the reachable part of the table the history means.
module CompactSink {
  import opened Chars
  import opened Reachability
  import opened SinkHistory
  import opened SinkState
  import opened CompactBuilder
  import opened CompactTree
  import opened ErrorTables
  import Side = SideTables
  import Lists = NodeLists

  // What a tree's node says beside its lists.
  function Records(heads: seq<Head>): (r: seq<Record<Head>>)
    ensures |r| == |heads| && forall n | 0 <= n < |r| :: r[n] == Record(heads[n], 0, 0, 0, 0)
  {
    seq(|heads|, n requires 0 <= n < |heads| => Record(heads[n], 0, 0, 0, 0))
  }

  // A mark with the counts of child and field entries.
  datatype SinkMark = SinkMark(at: StateMark, childTotal: int, fieldTotal: int)

  ghost function MarkAt(s: State): SinkMark
    requires Valid(s)
  {
    SinkMark(MarkOf(s), Entries(Lists.Lists(s.children)), Entries(Lists.Lists(s.fields)))
  }

  class Sink {
    const retain: bool
    const children: ListBuilder<nat>
    const fields: ListBuilder<Field>
    var heads: seq<Head>
    var trivia: Side.Side<Trivia>
    var mishaps: Side.Side<Mishap>

    function View(): (s: State)
      reads this, children, children.blocks, fields, fields.blocks
      ensures s.heads == heads
    {
      State(heads, trivia, mishaps, children.View(), fields.View())
    }

    // The two storages share no object.
    ghost predicate Apart()
      reads this, children, fields
    {
      && (children as object) != fields
      && forall b, c | 0 <= b < |children.blocks| && 0 <= c < |fields.blocks| ::
           (children.blocks[b] as object) != fields.blocks[c]
    }

    ghost predicate Ready()
      reads this, children, children.blocks, fields, fields.blocks
    {
      && Apart() && children.Ready() && fields.Ready() && Valid(View())
      && children.rules == CHILD_RULES && children.atOnce && fields.rules == FIELD_RULES && !fields.atOnce
    }

    lemma ReadyIsValid()
      requires Ready()
      ensures Valid(View())
    {
    }

    // The blocks of both storages.
    ghost function Blocks(): (seq<array<nat>>, seq<array<Field>>)
      reads this, children, fields
    {
      (children.blocks, fields.blocks)
    }

    // Blocks are only ever replaced by new ones.
    twostate predicate BlocksGrow()
      reads this, children, fields
    {
      && (forall b | 0 <= b < |children.blocks| ::
            children.blocks[b] in old(children.blocks) || fresh(children.blocks[b]))
      && (forall b | 0 <= b < |fields.blocks| :: fields.blocks[b] in old(fields.blocks) || fresh(fields.blocks[b]))
    }

    constructor (retain: bool)
      ensures Ready() && View() == START && this.retain == retain && fresh(children) && fresh(fields)
      ensures children.blocks == [] && fields.blocks == []
    {
      this.retain := retain;
      children := new ListBuilder<nat>(CHILD_RULES, true);
      fields := new ListBuilder<Field>(FIELD_RULES, false);
      heads := [NO_HEAD];
      trivia := Side.EmptySide(NO_TRIVIA);
      mishaps := Side.EmptySide(NO_MISHAP);
    }

    // ----- steps ------------------------------------------------------------------------------

    // Adds a node; data that few nodes have go into a side table.
    method Store(head: Head, newTrivia: Trivia, mishap: Mishap) returns (n: nat)
      requires Ready()
      modifies this, children, fields
      ensures Ready() && Blocks() == old(Blocks()) && n == old(|heads|)
      ensures View() == WithNode(retain, head, newTrivia, mishap, old(View()))
    {
      hide ListBuilder.Ready, ListBuilder.View, Lists.Valid, Side.ValidSide, Valid, Lists.Lists, Side.Entries, Rows,
          Apply;
      WithNodeKeeps(retain, head, newTrivia, mishap, View());
      PlaceOf(View(), 0);
      n := |heads|;
      heads := heads + [head];
      trivia := AddEntry(trivia, NewTrivia(retain, newTrivia));
      mishaps := AddEntry(mishaps, NewMishap(mishap));
      var child := children.NewNode();
      var field := fields.NewNode();
    }

    method SetEnd(n: nat, last: nat)
      requires Ready() && 0 < n < |heads| && last < |heads|
      modifies this
      ensures Ready() && Blocks() == old(Blocks()) && View() == WithEnd(retain, old(View()), n, last)
    {
      hide ListBuilder.Ready, ListBuilder.View, Lists.Valid, Side.ValidSide, Valid, Lists.Lists, Side.Entries, Rows,
          Apply;
      PlaceOf(View(), n);
      PlaceOf(View(), last);
      WithEndKeeps(retain, View(), n, last);
      var trailing := TriviaAt(View(), last).trailing;
      heads := heads[n := heads[n].(end := heads[last].end)];
      if retain {
        trivia := Side.Put(trivia, n, TriviaAt(View(), n).(trailing := trailing));
      }
    }

    method SetBlame(n: nat, child: nat)
      requires Ready() && 0 < n < |heads| && child < |heads|
      modifies this
      ensures Ready() && Blocks() == old(Blocks()) && View() == WithBlame(old(View()), n, child)
    {
      hide ListBuilder.Ready, ListBuilder.View, Lists.Valid, Side.ValidSide, Valid, Lists.Lists, Side.Entries, Rows,
          Apply;
      PlaceOf(View(), n);
      WithBlameKeeps(View(), n, child);
      if heads[child].hasError { heads := heads[n := heads[n].(hasError := true)]; }
    }

    method AddChild(n: nat, child: nat)
      requires Ready() && 0 < n < |heads| && child < |heads|
      modifies this, children, children.blocks
      ensures Ready() && BlocksGrow()
      ensures View() == Stepped(retain, old(View()), SinkHistory.AddChild(n, child))
    {
      hide ListBuilder.Ready, ListBuilder.View, Lists.Valid, Side.ValidSide, Valid, Lists.Lists, Side.Entries, Rows,
          Apply;
      if child == 0 { return; }
      PlaceOf(View(), n);
      WithChildKeeps(View(), n, child);
      children.AddItem(n, child);
      SetEnd(n, child);
      SetBlame(n, child);
    }

    method SetChildren(n: nat, ids: seq<nat>)
      requires Ready() && StepLegal(SinkHistory.SetChildren(n, ids), 1, |heads|)
      modifies this, children, children.blocks
      ensures Ready() && BlocksGrow()
      ensures View() == Stepped(retain, old(View()), SinkHistory.SetChildren(n, ids))
    {
      hide ListBuilder.Ready, ListBuilder.View, Lists.Valid, Side.ValidSide, Valid, Lists.Lists, Side.Entries, Rows,
          Apply;
      PlaceOf(View(), n);
      WithChildrenKeeps(View(), n, ids);
      children.SetItems(n, ids);
      if ids != [] { SetEnd(n, ids[|ids| - 1]); }
    }

    method SetField(n: nat, id: nat, child: nat)
      requires Ready() && 0 < n < |heads|
      modifies this, fields, fields.blocks
      ensures Ready() && BlocksGrow()
      ensures View() == Stepped(retain, old(View()), SinkHistory.SetField(n, id, child))
    {
      hide ListBuilder.Ready, ListBuilder.View, Lists.Valid, Side.ValidSide, Valid, Lists.Lists, Side.Entries, Rows,
          Apply;
      if child == 0 { return; }
      PlaceOf(View(), n);
      WithFieldKeeps(View(), n, Field(id, child));
      fields.AddItem(n, Field(id, child));
    }

    method SetHead(n: nat, head: Head)
      requires Ready() && 0 < n < |heads|
      modifies this
      ensures Ready() && Blocks() == old(Blocks())
      ensures View() == Stepped(retain, old(View()), SinkHistory.SetHead(n, head))
    {
      hide ListBuilder.Ready, ListBuilder.View, Lists.Valid, Side.ValidSide, Valid, Lists.Lists, Side.Entries, Rows,
          Apply;
      HeadKeeps(View(), n, head);
      heads := heads[n := head];
    }

    method SetTrivia(n: nat, newTrivia: Trivia)
      requires Ready() && 0 < n < |heads|
      modifies this
      ensures Ready() && Blocks() == old(Blocks())
      ensures View() == Stepped(retain, old(View()), SinkHistory.SetTrivia(n, newTrivia))
    {
      hide ListBuilder.Ready, ListBuilder.View, Lists.Valid, Side.ValidSide, Valid, Lists.Lists, Side.Entries, Rows,
          Apply;
      if !retain { return; }
      PlaceOf(View(), n);
      TriviaKeeps(View(), n, newTrivia);
      trivia := Side.Put(trivia, n, newTrivia);
    }

    method SetMishap(n: nat, mishap: Mishap)
      requires Ready() && 0 < n < |heads|
      modifies this
      ensures Ready() && Blocks() == old(Blocks())
      ensures View() == Stepped(retain, old(View()), SinkHistory.SetMishap(n, mishap))
    {
      hide ListBuilder.Ready, ListBuilder.View, Lists.Valid, Side.ValidSide, Valid, Lists.Lists, Side.Entries, Rows,
          Apply;
      PlaceOf(View(), n);
      MishapKeeps(View(), n, mishap);
      mishaps := Side.Put(mishaps, n, mishap);
    }

    method Do(step: Step)
      requires Ready() && StepLegal(step, 1, |heads|)
      modifies this, children, fields, children.blocks, fields.blocks
      ensures Ready() && BlocksGrow() && View() == Stepped(retain, old(View()), step)
    {
      hide Ready, View, Valid, WithNode, WithEnd, WithBlame, WithChild, WithChildren, WithField;
      match step
      case Store(head, newTrivia, mishap) => var n := Store(head, newTrivia, mishap);
      case AddChild(n, child) => AddChild(n, child);
      case SetChildren(n, ids) => SetChildren(n, ids);
      case SetField(n, id, child) => SetField(n, id, child);
      case SetHead(n, head) => SetHead(n, head);
      case SetTrivia(n, newTrivia) => SetTrivia(n, newTrivia);
      case SetMishap(n, mishap) => SetMishap(n, mishap);
    }

    // A node around children, of which those that are 0 are left out.
    method NewNode(kind: nat, ids: seq<nat>) returns (n: nat)
      requires Ready() && Exist(ids, |heads|)
      modifies this, children, fields, children.blocks, fields.blocks
      ensures Ready() && BlocksGrow() && n == old(|heads|)
      ensures Rows(View()) == Joined(retain, old(Rows(View())), kind, NonZero(ids))
    {
      hide Ready, View, Valid, Rows, WithNode, Stepped, Apply, Around;
      ReadyIsValid();
      ghost var before := Rows(View());
      n := StoreKind(kind);
      AroundNone(retain, before, kind);
      AddChildren(n, ids, kind, before);
      var stored := Children(n);
      if stored != [] {
        StartedIsJoined(retain, before, kind, stored);
        SetStart(n, stored[0]);
      }
    }

    method AddChildren(n: nat, ids: seq<nat>, ghost kind: nat, ghost before: Table)
      requires Ready() && Square(before) && n == |before.heads| == |heads| - 1 && Exist(ids, n)
      requires Rows(View()) == Around(retain, before, kind, [])
      modifies this, children, children.blocks
      ensures Ready() && BlocksGrow() && |heads| == old(|heads|) && Exist(NonZero(ids), n)
      ensures Rows(View()) == Around(retain, before, kind, NonZero(ids))
    {
      hide Ready, View, Valid, Rows, Stepped, Apply, Around, Joined;
      ReadyIsValid();
      for k := 0 to |ids|
        invariant Ready() && Valid(View()) && BlocksGrow() && |heads| == n + 1 && Exist(NonZero(ids[..k]), n)
        invariant Rows(View()) == Around(retain, before, kind, NonZero(ids[..k]))
      {
        NonZeroPrefix(ids, k, n);
        AroundMore(retain, before, kind, NonZero(ids[..k]), ids[k]);
        StepKeeps(retain, View(), SinkHistory.AddChild(n, ids[k]));
        AddChild(n, ids[k]);
        ReadyIsValid();
      }
      assert ids[..|ids|] == ids;
    }

    method StoreKind(kind: nat) returns (n: nat)
      requires Ready()
      modifies this, children, fields
      ensures Ready() && Blocks() == old(Blocks()) && n == old(|heads|) && |heads| == n + 1
      ensures Rows(View()) == Apply(retain, old(Rows(View())),
                                    SinkHistory.Store(NO_HEAD.(kind := kind), NO_TRIVIA, NO_MISHAP))
    {
      hide Ready, View, Valid, Rows, WithNode, Apply;
      ReadyIsValid();
      WithNodeKeeps(retain, NO_HEAD.(kind := kind), NO_TRIVIA, NO_MISHAP, View());
      n := Store(NO_HEAD.(kind := kind), NO_TRIVIA, NO_MISHAP);
    }

    method Children(n: nat) returns (ids: seq<nat>)
      requires Ready() && n < |heads|
      ensures ids == Rows(View()).children[n]
    {
      hide ListBuilder.Ready, ListBuilder.View, Lists.Valid, Lists.Lists, Rows;
      RowsOf();
      ids := children.Items(n);
    }

    method SetStart(n: nat, first: nat)
      requires Ready() && 0 < n < |heads| && first < |heads|
      modifies this
      ensures Ready() && Blocks() == old(Blocks()) && |heads| == old(|heads|)
      ensures Rows(View()) == Started(retain, old(Rows(View())), n, first)
    {
      hide ListBuilder.Ready, ListBuilder.View, Lists.Valid, Side.ValidSide, Lists.Lists, Rows, Apply;
      RowsOf();
      PlaceOf(View(), n);
      PlaceOf(View(), first);
      var leading := TriviaAt(View(), first).leading;
      HeadKeeps(View(), n, heads[n].(start := heads[first].start));
      SetHead(n, heads[n].(start := heads[first].start));
      TriviaKeeps(View(), n, TriviaAt(View(), n).(leading := leading));
      SetTrivia(n, TriviaAt(View(), n).(leading := leading));
    }

    // ----- going back ---------------------------------------------------------------------------

    method Mark() returns (m: SinkMark)
      requires Ready()
      ensures m == MarkAt(View()) && m.at == MarkOf(View())
    {
      var childMark := children.TakeMark();
      var fieldMark := fields.TakeMark();
      m := SinkMark(StateMark(|heads|, |trivia.table|, |mishaps.table|, childMark, fieldMark),
                    children.total, fields.total);
    }

    // Goes back to a mark after which only new nodes were changed.
    method Rewind(m: SinkMark, ghost s0: State)
      requires Ready() && Valid(s0) && Since(s0, View()) && m == MarkAt(s0)
      modifies this, children, fields
      ensures Ready() && BlocksGrow()
      ensures Reaches(old(View()), m.at) && View() == Rewound(old(View()), m.at)
    {
      hide ListBuilder.Ready, ListBuilder.View, Lists.Valid, Side.ValidSide, Valid, Lists.Lists, Side.Entries, Rows,
          Entries, Lists.Grown, Lists.Rewind, Side.Since;
      RewoundKeeps(s0, View());
      PartsOf(s0);
      heads := heads[..m.at.nodes];
      trivia := Side.Side(trivia.ids[..m.at.nodes], trivia.table[..m.at.trivia]);
      mishaps := Side.Side(mishaps.ids[..m.at.nodes], mishaps.table[..m.at.mishaps]);
      children.RewindTo(m.at.children, m.childTotal, s0.children);
      fields.RewindTo(m.at.fields, m.fieldTotal, s0.fields);
    }

    // Carries out a history; an attempt is marked, carried out, and given up.
    method Perform(h: History, ghost s0: State)
      requires Ready() && Valid(s0) && Since(s0, View()) && Legal(h, |s0.heads|, |heads|)
      modifies this, children, fields, children.blocks, fields.blocks
      ensures Ready() && BlocksGrow() && View() == Performed(retain, s0, old(View()), h)
      decreases h
    {
      hide Ready, View, Valid, Rows, Since, Stepped, Reaches, Rewound, Apply, Meaning, MarkAt, ListBuilder.Ready;
      ReadyIsValid();
      match h
      case Done =>
      case Then(step, rest) =>
        StepKeeps(retain, View(), step);
        StepSince(s0, retain, View(), step);
        Do(step);
        Perform(rest, s0);
      case Attempt(inner, rest) =>
        ghost var before := View();
        SinceItself(before);
        var mark := Mark();
        Perform(inner, before);
        RewoundKeeps(before, View());
        SinceThrough(s0, before, Rewound(View(), MarkOf(before)));
        Rewind(mark, before);
        Perform(rest, s0);
    }

    // ----- reading ------------------------------------------------------------------------------

    // All lists and error data, node by node.
    method ReadRows() returns (g: Graph, lists: seq<seq<Field>>, faults: seq<Option<Mishap>>)
      requires Ready()
      ensures g == Rows(View()).children && lists == Rows(View()).fields && faults == Rows(View()).mishaps
    {
      hide ListBuilder.Ready, ListBuilder.View, Lists.Valid, Lists.Lists, Rank;
      RowsOf();
      g, lists, faults := [], [], [];
      for n := 0 to |heads|
        invariant g == children.Content()[..n] && lists == fields.Content()[..n]
        invariant faults == Side.Entries(mishaps)[..n]
      {
        var ids := children.Items(n);
        var entries := fields.Items(n);
        g, lists, faults := g + [ids], lists + [entries], faults + [Side.Get(mishaps, n)];
      }
    }

    // The node in a field: that of the first entry with the field's id.
    method FieldOf(n: nat, id: nat) returns (node: nat)
      requires Ready() && n < |heads|
      ensures var entries := Rows(View()).fields[n];
              if exists k :: 0 <= k < |entries| && entries[k].id == id then
                exists k :: 0 <= k < |entries| && entries[k] == Field(id, node)
                            && forall j | 0 <= j < k :: entries[j].id != id
              else node == 0
    {
      hide ListBuilder.Ready, ListBuilder.View, Lists.Valid, Lists.Lists, Rows;
      RowsOf();
      var entries := fields.Items(n);
      for k := 0 to |entries|
        invariant forall j | 0 <= j < k :: entries[j].id != id
      {
        if entries[k].id == id { return entries[k].node; }
      }
      node := 0;
    }

    lemma RowsOf()
      requires Ready()
      ensures Valid(View()) && Side.ValidSide(mishaps)
      ensures |children.Content()| == |fields.Content()| == |mishaps.ids| == |heads|
      ensures Rows(View()).children == children.Content() && Rows(View()).fields == fields.Content()
      ensures Rows(View()).mishaps == Side.Entries(mishaps) && Rows(View()).heads == heads
      ensures Rows(View()).trivia == Side.Entries(trivia)
    {
    }

    // The finished tree below a node, with its error table.
    method Tree(root: nat) returns (tree: Tree<Head>, errors: ErrorTable)
      requires Ready() && root < |heads| && ChildrenLive(Rows(View()))
      ensures Finished(tree, errors, Rows(View()), root)
    {
      hide ListBuilder.Ready, ListBuilder.View, Lists.Valid, Lists.Lists, Rows, IsReachablePart, IsKept, ErrorsBefore;
      var g, lists, faults := ReadRows();
      RowsOf();
      LiveIsSound(Rows(View()));
      var from := Records(heads);
      var records := new Record<Head>[|from|](k requires 0 <= k < |from| => from[k]);
      assert records[..] == from;
      ghost var marked;
      tree, errors, marked := BuildTree(records, g, lists, faults, root);
      assert IsFinished(tree, errors, Rows(View()), root, marked);
    }
  }

  lemma LiveIsSound(t: Table)
    requires ChildrenLive(t)
    ensures Sound(t.children)
  {
    forall id, child | 0 <= id < |t.children| && child in t.children[id] ensures Live(t.children, child) {
      var k :| 0 <= k < |t.children[id]| && t.children[id][k] == child;
    }
  }

  // The tree is the part of the table reachable from the root, renumbered, and its error table
  // lists the error data of that part.
  ghost predicate IsFinished(tree: Tree<Head>, errors: ErrorTable, t: Table, root: nat, marked: set<nat>)
    requires Square(t)
  {
    if root == 0 then tree == CompactTree.Tree([], [], [], 0) && errors == NO_ERRORS
    else
      && IsKept(marked, t.children, root)
      && IsReachablePart(tree, Records(t.heads), t.children, t.fields, root, marked)
      && errors == ErrorsBefore(t.mishaps, marked, |t.mishaps|)
  }

  ghost predicate Finished(tree: Tree<Head>, errors: ErrorTable, t: Table, root: nat)
    requires Square(t)
  {
    exists marked: set<nat> :: IsFinished(tree, errors, t, root, marked)
  }

  lemma StartIsEmpty()
    ensures Valid(START) && Rows(START) == EMPTY && ChildrenLive(EMPTY)
  {
  }

  // Any history of building, and the tree below any of its nodes: the finished part of the table
  // the history means, whatever was tried and given up on the way.
  method Build(retain: bool, h: History, root: nat) returns (tree: Tree<Head>, errors: ErrorTable)
    requires Legal(h, 1, 1) && root < |Meaning(retain, EMPTY, h, 1).heads|
    ensures Finished(tree, errors, Meaning(retain, EMPTY, h, 1), root)
  {
    hide Valid, Rows, Since, Finished, Performed, ListBuilder.Ready;
    var sink := new Sink(retain);
    StartIsEmpty();
    SinceItself(START);
    sink.Perform(h, START);
    MeaningLive(retain, EMPTY, h, 1);
    tree, errors := sink.Tree(root);
  }

  // The finished tree is the same to the last index whether attempts were made or not.
  lemma AttemptsLeaveNoTrace(retain: bool, h: History, root: nat, a: Tree<Head>, b: Tree<Head>, ea: ErrorTable,
                             eb: ErrorTable)
    requires Legal(h, 1, 1) && Finished(a, ea, Meaning(retain, EMPTY, h, 1), root)
    requires Legal(Kept(h), 1, 1) && Finished(b, eb, Meaning(retain, EMPTY, Kept(h), 1), root)
    ensures a == b && ea == eb
  {
    KeptMeansSame(retain, EMPTY, h, 1);
    hide IsReachablePart, ErrorsBefore, Meaning, Legal;
    var t := Meaning(retain, EMPTY, h, 1);
    var ma :| IsFinished(a, ea, t, root, ma);
    var mb :| IsFinished(b, eb, t, root, mb);
    if root != 0 {
      assert ma == mb;
      PartIsUnique(a, b, Records(t.heads), t.children, t.fields, root, ma);
    }
  }
}
