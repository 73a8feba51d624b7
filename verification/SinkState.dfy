// The compact builder as a value (compact_sink.go): node records, side tables for the data few
// nodes have, and lists in arenas. It is proved to be the table that a history of building means.
module SinkState {
  import opened Chars
  import opened Arena
  import opened Reachability
  import opened SinkHistory
  import Side = SideTables
  import Lists = NodeLists

  // The two list storages: child ids, and fields. A child list spills into a window at once, a
  // field list entry by entry.
  const CHILD_RULES: Rules<nat> := Rules(64, 4096, 4, 0)
  const FIELD_RULES: Rules<Field> := Rules(32, 1024, 2, Field(0, 0))

  datatype State = State(heads: seq<Head>, trivia: Side.Side<Trivia>, mishaps: Side.Side<Mishap>,
                         children: Lists.Store<nat>, fields: Lists.Store<Field>)

  const START := State([NO_HEAD], Side.EmptySide(NO_TRIVIA), Side.EmptySide(NO_MISHAP),
                       Lists.EmptyStore(CHILD_RULES), Lists.EmptyStore(FIELD_RULES))

  datatype StateMark = StateMark(nodes: nat, trivia: nat, mishaps: nat, children: Lists.Mark, fields: Lists.Mark)

  ghost predicate Valid(s: State) {
    && Side.ValidSide(s.trivia) && Side.ValidSide(s.mishaps) && Lists.Valid(s.children) && Lists.Valid(s.fields)
    && 0 < |s.heads| == |s.trivia.ids| == |s.mishaps.ids| == |s.children.ids| == |s.fields.ids|
  }

  ghost function Rows(s: State): (t: Table)
    requires Valid(s)
    ensures Square(t) && |t.heads| == |s.heads|
  {
    Table(s.heads, Side.Entries(s.trivia), Side.Entries(s.mishaps), Lists.Lists(s.children), Lists.Lists(s.fields))
  }

  // Each node has a place in every table.
  lemma PlaceOf(s: State, n: nat)
    requires Valid(s) && n < |s.heads|
    ensures |s.heads| == |s.trivia.ids| == |s.mishaps.ids| == |s.children.ids| == |s.fields.ids|
    ensures s.trivia.ids[n] < |s.trivia.table| && s.mishaps.ids[n] < |s.mishaps.table| && s.mishaps.table != []
    ensures s.trivia.table != []
  {
  }

  lemma PartsOf(s: State)
    requires Valid(s)
    ensures Lists.Valid(s.children) && Lists.Valid(s.fields)
  {
  }

  // ----- steps --------------------------------------------------------------------------------

  function TriviaAt(s: State, n: nat): Trivia
    requires n < |s.trivia.ids| && s.trivia.ids[n] < |s.trivia.table|
  {
    TriviaOf(Side.Get(s.trivia, n))
  }

  function AddEntry<T>(s: Side.Side<T>, entry: Option<T>): Side.Side<T>
    requires s.table != []
  {
    if entry.Some? then Side.Put(Side.AddEmpty(s), |s.ids|, entry.value) else Side.AddEmpty(s)
  }

  function WithEnd(retain: bool, s: State, n: nat, last: nat): (s': State)
    requires Valid(s) && n < |s.heads| && last < |s.heads|
    ensures |s'.heads| == |s.heads|
  {
    var trailing := TriviaAt(s, last).trailing;
    s.(heads := s.heads[n := s.heads[n].(end := s.heads[last].end)],
       trivia := if retain then Side.Put(s.trivia, n, TriviaAt(s, n).(trailing := trailing)) else s.trivia)
  }

  function WithBlame(s: State, n: nat, child: nat): State
    requires n < |s.heads| && child < |s.heads|
  {
    if s.heads[child].hasError then s.(heads := s.heads[n := s.heads[n].(hasError := true)]) else s
  }

  function WithNode(retain: bool, head: Head, trivia: Trivia, mishap: Mishap, s: State): State
    requires Valid(s)
  {
    State(s.heads + [head], AddEntry(s.trivia, NewTrivia(retain, trivia)), AddEntry(s.mishaps, NewMishap(mishap)),
          Lists.AddNode(s.children), Lists.AddNode(s.fields))
  }

  function WithChild(s: State, n: nat, child: nat): State
    requires Valid(s) && 0 < n < |s.heads|
  {
    s.(children := Lists.Add(CHILD_RULES, s.children, n, child, true))
  }

  function WithChildren(s: State, n: nat, ids: seq<nat>): State
    requires Valid(s) && 0 < n < |s.heads|
  {
    s.(children := Lists.SetAll(CHILD_RULES, s.children, n, ids))
  }

  function WithField(s: State, n: nat, f: Field): State
    requires Valid(s) && 0 < n < |s.heads|
  {
    s.(fields := Lists.Add(FIELD_RULES, s.fields, n, f, false))
  }

  function Stepped(retain: bool, s: State, step: Step): State
    requires Valid(s) && StepLegal(step, 1, |s.heads|)
  {
    match step
    case Store(head, trivia, mishap) => WithNode(retain, head, trivia, mishap, s)
    case AddChild(n, child) =>
      if child == 0 then s
      else
        WithChildKeeps(s, n, child);
        WithBlame(WithEnd(retain, WithChild(s, n, child), n, child), n, child)
    case SetChildren(n, ids) =>
      WithChildrenKeeps(s, n, ids);
      if ids == [] then WithChildren(s, n, ids)
      else WithEnd(retain, WithChildren(s, n, ids), n, ids[|ids| - 1])
    case SetField(n, id, child) => if child == 0 then s else WithField(s, n, Field(id, child))
    case SetHead(n, head) => s.(heads := s.heads[n := head])
    case SetTrivia(n, trivia) => if retain then s.(trivia := Side.Put(s.trivia, n, trivia)) else s
    case SetMishap(n, mishap) => s.(mishaps := Side.Put(s.mishaps, n, mishap))
  }

  lemma AddEntryKeeps<T>(s: Side.Side<T>, entry: Option<T>)
    requires Side.ValidSide(s)
    ensures Side.ValidSide(AddEntry(s, entry)) && Side.Entries(AddEntry(s, entry)) == Side.Entries(s) + [entry]
  {
    Side.AddEmptyKeeps(s);
    if entry.Some? { Side.PutKeeps(Side.AddEmpty(s), |s.ids|, entry.value); }
  }

  // ----- the state is the table -----------------------------------------------------------------

  lemma WithNodeKeeps(retain: bool, head: Head, trivia: Trivia, mishap: Mishap, s: State)
    requires Valid(s)
    ensures var s' := WithNode(retain, head, trivia, mishap, s);
      Valid(s') && Rows(s') == Apply(retain, Rows(s), Store(head, trivia, mishap))
  {
    hide Side.ValidSide, Lists.Valid, AddEntry, Side.Entries, Lists.Lists;
    AddEntryKeeps(s.trivia, NewTrivia(retain, trivia));
    AddEntryKeeps(s.mishaps, NewMishap(mishap));
    Lists.AddNodeKeeps(s.children);
    Lists.AddNodeKeeps(s.fields);
  }

  lemma WithChildKeeps(s: State, n: nat, child: nat)
    requires Valid(s) && 0 < n < |s.heads|
    ensures var s' := WithChild(s, n, child);
      Valid(s') && Rows(s') == Rows(s).(children := Rows(s).children[n := Rows(s).children[n] + [child]])
  {
    hide Side.ValidSide, Lists.Valid, Lists.Add, Side.Entries, Lists.Lists;
    Lists.AddKeeps(CHILD_RULES, s.children, n, child, true);
  }

  lemma WithChildrenKeeps(s: State, n: nat, ids: seq<nat>)
    requires Valid(s) && 0 < n < |s.heads|
    ensures var s' := WithChildren(s, n, ids);
      Valid(s') && Rows(s') == Rows(s).(children := Rows(s).children[n := ids])
  {
    hide Side.ValidSide, Lists.Valid, Lists.SetAll, Side.Entries, Lists.Lists;
    Lists.SetKeeps(CHILD_RULES, s.children, n, ids);
  }

  lemma WithFieldKeeps(s: State, n: nat, f: Field)
    requires Valid(s) && 0 < n < |s.heads|
    ensures var s' := WithField(s, n, f);
      Valid(s') && Rows(s') == Rows(s).(fields := Rows(s).fields[n := Rows(s).fields[n] + [f]])
  {
    hide Side.ValidSide, Lists.Valid, Lists.Add, Side.Entries, Lists.Lists;
    Lists.AddKeeps(FIELD_RULES, s.fields, n, f, false);
  }

  lemma WithEndKeeps(retain: bool, s: State, n: nat, last: nat)
    requires Valid(s) && 0 < n < |s.heads| && last < |s.heads|
    ensures var s' := WithEnd(retain, s, n, last); Valid(s') && Rows(s') == Ended(retain, Rows(s), n, last)
  {
    hide Lists.Valid, Lists.Lists, Side.Put;
    Side.PutKeeps(s.trivia, n, TriviaAt(s, n).(trailing := TriviaAt(s, last).trailing));
  }

  lemma WithBlameKeeps(s: State, n: nat, child: nat)
    requires Valid(s) && n < |s.heads| && child < |s.heads|
    ensures Valid(WithBlame(s, n, child)) && Rows(WithBlame(s, n, child)) == Blamed(Rows(s), n, child)
  {
    hide Side.ValidSide, Lists.Valid, Side.Entries, Lists.Lists;
  }

  // Every step does to the state what it does to the table.
  lemma StepKeeps(retain: bool, s: State, step: Step)
    requires Valid(s) && StepLegal(step, 1, |s.heads|)
    ensures var s' := Stepped(retain, s, step); Valid(s') && Rows(s') == Apply(retain, Rows(s), step)
  {
    hide Valid, Rows, WithNode, WithEnd, Ended, WithBlame, Blamed, WithChild, WithChildren, WithField;
    match step
    case Store(head, trivia, mishap) => WithNodeKeeps(retain, head, trivia, mishap, s);
    case AddChild(n, child) =>
      if child != 0 {
        WithChildKeeps(s, n, child);
        WithEndKeeps(retain, WithChild(s, n, child), n, child);
        WithBlameKeeps(WithEnd(retain, WithChild(s, n, child), n, child), n, child);
      }
    case SetChildren(n, ids) =>
      WithChildrenKeeps(s, n, ids);
      if ids != [] { WithEndKeeps(retain, WithChildren(s, n, ids), n, ids[|ids| - 1]); }
    case SetField(n, id, child) => if child != 0 { WithFieldKeeps(s, n, Field(id, child)); }
    case SetHead(n, head) => HeadKeeps(s, n, head);
    case SetTrivia(n, trivia) => if retain { TriviaKeeps(s, n, trivia); }
    case SetMishap(n, mishap) => MishapKeeps(s, n, mishap);
  }

  lemma HeadKeeps(s: State, n: nat, head: Head)
    requires Valid(s) && 0 < n < |s.heads|
    ensures var s' := s.(heads := s.heads[n := head]);
      Valid(s') && Rows(s') == Rows(s).(heads := Rows(s).heads[n := head])
  {
    hide Side.ValidSide, Lists.Valid, Side.Entries, Lists.Lists;
  }

  lemma TriviaKeeps(s: State, n: nat, trivia: Trivia)
    requires Valid(s) && 0 < n < |s.heads|
    ensures Side.ValidSide(s.trivia)
    ensures var s' := s.(trivia := Side.Put(s.trivia, n, trivia));
      Valid(s') && Rows(s') == Rows(s).(trivia := Rows(s).trivia[n := Some(trivia)])
  {
    hide Lists.Valid, Lists.Lists;
    Side.PutKeeps(s.trivia, n, trivia);
  }

  lemma MishapKeeps(s: State, n: nat, mishap: Mishap)
    requires Valid(s) && 0 < n < |s.heads|
    ensures var s' := s.(mishaps := Side.Put(s.mishaps, n, mishap));
      Valid(s') && Rows(s') == Rows(s).(mishaps := Rows(s).mishaps[n := Some(mishap)])
  {
    hide Lists.Valid, Lists.Lists;
    Side.PutKeeps(s.mishaps, n, mishap);
  }

  // ----- going back ---------------------------------------------------------------------------------

  // s still holds all of s0, and what it added lies behind.
  ghost predicate Since(s0: State, s: State) {
    && |s0.heads| <= |s.heads| && s.heads[..|s0.heads|] == s0.heads
    && Side.Since(s0.trivia, s.trivia) && Side.Since(s0.mishaps, s.mishaps)
    && Lists.Grown(s0.children, s.children) && Lists.Grown(s0.fields, s.fields)
  }

  lemma SinceItself(s: State)
    requires Valid(s)
    ensures Since(s, s)
  {
    hide Lists.Grown, Lists.Valid;
    Lists.GrownReflexive(s.children);
    Lists.GrownReflexive(s.fields);
  }

  lemma SinceThrough(s0: State, s1: State, s2: State)
    requires Valid(s0) && Valid(s1) && Since(s0, s1) && Since(s1, s2)
    ensures Since(s0, s2)
  {
    hide Lists.Grown, Lists.Valid, Side.ValidSide, Side.Since;
    Side.SinceTransitive(s0.trivia, s1.trivia, s2.trivia);
    Side.SinceTransitive(s0.mishaps, s1.mishaps, s2.mishaps);
    Lists.GrownTransitive(s0.children, s1.children, s2.children);
    Lists.GrownTransitive(s0.fields, s1.fields, s2.fields);
    assert s2.heads[..|s0.heads|] == s2.heads[..|s1.heads|][..|s0.heads|];
  }

  lemma AddEntrySince<T>(s0: Side.Side<T>, s: Side.Side<T>, entry: Option<T>)
    requires Side.ValidSide(s0) && Side.ValidSide(s) && Side.Since(s0, s)
    ensures Side.Since(s0, AddEntry(s, entry))
  {
    Side.AddEmptySince(s0, s);
    Side.AddEmptyKeeps(s);
    if entry.Some? { Side.PutSince(s0, Side.AddEmpty(s), |s.ids|, entry.value); }
  }

  lemma WithNodeSince(s0: State, retain: bool, head: Head, trivia: Trivia, mishap: Mishap, s: State)
    requires Valid(s0) && Valid(s) && Since(s0, s)
    ensures Since(s0, WithNode(retain, head, trivia, mishap, s))
  {
    hide Side.ValidSide, Lists.Valid, Side.Since, Lists.Grown, Lists.AddNode, AddEntry;
    AddEntrySince(s0.trivia, s.trivia, NewTrivia(retain, trivia));
    AddEntrySince(s0.mishaps, s.mishaps, NewMishap(mishap));
    Lists.AddNodeGrown(s0.children, s.children);
    Lists.AddNodeGrown(s0.fields, s.fields);
  }

  lemma WithEndSince(s0: State, retain: bool, s: State, n: nat, last: nat)
    requires Valid(s0) && Valid(s) && Since(s0, s) && |s0.heads| <= n < |s.heads| && last < |s.heads|
    ensures Since(s0, WithEnd(retain, s, n, last))
  {
    hide Lists.Valid, Side.Since, Lists.Grown, Side.Put;
    Side.PutSince(s0.trivia, s.trivia, n, TriviaAt(s, n).(trailing := TriviaAt(s, last).trailing));
  }

  lemma ListsSince(s0: State, s: State, n: nat, child: nat, ids: seq<nat>, f: Field)
    requires Valid(s0) && Valid(s) && Since(s0, s) && |s0.heads| <= n < |s.heads|
    ensures Since(s0, WithChild(s, n, child)) && Since(s0, WithChildren(s, n, ids)) && Since(s0, WithField(s, n, f))
  {
    hide Side.ValidSide, Lists.Valid, Side.Since, Lists.Grown, Lists.Add, Lists.SetAll;
    Lists.AddGrown(CHILD_RULES, s0.children, s.children, n, child, true);
    Lists.SetGrown(CHILD_RULES, s0.children, s.children, n, ids);
    Lists.AddGrown(FIELD_RULES, s0.fields, s.fields, n, f, false);
  }

  lemma SideSince(s0: State, s: State, n: nat, trivia: Trivia, mishap: Mishap)
    requires Valid(s0) && Valid(s) && Since(s0, s) && |s0.heads| <= n < |s.heads|
    ensures Side.ValidSide(s.trivia) && Since(s0, s.(trivia := Side.Put(s.trivia, n, trivia)))
    ensures Side.ValidSide(s.mishaps) && Since(s0, s.(mishaps := Side.Put(s.mishaps, n, mishap)))
  {
    hide Lists.Valid, Side.Since, Lists.Grown, Side.Put;
    Side.PutSince(s0.trivia, s.trivia, n, trivia);
    Side.PutSince(s0.mishaps, s.mishaps, n, mishap);
  }

  lemma StepSince(s0: State, retain: bool, s: State, step: Step)
    requires Valid(s0) && Valid(s) && Since(s0, s) && StepLegal(step, |s0.heads|, |s.heads|)
    ensures Since(s0, Stepped(retain, s, step))
  {
    hide Valid, Rows, Since, WithNode, WithEnd, WithChild, WithChildren, WithField;
    match step
    case Store(head, trivia, mishap) => WithNodeSince(s0, retain, head, trivia, mishap, s);
    case AddChild(n, child) =>
      if child != 0 {
        WithChildKeeps(s, n, child);
        ListsSince(s0, s, n, child, [], Field(0, 0));
        WithEndSince(s0, retain, WithChild(s, n, child), n, child);
        WithBlameSince(s0, WithEnd(retain, WithChild(s, n, child), n, child), n, child);
      }
    case SetChildren(n, ids) =>
      WithChildrenKeeps(s, n, ids);
      ListsSince(s0, s, n, 0, ids, Field(0, 0));
      if ids != [] { WithEndSince(s0, retain, WithChildren(s, n, ids), n, ids[|ids| - 1]); }
    case SetField(n, id, child) => ListsSince(s0, s, n, 0, [], Field(id, child));
    case SetHead(n, head) => HeadSince(s0, s, n, head);
    case SetTrivia(n, trivia) => SideSince(s0, s, n, trivia, NO_MISHAP);
    case SetMishap(n, mishap) => SideSince(s0, s, n, NO_TRIVIA, mishap);
  }

  lemma HeadSince(s0: State, s: State, n: nat, head: Head)
    requires Since(s0, s) && |s0.heads| <= n < |s.heads|
    ensures Since(s0, s.(heads := s.heads[n := head]))
  {
    hide Side.Since, Lists.Grown;
  }

  lemma WithBlameSince(s0: State, s: State, n: nat, child: nat)
    requires Since(s0, s) && |s0.heads| <= n < |s.heads| && child < |s.heads|
    ensures Since(s0, WithBlame(s, n, child))
  {
    hide Since;
    HeadSince(s0, s, n, s.heads[n].(hasError := true));
  }

  function MarkOf(s: State): StateMark {
    StateMark(|s.heads|, |s.trivia.table|, |s.mishaps.table|, Lists.MarkOf(s.children), Lists.MarkOf(s.fields))
  }

  ghost predicate Reaches(s: State, m: StateMark) {
    && m.nodes <= |s.heads| && m.nodes <= |s.trivia.ids| && m.nodes <= |s.mishaps.ids|
    && m.trivia <= |s.trivia.table| && m.mishaps <= |s.mishaps.table|
    && StoreReaches(s.children, m.children) && StoreReaches(s.fields, m.fields)
  }

  ghost predicate StoreReaches<T>(s: Lists.Store<T>, m: Lists.Mark) {
    m.ids <= |s.ids| && m.records <= |s.records| && m.spills <= |s.spills| && m.blocks <= |s.arena.cells|
  }

  function Rewound(s: State, m: StateMark): State
    requires Reaches(s, m)
  {
    State(s.heads[..m.nodes], Side.Side(s.trivia.ids[..m.nodes], s.trivia.table[..m.trivia]),
          Side.Side(s.mishaps.ids[..m.nodes], s.mishaps.table[..m.mishaps]),
          Lists.Rewind(s.children, m.children), Lists.Rewind(s.fields, m.fields))
  }

  lemma SinceReaches(s0: State, s: State)
    requires Valid(s0) && Valid(s) && Since(s0, s)
    ensures Reaches(s, MarkOf(s0))
  {
  }

  // Going back to a mark gives back the table of the mark.
  lemma RewoundKeeps(s0: State, s: State)
    requires Valid(s0) && Valid(s) && Since(s0, s)
    ensures Reaches(s, MarkOf(s0))
    ensures var s' := Rewound(s, MarkOf(s0)); Valid(s') && Rows(s') == Rows(s0) && Since(s0, s')
  {
    SinceReaches(s0, s);
    SinceItself(s0);
    hide Lists.Valid, Lists.Lists, Lists.Grown, Lists.Rewind, Side.ValidSide, Side.Entries;
    Side.CutBack(s0.trivia, s.trivia);
    Side.CutBack(s0.mishaps, s.mishaps);
    Lists.RewindKeeps(s0.children, s.children);
    Lists.RewindKeeps(s0.fields, s.fields);
  }

  // ----- histories --------------------------------------------------------------------------------

  // What the builder does for a history begun at s0. Whatever the history, and however attempts
  // nest in it, the state is the table it means, and all that is older is left alone.
  ghost function Performed(retain: bool, s0: State, s: State, h: History): (s': State)
    requires Valid(s0) && Valid(s) && Since(s0, s) && Legal(h, |s0.heads|, |s.heads|)
    ensures Valid(s') && Since(s0, s') && Rows(s') == Meaning(retain, Rows(s), h, |s0.heads|)
    decreases h
  {
    hide Valid, Rows, Since, Stepped, Apply, Reaches, Rewound;
    match h
    case Done => s
    case Then(step, rest) =>
      StepKeeps(retain, s, step);
      StepSince(s0, retain, s, step);
      Performed(retain, s0, Stepped(retain, s, step), rest)
    case Attempt(inner, rest) =>
      SinceItself(s);
      var tried := Performed(retain, s, s, inner);
      RewoundKeeps(s, tried);
      SinceThrough(s0, s, Rewound(tried, MarkOf(s)));
      Performed(retain, s0, Rewound(tried, MarkOf(s)), rest)
  }
}
