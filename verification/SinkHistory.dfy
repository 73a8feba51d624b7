// What the compact builder is asked to do (node_sink.go), and what that means: a table with a
// row for each node, kept in plain sequences. An attempt that is given up leaves no trace.
module SinkHistory {
  import opened Chars
  import opened Reachability

  // A node's own data: its kind, the token it was made from, its range, and its flags.
  datatype Head = Head(kind: nat, tokKind: nat, tokStart: int, tokEnd: int, start: int, end: int,
                       hasError: bool, missingSemi: bool, hasRaw: bool)

  datatype Trivia = Trivia(leading: seq<string>, trailing: seq<string>)

  datatype Mishap = Mishap(message: string, expected: seq<nat>, offset: int, found: nat)

  const NO_HEAD := Head(0, 0, 0, 0, 0, 0, false, false, false)
  const NO_TRIVIA := Trivia([], [])
  const NO_MISHAP := Mishap("", [], 0, 0)

  // The columns of the table; row 0 is no node.
  datatype Table = Table(heads: seq<Head>, trivia: seq<Option<Trivia>>, mishaps: seq<Option<Mishap>>,
                         children: seq<seq<nat>>, fields: seq<seq<Field>>)

  const EMPTY := Table([NO_HEAD], [None], [None], [[]], [[]])

  predicate Square(t: Table) {
    0 < |t.heads| == |t.trivia| == |t.mishaps| == |t.children| == |t.fields|
  }

  datatype Step =
    | Store(head: Head, trivia: Trivia, mishap: Mishap)
    | AddChild(n: nat, child: nat)
    | SetChildren(n: nat, ids: seq<nat>)
    | SetField(n: nat, id: nat, child: nat)
    | SetHead(n: nat, head: Head)
    | SetTrivia(n: nat, trivia: Trivia)
    | SetMishap(n: nat, mishap: Mishap)

  datatype History = Done | Then(step: Step, rest: History) | Attempt(inner: History, rest: History)

  // Steps change nodes made since the last mark, and give them children that exist. A child 0
  // may be added: it is ignored. A field may point anywhere.
  predicate StepLegal(step: Step, from: nat, count: nat) {
    match step
    case Store(_, _, _) => true
    case AddChild(n, child) => 0 < from <= n < count && child < count
    case SetChildren(n, ids) => 0 < from <= n < count && forall k | 0 <= k < |ids| :: 0 < ids[k] < count
    case _ => 0 < from <= step.n < count
  }

  function CountAfter(step: Step, count: nat): nat { if step.Store? then count + 1 else count }

  predicate Legal(h: History, from: nat, count: nat) {
    match h
    case Done => true
    case Then(step, rest) => StepLegal(step, from, count) && Legal(rest, from, CountAfter(step, count))
    case Attempt(inner, rest) => Legal(inner, count, count) && Legal(rest, from, count)
  }

  // ----- meaning ---------------------------------------------------------------------------

  function TriviaOf(entry: Option<Trivia>): Trivia { if entry.Some? then entry.value else NO_TRIVIA }

  // What is stored with a new node: trivia if they are kept and there are any ...
  function NewTrivia(retain: bool, trivia: Trivia): Option<Trivia> {
    if retain && trivia != NO_TRIVIA then Some(trivia) else None
  }

  // ... and error data that say something.
  function NewMishap(mishap: Mishap): Option<Mishap> { if mishap != NO_MISHAP then Some(mishap) else None }

  // A node ends where its last child does.
  function Ended(retain: bool, t: Table, n: nat, last: nat): Table
    requires Square(t) && n < |t.heads| && last < |t.heads|
  {
    var trailing := TriviaOf(t.trivia[last]).trailing;
    t.(heads := t.heads[n := t.heads[n].(end := t.heads[last].end)],
       trivia := if retain then t.trivia[n := Some(TriviaOf(t.trivia[n]).(trailing := trailing))] else t.trivia)
  }

  // A node with a faulty child is faulty.
  function Blamed(t: Table, n: nat, child: nat): Table
    requires n < |t.heads| && child < |t.heads|
  {
    if t.heads[child].hasError then t.(heads := t.heads[n := t.heads[n].(hasError := true)]) else t
  }

  function Apply(retain: bool, t: Table, step: Step): (t': Table)
    requires Square(t) && StepLegal(step, 1, |t.heads|)
    ensures Square(t') && |t'.heads| == CountAfter(step, |t.heads|)
  {
    match step
    case Store(head, trivia, mishap) =>
      Table(t.heads + [head], t.trivia + [NewTrivia(retain, trivia)], t.mishaps + [NewMishap(mishap)],
            t.children + [[]], t.fields + [[]])
    case AddChild(n, child) =>
      if child == 0 then t
      else Blamed(Ended(retain, t.(children := t.children[n := t.children[n] + [child]]), n, child), n, child)
    case SetChildren(n, ids) =>
      var set_ := t.(children := t.children[n := ids]);
      if ids == [] then set_ else Ended(retain, set_, n, ids[|ids| - 1])
    case SetField(n, id, child) =>
      if child == 0 then t else t.(fields := t.fields[n := t.fields[n] + [Field(id, child)]])
    case SetHead(n, head) => t.(heads := t.heads[n := head])
    case SetTrivia(n, trivia) => if retain then t.(trivia := t.trivia[n := Some(trivia)]) else t
    case SetMishap(n, mishap) => t.(mishaps := t.mishaps[n := Some(mishap)])
  }

  function Meaning(retain: bool, t: Table, h: History, from: nat): (t': Table)
    requires Square(t) && Legal(h, from, |t.heads|)
    ensures Square(t')
    decreases h
  {
    match h
    case Done => t
    case Then(step, rest) => Meaning(retain, Apply(retain, t, step), rest, from)
    case Attempt(_, rest) => Meaning(retain, t, rest, from)
  }

  // ----- what a step leaves in its row ---------------------------------------------------------------

  // The last child that a step gives a node, if it gives one.
  function LastGiven(step: Step): nat {
    match step
    case AddChild(_, child) => child
    case SetChildren(_, ids) => if ids == [] then 0 else ids[|ids| - 1]
    case _ => 0
  }

  // A node that is given children ends where the last one does, with the trivia behind it.
  lemma EndsWithLast(retain: bool, t: Table, step: Step)
    requires Square(t) && StepLegal(step, 1, |t.heads|) && (step.AddChild? || step.SetChildren?) && LastGiven(step) != 0
    ensures var t', last := Apply(retain, t, step), LastGiven(step);
            && t'.heads[step.n].end == t.heads[last].end
            && (retain ==> t'.trivia[step.n]
                           == Some(Trivia(TriviaOf(t.trivia[step.n]).leading, TriviaOf(t.trivia[last]).trailing)))
            && t'.heads[step.n].hasError == (t.heads[step.n].hasError || (step.AddChild? && t.heads[last].hasError))
            && t'.children[step.n] == if step.AddChild? then t.children[step.n] + [last] else step.ids
  {
  }

  // Trivia are stored with a node if they are kept and there are any; error data if they say
  // anything.
  lemma StoredData(retain: bool, t: Table, head: Head, trivia: Trivia, mishap: Mishap)
    requires Square(t)
    ensures var t', n := Apply(retain, t, Store(head, trivia, mishap)), |t.heads|;
            && |t'.heads| == n + 1 && t'.heads[n] == head && t'.children[n] == [] && t'.fields[n] == []
            && t'.trivia[n]
               == (if retain && (|trivia.leading| > 0 || |trivia.trailing| > 0) then Some(trivia) else None)
            && t'.mishaps[n] == (if |mishap.message| > 0 || |mishap.expected| > 0 || mishap.offset != 0
                                    || mishap.found != 0 then Some(mishap) else None)
  {
  }

  // The node first put into a field is the one found there.
  lemma FieldFound(retain: bool, t: Table, n: nat, id: nat, child: nat)
    requires Square(t) && 0 < n < |t.heads| && child != 0
    requires forall k | 0 <= k < |t.fields[n]| :: t.fields[n][k].id != id
    ensures var entries, k := Apply(retain, t, SetField(n, id, child)).fields[n], |t.fields[n]|;
            k < |entries| && entries[k] == Field(id, child) && forall j | 0 <= j < k :: entries[j].id != id
  {
  }

  // No step changes the row of another node.
  lemma OtherRowsKept(retain: bool, t: Table, step: Step, k: nat)
    requires Square(t) && StepLegal(step, 1, |t.heads|) && k < |t.heads| && (step.Store? || k != step.n)
    ensures var t' := Apply(retain, t, step);
            && t'.heads[k] == t.heads[k] && t'.trivia[k] == t.trivia[k] && t'.mishaps[k] == t.mishaps[k]
            && t'.children[k] == t.children[k] && t'.fields[k] == t.fields[k]
  {
  }

  // ----- every child exists -------------------------------------------------------------------

  ghost predicate ChildrenLive(t: Table) {
    forall n, k | 0 <= n < |t.children| && 0 <= k < |t.children[n]| :: 0 < t.children[n][k] < |t.children|
  }

  lemma StepKeepsLive(retain: bool, t: Table, step: Step)
    requires Square(t) && StepLegal(step, 1, |t.heads|) && ChildrenLive(t)
    ensures ChildrenLive(Apply(retain, t, step))
  {
  }

  lemma {:induction false} MeaningLive(retain: bool, t: Table, h: History, from: nat)
    requires Square(t) && Legal(h, from, |t.heads|) && ChildrenLive(t)
    ensures ChildrenLive(Meaning(retain, t, h, from))
    decreases h
  {
    match h
    case Done =>
    case Then(step, rest) =>
      StepKeepsLive(retain, t, step);
      MeaningLive(retain, Apply(retain, t, step), rest, from);
    case Attempt(_, rest) => MeaningLive(retain, t, rest, from);
  }

  // ----- a node around children -----------------------------------------------------------------

  function NonZero(ids: seq<nat>): (r: seq<nat>)
    ensures forall k | 0 <= k < |r| :: r[k] != 0 && r[k] in ids
  {
    if ids == [] then []
    else NonZero(ids[..|ids| - 1]) + (if ids[|ids| - 1] == 0 then [] else [ids[|ids| - 1]])
  }

  predicate Exist(ids: seq<nat>, count: nat) { forall k | 0 <= k < |ids| :: ids[k] < count }

  predicate AnyFaulty(t: Table, ids: seq<nat>)
    requires Exist(ids, |t.heads|)
  {
    exists k | 0 <= k < |ids| :: t.heads[ids[k]].hasError
  }

  lemma NonZeroPrefix(ids: seq<nat>, k: nat, count: nat)
    requires Exist(ids, count) && k < |ids|
    ensures Exist(NonZero(ids), count) && Exist(NonZero(ids[..k]), count)
    ensures NonZero(ids[..k + 1]) == if ids[k] == 0 then NonZero(ids[..k]) else NonZero(ids[..k]) + [ids[k]]
  {
    assert ids[..k + 1][..k] == ids[..k];
  }

  // The table with a node added around these children: it ends where the last does, with the
  // trivia behind it, and is faulty if one of them is.
  function Around(retain: bool, t: Table, kind: nat, ids: seq<nat>): (t': Table)
    requires Square(t) && Exist(ids, |t.heads|)
    ensures Square(t') && t'.children == t.children + [ids]
  {
    var end := if ids == [] then 0 else t.heads[ids[|ids| - 1]].end;
    var trailing := if ids == [] then [] else TriviaOf(t.trivia[ids[|ids| - 1]]).trailing;
    Table(t.heads + [NO_HEAD.(kind := kind, end := end, hasError := AnyFaulty(t, ids))],
          t.trivia + [if retain && ids != [] then Some(Trivia([], trailing)) else None],
          t.mishaps + [None], t.children + [ids], t.fields + [[]])
  }

  // ... and it starts where the first does, with the trivia in front of it.
  function Joined(retain: bool, t: Table, kind: nat, ids: seq<nat>): Table
    requires Square(t) && Exist(ids, |t.heads|)
  {
    var around, n := Around(retain, t, kind, ids), |t.heads|;
    if ids == [] then around
    else
      var leading := TriviaOf(t.trivia[ids[0]]).leading;
      around.(heads := around.heads[n := around.heads[n].(start := t.heads[ids[0]].start)],
              trivia := if retain then around.trivia[n := Some(TriviaOf(around.trivia[n]).(leading := leading))]
                        else around.trivia)
  }

  // Node n made to start where another does.
  function Started(retain: bool, t: Table, n: nat, first: nat): Table
    requires Square(t) && n < |t.heads| && first < |t.heads|
  {
    var leading := TriviaOf(t.trivia[first]).leading;
    t.(heads := t.heads[n := t.heads[n].(start := t.heads[first].start)],
       trivia := if retain then t.trivia[n := Some(TriviaOf(t.trivia[n]).(leading := leading))] else t.trivia)
  }

  lemma StartedIsJoined(retain: bool, t: Table, kind: nat, ids: seq<nat>)
    requires Square(t) && Exist(ids, |t.heads|) && ids != []
    ensures Started(retain, Around(retain, t, kind, ids), |t.heads|, ids[0]) == Joined(retain, t, kind, ids)
  {
  }

  lemma AroundNone(retain: bool, t: Table, kind: nat)
    requires Square(t)
    ensures Apply(retain, t, Store(NO_HEAD.(kind := kind), NO_TRIVIA, NO_MISHAP)) == Around(retain, t, kind, [])
  {
  }

  lemma AroundMore(retain: bool, t: Table, kind: nat, ids: seq<nat>, child: nat)
    requires Square(t) && Exist(ids, |t.heads|) && child < |t.heads|
    ensures var around := Around(retain, t, kind, ids);
      Apply(retain, around, AddChild(|t.heads|, child))
      == Around(retain, t, kind, if child == 0 then ids else ids + [child])
  {
    if child == 0 { return; }
    var around, n := Around(retain, t, kind, ids), |t.heads|;
    var all := ids + [child];
    assert AnyFaulty(t, all) <==> AnyFaulty(t, ids) || t.heads[child].hasError by {
      if AnyFaulty(t, ids) {
        var k :| 0 <= k < |ids| && t.heads[ids[k]].hasError;
        assert all[k] == ids[k];
      }
      if t.heads[child].hasError { assert all[|ids|] == child; }
    }
    var applied, wanted := Apply(retain, around, AddChild(n, child)), Around(retain, t, kind, all);
    assert all[|all| - 1] == child;
    assert applied.heads == wanted.heads;
    assert applied.trivia == wanted.trivia;
    assert applied.children == wanted.children;
  }

  // ----- attempts ---------------------------------------------------------------------------------

  // The history without what was given up.
  function Kept(h: History): History {
    match h
    case Done => Done
    case Then(step, rest) => Then(step, Kept(rest))
    case Attempt(_, rest) => Kept(rest)
  }

  lemma {:induction false} KeptMeansSame(retain: bool, t: Table, h: History, from: nat)
    requires Square(t) && Legal(h, from, |t.heads|)
    ensures Legal(Kept(h), from, |t.heads|) && Meaning(retain, t, Kept(h), from) == Meaning(retain, t, h, from)
    decreases h
  {
    match h
    case Done =>
    case Then(step, rest) => KeptMeansSame(retain, Apply(retain, t, step), rest, from);
    case Attempt(_, rest) => KeptMeansSame(retain, t, rest, from);
  }
}
