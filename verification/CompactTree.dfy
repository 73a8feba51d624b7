// Building the finished tree in place (compact_sink.go, tree): kept records move
// down over the record array, and child and field lists are renamed into arrays
// whose sizes were counted beforehand. The result is the reachable part of the
// builder's graph under its renumbering.
module CompactTree {
  import opened Chars
  import opened Reachability
  import opened SinkHistory
  import opened ErrorTables

  // A node record: its own data, and where its lists are.
  datatype Record<D> = Record(data: D, childStart: nat, childCount: nat, fieldStart: nat, fieldCount: nat)

  datatype Tree<D> = Tree(nodes: seq<Record<D>>, children: seq<nat>, fields: seq<Field>, root: nat)

  function Renamed(ids: seq<nat>, marked: set<nat>): (r: seq<nat>)
    ensures |r| == |ids| && forall k | 0 <= k < |r| :: r[k] == Rank(marked, ids[k])
  {
    seq(|ids|, k requires 0 <= k < |ids| => Rank(marked, ids[k]))
  }

  function RenamedFields(fields: seq<Field>, marked: set<nat>): (r: seq<Field>)
    ensures |r| == |fields| && forall k | 0 <= k < |r| :: r[k] == Field(fields[k].id, Rank(marked, fields[k].node))
  {
    seq(|fields|, k requires 0 <= k < |fields| => Field(fields[k].id, Rank(marked, fields[k].node)))
  }

  // Every child id is a live node.
  ghost predicate Sound(g: Graph) {
    forall id, child | 0 <= id < |g| && child in g[id] :: Live(g, child)
  }

  ghost predicate ChildrenMarked(g: Graph, marked: set<nat>) {
    forall id: nat | id in marked && id < |g| :: AllMarked(g[id], marked)
  }

  ghost predicate AllMarked(ids: seq<nat>, marked: set<nat>) { forall k | 0 <= k < |ids| :: ids[k] in marked }

  // The record of kept node `id`, with the windows its lists are given.
  function NewRecord<D>(g: Graph, fields: seq<seq<Field>>, marked: set<nat>, old_: Record<D>, id: nat): Record<D>
    requires id < |g| == |fields|
  {
    Record(old_.data, ChildrenBefore(g, marked, id), |g[id]|,
           FieldsBefore(fields, marked, id), |Surviving(fields[id], marked)|)
  }

  // The arrays hold the lists of every kept node before `id`.
  ghost predicate ChildrenWritten(children: seq<nat>, g: Graph, marked: set<nat>, id: nat)
    requires id <= |g|
  {
    forall j: nat | j < id && j in marked :: ChildrenAt(children, g, marked, j)
  }

  ghost predicate ChildrenAt(children: seq<nat>, g: Graph, marked: set<nat>, j: nat)
    requires j < |g|
  {
    var start := ChildrenBefore(g, marked, j);
    start + |g[j]| <= |children| && children[start..start + |g[j]|] == Renamed(g[j], marked)
  }

  ghost predicate FieldsWritten(out: seq<Field>, fields: seq<seq<Field>>, marked: set<nat>, id: nat)
    requires id <= |fields|
  {
    forall j: nat | j < id && j in marked :: FieldsAt(out, fields, marked, j)
  }

  ghost predicate FieldsAt(out: seq<Field>, fields: seq<seq<Field>>, marked: set<nat>, j: nat)
    requires j < |fields|
  {
    var start, kept := FieldsBefore(fields, marked, j), Surviving(fields[j], marked);
    start + |kept| <= |out| && out[start..start + |kept|] == RenamedFields(kept, marked)
  }

  // ----- filling the arrays -------------------------------------------------------------

  method WriteChildren(out: array<nat>, pos: nat, ids: seq<nat>, remap: seq<nat>, ghost marked: set<nat>)
    requires pos + |ids| <= out.Length && Numbers(remap, marked)
    requires forall k | 0 <= k < |ids| :: ids[k] in marked && ids[k] < |remap|
    modifies out
    ensures out[..pos] == old(out[..pos]) && out[pos..pos + |ids|] == Renamed(ids, marked)
  {
    for k := 0 to |ids|
      invariant out[..pos] == old(out[..pos])
      invariant forall i | 0 <= i < k :: out[pos + i] == Rank(marked, ids[i])
    {
      out[pos + k] := remap[ids[k]] - 1;
    }
  }

  method WriteFields(out: array<Field>, pos: nat, fields: seq<Field>, remap: seq<nat>, ghost marked: set<nat>)
    returns (end: nat)
    requires pos + |Surviving(fields, marked)| <= out.Length
    requires Numbers(remap, marked)
    modifies out
    ensures end == pos + |Surviving(fields, marked)|
    ensures out[..pos] == old(out[..pos]) && out[pos..end] == RenamedFields(Surviving(fields, marked), marked)
  {
    end := pos;
    for k := 0 to |fields|
      invariant end == pos + |Surviving(fields[..k], marked)|
      invariant out[..pos] == old(out[..pos])
      invariant end <= out.Length && out[pos..end] == RenamedFields(Surviving(fields[..k], marked), marked)
    {
      var entry := fields[k];
      SurvivingPrefix(fields, marked, k + 1);
      assert fields[..k + 1][..k] == fields[..k];
      if entry.node >= |remap| || remap[entry.node] == 0 { continue; }
      ghost var before := out[pos..end];
      out[end] := Field(entry.id, remap[entry.node] - 1);
      end := end + 1;
      assert out[pos..end] == before + [Field(entry.id, Rank(marked, entry.node))];
    }
    assert fields[..|fields|] == fields;
  }

  lemma {:induction false} SurvivingPrefix(fields: seq<Field>, marked: set<nat>, k: nat)
    requires k <= |fields|
    ensures |Surviving(fields[..k], marked)| <= |Surviving(fields, marked)|
    decreases |fields| - k
  {
    if k == |fields| {
      assert fields[..k] == fields;
    } else {
      SurvivingPrefix(fields, marked, k + 1);
      assert fields[..k + 1][..k] == fields[..k];
    }
  }

  // ----- the finished tree ---------------------------------------------------------------

  lemma KeptClosed(marked: set<nat>, g: Graph, root: nat)
    requires IsKept(marked, g, root) && Sound(g)
    ensures ChildrenMarked(g, marked) && 0 !in marked && AllBelow(marked, |g|)
  {
    forall id: nat | id in marked && id < |g|
      ensures AllMarked(g[id], marked)
    {
      forall k | 0 <= k < |g[id]| ensures g[id][k] in marked {
        assert g[id][k] in g[id];
        ReachableStep(g, root, id, g[id][k]);
      }
    }
  }

  ghost predicate Moved<D>(now: seq<Record<D>>, before: seq<Record<D>>, g: Graph, fields: seq<seq<Field>>,
                           marked: set<nat>, id: nat)
    requires |now| == |before| == |g| == |fields| && id <= |g|
  {
    forall j: nat | j < id && j in marked ::
      Number(marked, j) < |now| && now[Number(marked, j)] == NewRecord(g, fields, marked, before[j], j)
  }

  // A record moves down without touching one that is still to be read.
  lemma MoveOne<D>(now: seq<Record<D>>, now': seq<Record<D>>, before: seq<Record<D>>, g: Graph,
                   fields: seq<seq<Field>>, marked: set<nat>, id: nat)
    requires |now| == |before| == |g| == |fields| && id < |g| && id in marked && 0 !in marked
    requires Moved(now, before, g, fields, marked, id) && now[id..] == before[id..]
    requires Number(marked, id) <= id
    requires now' == now[Number(marked, id) := NewRecord(g, fields, marked, before[id], id)]
    ensures Moved(now', before, g, fields, marked, id + 1) && now'[id + 1..] == before[id + 1..]
  {
    forall j: nat | j < id && j in marked ensures Number(marked, j) < Number(marked, id) {
      NumberIncreasing(marked, j, id);
    }
    assert now'[id + 1..] == now[id..][1..];
  }

  lemma NumberFits(marked: set<nat>, id: nat)
    requires id in marked && 0 !in marked
    ensures 0 < Number(marked, id) <= id
  {
    RankBelow(marked, id);
  }

  ghost predicate IsReachablePart<D>(tree: Tree<D>, before: seq<Record<D>>, g: Graph, fields: seq<seq<Field>>,
                                     root: nat, marked: set<nat>)
    requires |before| == |g| == |fields|
  {
    && ChildrenMarked(g, marked) && root in marked && tree.root == Rank(marked, root) && AllBelow(marked, |g|)
    && |tree.nodes| == Rank(marked, |g|)
    && |tree.children| == ChildrenBefore(g, marked, |g|)
    && |tree.fields| == FieldsBefore(fields, marked, |g|)
    && (forall id: nat | id in marked && id < |g| :: NodeAt(tree, before, g, fields, marked, id))
    && ChildrenWritten(tree.children, g, marked, |g|)
    && FieldsWritten(tree.fields, fields, marked, |g|)
  }

  ghost predicate AllBelow(marked: set<nat>, n: nat) {
    forall id: nat | id in marked :: id < n
  }

  ghost predicate NodeAt<D>(tree: Tree<D>, before: seq<Record<D>>, g: Graph, fields: seq<seq<Field>>,
                            marked: set<nat>, id: nat)
    requires id < |before| == |g| == |fields|
  {
    Rank(marked, id) < |tree.nodes| && tree.nodes[Rank(marked, id)] == NewRecord(g, fields, marked, before[id], id)
  }

  lemma SamePart<T>(a: seq<T>, b: seq<T>, n: nat, i: nat, j: nat)
    requires i <= j <= n <= |a| && n <= |b| && a[..n] == b[..n]
    ensures a[i..j] == b[i..j]
  {
    assert a[i..j] == a[..n][i..j] && b[i..j] == b[..n][i..j];
  }

  lemma ChildListKept(children: seq<nat>, children': seq<nat>, g: Graph, marked: set<nat>, j: nat, n: nat)
    requires j < |g| && ChildrenAt(children, g, marked, j) && ChildrenBefore(g, marked, j) + |g[j]| <= n
    requires n <= |children| == |children'| && children'[..n] == children[..n]
    ensures ChildrenAt(children', g, marked, j)
  {
    hide ChildrenBefore, Renamed;
    var c := ChildrenBefore(g, marked, j);
    SamePart(children', children, n, c, c + |g[j]|);
  }

  lemma ChildrenBeforeNext(g: Graph, marked: set<nat>, j: nat, id: nat)
    requires j < id <= |g| && j in marked
    ensures ChildrenBefore(g, marked, j) + |g[j]| <= ChildrenBefore(g, marked, id)
  {
    ChildrenBeforeMonotone(g, marked, j + 1, id);
  }

  lemma ChildrenKept(children: seq<nat>, children': seq<nat>, g: Graph, marked: set<nat>, id: nat)
    requires id < |g| && id in marked && |children'| == |children| && ChildrenBefore(g, marked, id) <= |children|
    requires ChildrenWritten(children, g, marked, id) && ChildrenAt(children', g, marked, id)
    requires children'[..ChildrenBefore(g, marked, id)] == children[..ChildrenBefore(g, marked, id)]
    ensures ChildrenWritten(children', g, marked, id + 1)
  {
    hide ChildrenBefore, ChildrenAt;
    forall j: nat | j < id && j in marked ensures ChildrenAt(children', g, marked, j) {
      ChildrenBeforeNext(g, marked, j, id);
      ChildListKept(children, children', g, marked, j, ChildrenBefore(g, marked, id));
    }
  }

  lemma FieldListKept(out: seq<Field>, out': seq<Field>, fields: seq<seq<Field>>, marked: set<nat>, j: nat, n: nat)
    requires j < |fields| && FieldsAt(out, fields, marked, j)
    requires FieldsBefore(fields, marked, j) + |Surviving(fields[j], marked)| <= n
    requires n <= |out| == |out'| && out'[..n] == out[..n]
    ensures FieldsAt(out', fields, marked, j)
  {
    hide FieldsBefore, Surviving, RenamedFields;
    var f := FieldsBefore(fields, marked, j);
    SamePart(out', out, n, f, f + |Surviving(fields[j], marked)|);
  }

  lemma FieldsBeforeNext(fields: seq<seq<Field>>, marked: set<nat>, j: nat, id: nat)
    requires j < id <= |fields| && j in marked
    ensures FieldsBefore(fields, marked, j) + |Surviving(fields[j], marked)| <= FieldsBefore(fields, marked, id)
  {
    hide Surviving;
    FieldsBeforeMonotone(fields, marked, j + 1, id);
  }

  lemma FieldsKept(out: seq<Field>, out': seq<Field>, fields: seq<seq<Field>>, marked: set<nat>, id: nat)
    requires id < |fields| && id in marked && |out'| == |out| && FieldsBefore(fields, marked, id) <= |out|
    requires FieldsWritten(out, fields, marked, id) && FieldsAt(out', fields, marked, id)
    requires out'[..FieldsBefore(fields, marked, id)] == out[..FieldsBefore(fields, marked, id)]
    ensures FieldsWritten(out', fields, marked, id + 1)
  {
    hide FieldsBefore, FieldsAt;
    forall j: nat | j < id && j in marked ensures FieldsAt(out', fields, marked, j) {
      FieldsBeforeNext(fields, marked, j, id);
      FieldListKept(out, out', fields, marked, j, FieldsBefore(fields, marked, id));
    }
  }

  method CopyLists(children: array<nat>, out: array<Field>, g: Graph, fields: seq<seq<Field>>, remap: seq<nat>,
                   id: nat, childPos: nat, fieldPos: nat, ghost marked: set<nat>) returns (childEnd: nat, fieldEnd: nat)
    requires id < |g| == |fields| == |remap| && id in marked && ChildrenMarked(g, marked)
    requires Numbers(remap, marked)
    requires children.Length == ChildrenBefore(g, marked, |g|) && out.Length == FieldsBefore(fields, marked, |g|)
    requires childPos == ChildrenBefore(g, marked, id) && fieldPos == FieldsBefore(fields, marked, id)
    requires ChildrenWritten(children[..], g, marked, id) && FieldsWritten(out[..], fields, marked, id)
    modifies children, out
    ensures childEnd == ChildrenBefore(g, marked, id + 1) && fieldEnd == FieldsBefore(fields, marked, id + 1)
    ensures ChildrenWritten(children[..], g, marked, id + 1) && FieldsWritten(out[..], fields, marked, id + 1)
  {
    ChildrenBeforeMonotone(g, marked, id + 1, |g|);
    FieldsBeforeMonotone(fields, marked, id + 1, |g|);
    ghost var children0, out0 := children[..], out[..];
    assert AllMarked(g[id], marked);
    WriteChildren(children, childPos, g[id], remap, marked);
    childEnd := childPos + |g[id]|;
    fieldEnd := WriteFields(out, fieldPos, fields[id], remap, marked);
    assert children[..][..childPos] == children[..childPos] && children0[..childPos] == old(children[..childPos]);
    assert out[..][..fieldPos] == out[..fieldPos] && out0[..fieldPos] == old(out[..fieldPos]);
    assert children[..][childPos..childEnd] == children[childPos..childEnd];
    assert out[..][fieldPos..fieldEnd] == out[fieldPos..fieldEnd];
    ChildrenKept(children0, children[..], g, marked, id);
    FieldsKept(out0, out[..], fields, marked, id);
  }

  // Puts the record of a kept node at its new position, with the windows of its lists.
  method PlaceRecord<D>(records: array<Record<D>>, mapped: nat, id: nat, childStart: nat, childCount: nat,
                        fieldStart: nat, fieldCount: nat)
    requires 0 < mapped <= id < records.Length
    modifies records
    ensures records[..] == old(records[..])[mapped :=
              Record(old(records[id]).data, childStart, childCount, fieldStart, fieldCount)]
  {
    if mapped != id {
      records[mapped] := records[id];
    }
    records[mapped] := Record(records[mapped].data, childStart, childCount, fieldStart, fieldCount);
  }

  lemma MappedIfMarked(remap: seq<nat>, marked: set<nat>, id: nat)
    requires Numbers(remap, marked) && id < |remap|
    ensures remap[id] == 0 <==> id !in marked
    ensures id in marked ==> remap[id] == Rank(marked, id) + 1
  {
  }

  method BuildTree<D>(records: array<Record<D>>, g: Graph, fields: seq<seq<Field>>, mishaps: seq<Option<Mishap>>,
                      root: nat) returns (tree: Tree<D>, faults: ErrorTable, ghost marked: set<nat>)
    requires records.Length == |g| == |fields| == |mishaps| && Sound(g) && root < |g|
    modifies records
    ensures root == 0 ==> tree == Tree([], [], [], 0) && faults == NO_ERRORS
    ensures root != 0 ==> IsKept(marked, g, root)
    ensures root != 0 ==> IsReachablePart(tree, old(records[..]), g, fields, root, marked)
    ensures root != 0 ==> faults == ErrorsBefore(mishaps, marked, |mishaps|)
  {
    hide Built, IsKept, ChildrenMarked, IsReachablePart, Rank, Reachable, Sound, ChildrenBefore, FieldsBefore, Numbers;
    if root == 0 { return Tree([], [], [], 0), NO_ERRORS, {}; }
    faults := NO_ERRORS;
    var remap, nodeCount, childCount, fieldCount;
    remap, nodeCount, childCount, fieldCount, marked := ReachableNodes(g, fields, root);
    KeptClosed(marked, g, root);
    var children := new nat[childCount](_ => 0);
    var out := new Field[fieldCount](_ => Field(0, 0));
    ghost var before := records[..];
    var childPos, fieldPos := 0, 0;
    RootKept(g, root);
    RankBelow(marked, |g|);
    RemapRoot(remap, marked, root);
    BuiltStarts(records[..], children[..], out[..], g, fields, marked);
    for id := 1 to |g|
      invariant Built(records[..], children[..], out[..], before, g, fields, marked, id)
      invariant childPos == ChildrenBefore(g, marked, id) && fieldPos == FieldsBefore(fields, marked, id)
      invariant faults == ErrorsBefore(mishaps, marked, id)
    {
      MappedIfMarked(remap, marked, id);
      if remap[id] == 0 {
        BuiltSkips(records[..], children[..], out[..], before, g, fields, marked, id);
      } else {
        childPos, fieldPos := KeepNode(records, children, out, before, g, fields, remap, id, childPos, fieldPos,
            marked);
        if mishaps[id].Some? { faults := WithError(faults, remap[id] - 1, mishaps[id].value); }
      }
    }
    tree := Tree(records[1..nodeCount + 1], children[..], out[..], remap[root] - 1);
    assert records[1..nodeCount + 1] == records[..][1..nodeCount + 1];
    MovedIsPart(records[..], before, g, fields, root, marked, tree);
  }

  // The state of the arrays when every id below `id` has been dealt with.
  ghost predicate Built<D>(now: seq<Record<D>>, children: seq<nat>, out: seq<Field>, before: seq<Record<D>>,
                           g: Graph, fields: seq<seq<Field>>, marked: set<nat>, id: nat)
  {
    && |now| == |before| == |g| == |fields| && id <= |g|
    && now[id..] == before[id..] && Moved(now, before, g, fields, marked, id)
    && ChildrenWritten(children, g, marked, id) && FieldsWritten(out, fields, marked, id)
    && |children| == ChildrenBefore(g, marked, |g|) && |out| == FieldsBefore(fields, marked, |g|)
  }

  lemma BuiltStarts<D>(now: seq<Record<D>>, children: seq<nat>, out: seq<Field>, g: Graph,
                       fields: seq<seq<Field>>, marked: set<nat>)
    requires |now| == |g| == |fields| && 0 !in marked && |g| > 0
    requires |children| == ChildrenBefore(g, marked, |g|) && |out| == FieldsBefore(fields, marked, |g|)
    ensures Built(now, children, out, now, g, fields, marked, 1)
    ensures ChildrenBefore(g, marked, 1) == 0 && FieldsBefore(fields, marked, 1) == 0
  {
    assert ChildrenBefore(g, marked, 0) == 0 && FieldsBefore(fields, marked, 0) == 0;
  }

  lemma BuiltSkips<D>(now: seq<Record<D>>, children: seq<nat>, out: seq<Field>, before: seq<Record<D>>,
                      g: Graph, fields: seq<seq<Field>>, marked: set<nat>, id: nat)
    requires Built(now, children, out, before, g, fields, marked, id) && id < |g| && id !in marked
    ensures Built(now, children, out, before, g, fields, marked, id + 1)
    ensures ChildrenBefore(g, marked, id + 1) == ChildrenBefore(g, marked, id)
    ensures FieldsBefore(fields, marked, id + 1) == FieldsBefore(fields, marked, id)
  {
    assert now[id + 1..] == now[id..][1..] && before[id + 1..] == before[id..][1..];
  }

  method KeepNode<D>(records: array<Record<D>>, children: array<nat>, out: array<Field>, ghost before: seq<Record<D>>,
                     g: Graph, fields: seq<seq<Field>>, remap: seq<nat>, id: nat, childPos: nat, fieldPos: nat,
                     ghost marked: set<nat>) returns (childEnd: nat, fieldEnd: nat)
    requires Built(records[..], children[..], out[..], before, g, fields, marked, id)
    requires id < |g| == |remap| && id in marked && 0 !in marked && ChildrenMarked(g, marked)
    requires Numbers(remap, marked)
    requires childPos == ChildrenBefore(g, marked, id) && fieldPos == FieldsBefore(fields, marked, id)
    modifies records, children, out
    ensures Built(records[..], children[..], out[..], before, g, fields, marked, id + 1)
    ensures childEnd == ChildrenBefore(g, marked, id + 1) && fieldEnd == FieldsBefore(fields, marked, id + 1)
  {
    ghost var now := records[..];
    assert now[id] == before[id] by { assert now[id..][0] == before[id..][0]; }
    NumberFits(marked, id);
    childEnd, fieldEnd := CopyLists(children, out, g, fields, remap, id, childPos, fieldPos, marked);
    hide ChildrenWritten, FieldsWritten, Moved, ChildrenMarked;
    PlaceRecord(records, remap[id], id, childPos, |g[id]|, fieldPos, fieldEnd - fieldPos);
    MoveOne(now, records[..], before, g, fields, marked, id);
  }

  lemma RemapRoot(remap: seq<nat>, marked: set<nat>, root: nat)
    requires Numbers(remap, marked) && root in marked
    ensures root < |remap| && remap[root] == Rank(marked, root) + 1
  {
  }

  lemma RootKept(g: Graph, root: nat)
    requires Live(g, root)
    ensures Reachable(g, root, root)
  {
    assert Path(g, [root]);
  }

  lemma MovedIsPart<D>(now: seq<Record<D>>, before: seq<Record<D>>, g: Graph, fields: seq<seq<Field>>, root: nat,
                       marked: set<nat>, tree: Tree<D>)
    requires Built(now, tree.children, tree.fields, before, g, fields, marked, |g|)
    requires ChildrenMarked(g, marked) && root in marked && root < |g| && 0 !in marked && AllBelow(marked, |g|)
    requires Rank(marked, |g|) + 1 <= |g|
    requires tree.nodes == now[1..Rank(marked, |g|) + 1] && tree.root == Rank(marked, root)
    ensures IsReachablePart(tree, before, g, fields, root, marked)
  {
    forall id: nat | id in marked && id < |g| ensures NodeAt(tree, before, g, fields, marked, id) {
      RankMonotone(marked, id, |g|);
      assert tree.nodes[Rank(marked, id)] == now[Number(marked, id)];
    }
  }

  // ----- what the finished tree means --------------------------------------------------------

  function ChildIndices<D>(tree: Tree<D>, n: nat): seq<nat>
    requires n < |tree.nodes| && tree.nodes[n].childStart + tree.nodes[n].childCount <= |tree.children|
  {
    tree.children[tree.nodes[n].childStart..tree.nodes[n].childStart + tree.nodes[n].childCount]
  }

  function FieldEntries<D>(tree: Tree<D>, n: nat): seq<Field>
    requires n < |tree.nodes| && tree.nodes[n].fieldStart + tree.nodes[n].fieldCount <= |tree.fields|
  {
    tree.fields[tree.nodes[n].fieldStart..tree.nodes[n].fieldStart + tree.nodes[n].fieldCount]
  }

  ghost predicate InRange(ids: seq<nat>, n: nat) {
    forall k | 0 <= k < |ids| :: ids[k] < n
  }

  // Renumbering is an isomorphism: the root is the renumbered root, and each reachable node has
  // a tree node with its data, its children in order, and its surviving fields, all renamed to
  // nodes of the tree.
  lemma TreeIsIsomorphic<D>(tree: Tree<D>, before: seq<Record<D>>, g: Graph, fields: seq<seq<Field>>, root: nat,
                            marked: set<nat>, id: nat)
    requires |before| == |g| == |fields| && IsReachablePart(tree, before, g, fields, root, marked)
    requires id in marked && id < |g|
    ensures tree.root == Rank(marked, root) < |tree.nodes|
    ensures var n := Rank(marked, id);
      && n < |tree.nodes| && tree.nodes[n].data == before[id].data
      && tree.nodes[n].childStart + tree.nodes[n].childCount <= |tree.children|
      && ChildIndices(tree, n) == Renamed(g[id], marked) && InRange(ChildIndices(tree, n), |tree.nodes|)
      && tree.nodes[n].fieldStart + tree.nodes[n].fieldCount <= |tree.fields|
      && FieldEntries(tree, n) == RenamedFields(Surviving(fields[id], marked), marked)
      && forall k | 0 <= k < |FieldEntries(tree, n)| :: FieldEntries(tree, n)[k].node < |tree.nodes|
  {
    assert NodeAt(tree, before, g, fields, marked, id);
    assert ChildrenAt(tree.children, g, marked, id) && FieldsAt(tree.fields, fields, marked, id);
    assert AllMarked(g[id], marked);
    RankInTree(marked, root, |g|);
    hide IsReachablePart, ChildrenBefore, FieldsBefore, Rank, Surviving;
    forall k | 0 <= k < |g[id]| ensures Rank(marked, g[id][k]) < Rank(marked, |g|) {
      RankInTree(marked, g[id][k], |g|);
    }
    var kept := Surviving(fields[id], marked);
    SurvivorsMarked(fields[id], marked);
    forall k | 0 <= k < |kept| ensures Rank(marked, kept[k].node) < Rank(marked, |g|) {
      RankInTree(marked, kept[k].node, |g|);
    }
  }

  lemma RankInTree(marked: set<nat>, id: nat, n: nat)
    requires id in marked && AllBelow(marked, n)
    ensures Rank(marked, id) < Rank(marked, n)
  {
    RankMonotone(marked, id, n);
  }

  lemma {:induction false} SurvivorsMarked(fields: seq<Field>, marked: set<nat>)
    ensures forall k | 0 <= k < |Surviving(fields, marked)| :: Surviving(fields, marked)[k].node in marked
  {
    if fields != [] { SurvivorsMarked(fields[..|fields| - 1], marked); }
  }

  // ... and each tree node comes from exactly one reachable node, in id order.
  lemma TreeNodeHasSource<D>(tree: Tree<D>, before: seq<Record<D>>, g: Graph, fields: seq<seq<Field>>, root: nat,
                             marked: set<nat>, n: nat) returns (id: nat)
    requires |before| == |g| == |fields| && IsReachablePart(tree, before, g, fields, root, marked)
    requires n < |tree.nodes|
    ensures id < |g| && id in marked && Rank(marked, id) == n
    ensures forall other: nat | other in marked && other != id :: Rank(marked, other) != n
  {
    assert |tree.nodes| == Rank(marked, |g|);
    hide IsReachablePart;
    id := NumberDense(marked, |g|, n + 1);
    forall other: nat | other in marked && other != id ensures Rank(marked, other) != n {
      if other < id {
        RankMonotone(marked, other, id);
      } else {
        RankMonotone(marked, id, other);
      }
    }
  }

  // ----- there is only one such tree ------------------------------------------------------------

  lemma {:induction false} ChildSlot(g: Graph, marked: set<nat>, n: nat, p: nat) returns (j: nat)
    requires n <= |g| && p < ChildrenBefore(g, marked, n)
    ensures j < n && j in marked && ChildrenBefore(g, marked, j) <= p < ChildrenBefore(g, marked, j) + |g[j]|
    decreases n
  {
    if p < ChildrenBefore(g, marked, n - 1) {
      j := ChildSlot(g, marked, n - 1, p);
    } else {
      j := n - 1;
    }
  }

  lemma {:induction false} FieldSlot(fields: seq<seq<Field>>, marked: set<nat>, n: nat, p: nat) returns (j: nat)
    requires n <= |fields| && p < FieldsBefore(fields, marked, n)
    ensures j < n && j in marked
    ensures FieldsBefore(fields, marked, j) <= p < FieldsBefore(fields, marked, j) + |Surviving(fields[j], marked)|
    decreases n
  {
    if p < FieldsBefore(fields, marked, n - 1) {
      j := FieldSlot(fields, marked, n - 1, p);
    } else {
      j := n - 1;
    }
  }

  lemma SameWindow<T>(a: seq<T>, b: seq<T>, i: nat, j: nat, p: nat)
    requires i <= p < j <= |a| && j <= |b| && a[i..j] == b[i..j]
    ensures a[p] == b[p]
  {
    assert a[p] == a[i..j][p - i] && b[p] == b[i..j][p - i];
  }

  // The reachable part of a graph is one tree, to the last index.
  lemma PartIsUnique<D>(a: Tree<D>, b: Tree<D>, before: seq<Record<D>>, g: Graph, fields: seq<seq<Field>>,
                        root: nat, marked: set<nat>)
    requires |before| == |g| == |fields|
    requires IsReachablePart(a, before, g, fields, root, marked) && IsReachablePart(b, before, g, fields, root, marked)
    ensures a == b
  {
    hide ChildrenBefore, FieldsBefore, Surviving, Renamed, RenamedFields, NewRecord, Rank, ChildrenMarked;
    forall n: nat | n < |a.nodes| ensures a.nodes[n] == b.nodes[n] {
      var id := TreeNodeHasSource(a, before, g, fields, root, marked, n);
      assert NodeAt(a, before, g, fields, marked, id) && NodeAt(b, before, g, fields, marked, id);
    }
    forall p: nat | p < |a.children| ensures a.children[p] == b.children[p] {
      var j := ChildSlot(g, marked, |g|, p);
      assert ChildrenAt(a.children, g, marked, j) && ChildrenAt(b.children, g, marked, j);
      var start := ChildrenBefore(g, marked, j);
      SameWindow(a.children, b.children, start, start + |g[j]|, p);
    }
    forall p: nat | p < |a.fields| ensures a.fields[p] == b.fields[p] {
      var j := FieldSlot(fields, marked, |g|, p);
      assert FieldsAt(a.fields, fields, marked, j) && FieldsAt(b.fields, fields, marked, j);
      var start := FieldsBefore(fields, marked, j);
      SameWindow(a.fields, b.fields, start, start + |Surviving(fields[j], marked)|, p);
    }
  }
}
