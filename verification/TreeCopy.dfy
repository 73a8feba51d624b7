// Copying a tree into another one through a table of ids (reparse.go,
// compactTreeCopier): any graph is copied, shared or cyclic, node by node.
module TreeCopy {
  import opened Reachability
  import opened CompactTree

  // Every list of the tree lies in the tree's arrays.
  ghost predicate Windows<D>(t: Tree<D>) {
    forall id | 0 <= id < |t.nodes| :: WindowsAt(t, id)
  }

  ghost predicate WindowsAt<D>(t: Tree<D>, id: nat)
    requires id < |t.nodes|
  {
    var r := t.nodes[id];
    r.childStart + r.childCount <= |t.children| && r.fieldStart + r.fieldCount <= |t.fields|
  }

  function ChildList<D>(t: Tree<D>, id: nat): seq<nat>
    requires id < |t.nodes| && WindowsAt(t, id)
  {
    t.children[t.nodes[id].childStart..t.nodes[id].childStart + t.nodes[id].childCount]
  }

  function FieldList<D>(t: Tree<D>, id: nat): seq<Field>
    requires id < |t.nodes| && WindowsAt(t, id)
  {
    t.fields[t.nodes[id].fieldStart..t.nodes[id].fieldStart + t.nodes[id].fieldCount]
  }

  // id has `to` among its children or fields.
  ghost predicate Edge<D>(t: Tree<D>, id: nat, to: nat) {
    id < |t.nodes| && WindowsAt(t, id) && (to in ChildList(t, id) || exists e | e in FieldList(t, id) :: e.node == to)
  }

  // No edge leads out of the tree.
  ghost predicate Closed<D>(t: Tree<D>) {
    forall id: nat, to: nat | Edge(t, id, to) :: to < |t.nodes|
  }

  ghost predicate Walk<D>(t: Tree<D>, p: seq<nat>) {
    p != [] && forall k | 0 < k < |p| :: Edge(t, p[k - 1], p[k])
  }

  ghost predicate Reaches<D>(t: Tree<D>, root: nat, id: nat) {
    exists p :: Walk(t, p) && p[0] == root && p[|p| - 1] == id
  }

  lemma ReachesItself<D>(t: Tree<D>, root: nat)
    ensures Reaches(t, root, root)
  {
    assert Walk(t, [root]);
  }

  lemma ReachesNext<D>(t: Tree<D>, root: nat, id: nat, to: nat)
    requires Reaches(t, root, id) && Edge(t, id, to)
    ensures Reaches(t, root, to)
  {
    var p :| Walk(t, p) && p[0] == root && p[|p| - 1] == id;
    assert Walk(t, p + [to]);
  }

  // ----- what a finished copy of a node looks like -------------------------------------------

  ghost predicate Listed(out: seq<nat>, start: nat, list: seq<nat>, m: map<nat, nat>) {
    && start + |list| <= |out|
    && forall k | 0 <= k < |list| :: list[k] in m && out[start + k] == m[list[k]]
  }

  ghost predicate FieldsListed(out: seq<Field>, start: nat, list: seq<Field>, m: map<nat, nat>) {
    && start + |list| <= |out|
    && forall k | 0 <= k < |list| :: list[k].node in m && out[start + k] == Field(list[k].id, m[list[k].node])
  }

  // The record a node was given has its data, moved, and its lists, renamed.
  ghost predicate CopiedAt<D>(t: Tree<D>, move: D -> D, m: map<nat, nat>, id: nat, out: Tree<D>) {
    && id in m && id < |t.nodes| && WindowsAt(t, id) && m[id] < |out.nodes|
    && var r := out.nodes[m[id]];
    && r.data == move(t.nodes[id].data)
    && r.childCount == t.nodes[id].childCount && Listed(out.children, r.childStart, ChildList(t, id), m)
    && r.fieldCount == t.nodes[id].fieldCount && FieldsListed(out.fields, r.fieldStart, FieldList(t, id), m)
  }

  ghost predicate Injective(m: map<nat, nat>) {
    forall a, b | a in m && b in m && m[a] == m[b] :: a == b
  }

  // All mapped nodes are copied but the open ones, on which the copying is still at work.
  ghost predicate Copied<D>(t: Tree<D>, move: D -> D, m: map<nat, nat>, open: set<nat>, out: Tree<D>) {
    && open <= m.Keys && Injective(m)
    && (forall id | id in m :: id < |t.nodes| && m[id] < |out.nodes|)
    && (forall id | id in m && id !in open :: CopiedAt(t, move, m, id, out))
  }

  // What was there stays as it is.
  ghost predicate Grown<D>(before: Tree<D>, after: Tree<D>, m: map<nat, nat>, n: map<nat, nat>) {
    && before.nodes <= after.nodes && before.children <= after.children && before.fields <= after.fields
    && m.Keys <= n.Keys && (forall id | id in m :: n[id] == m[id])
  }

  // Newly mapped nodes got new numbers, all of them used.
  ghost predicate Fresh<D>(t: Tree<D>, root: nat, before: nat, after: nat, m: map<nat, nat>, n: map<nat, nat>) {
    && (forall id | id in n && id !in m :: before <= n[id] < after && Reaches(t, root, id))
    && (forall k | before <= k < after :: Used(m, n, k))
  }

  ghost predicate Used(m: map<nat, nat>, n: map<nat, nat>, k: nat) {
    exists id | id in n && id !in m :: n[id] == k
  }

  lemma GrownCopied<D>(t: Tree<D>, move: D -> D, m: map<nat, nat>, n: map<nat, nat>, id: nat, out: Tree<D>,
                       next: Tree<D>)
    requires CopiedAt(t, move, m, id, out) && Grown(out, next, m, n)
    ensures CopiedAt(t, move, n, id, next)
  {
    var r := out.nodes[m[id]];
    assert next.nodes[n[id]] == r;
    var c, f := ChildList(t, id), FieldList(t, id);
    forall k | 0 <= k < |c| ensures c[k] in n && next.children[r.childStart + k] == n[c[k]] {
      assert c[k] in m && next.children[r.childStart + k] == out.children[r.childStart + k];
    }
    forall k | 0 <= k < |f|
      ensures f[k].node in n && next.fields[r.fieldStart + k] == Field(f[k].id, n[f[k].node])
    {
      assert f[k].node in m && next.fields[r.fieldStart + k] == out.fields[r.fieldStart + k];
    }
  }

  // Opening a node: it gets the next number and a record yet to be filled in.
  lemma OpenNode<D>(t: Tree<D>, move: D -> D, m: map<nat, nat>, open: set<nat>, out: Tree<D>, id: nat, blank: Record<D>)
    requires Copied(t, move, m, open, out) && id !in m && id < |t.nodes|
    ensures var n := m[id := |out.nodes|];
            var next := out.(nodes := out.nodes + [blank]);
            Copied(t, move, n, open + {id}, next) && Grown(out, next, m, n)
  {
    var n := m[id := |out.nodes|];
    var next := out.(nodes := out.nodes + [blank]);
    forall j | j in n && j !in open + {id} ensures CopiedAt(t, move, n, j, next) {
      GrownCopied(t, move, m, n, j, out, next);
    }
  }

  function Closing<D>(out: Tree<D>, at: nat, data: D, c: seq<nat>, f: seq<Field>): Tree<D>
    requires at < |out.nodes|
  {
    Tree(out.nodes[at := Record(data, |out.children|, |c|, |out.fields|, |f|)], out.children + c, out.fields + f,
        out.root)
  }

  // Closing it: its lists are appended and its record written.
  lemma CloseNode<D>(t: Tree<D>, move: D -> D, m: map<nat, nat>, open: set<nat>, out: Tree<D>, id: nat, c: seq<nat>,
                     f: seq<Field>)
    requires Copied(t, move, m, open + {id}, out) && id in m && id !in open && WindowsAt(t, id)
    requires |c| == |ChildList(t, id)| && Listed(c, 0, ChildList(t, id), m)
    requires |f| == |FieldList(t, id)| && FieldsListed(f, 0, FieldList(t, id), m)
    ensures Copied(t, move, m, open, Closing(out, m[id], move(t.nodes[id].data), c, f))
  {
    var next := Closing(out, m[id], move(t.nodes[id].data), c, f);
    forall j | j in m && j !in open ensures CopiedAt(t, move, m, j, next) {
      if j == id {
        var cs, fs := ChildList(t, id), FieldList(t, id);
        forall k | 0 <= k < |cs| ensures cs[k] in m && next.children[|out.children| + k] == m[cs[k]] {
          assert c[0 + k] == m[cs[k]];
        }
        forall k | 0 <= k < |fs|
          ensures fs[k].node in m && next.fields[|out.fields| + k] == Field(fs[k].id, m[fs[k].node])
        {
          assert f[0 + k] == Field(fs[k].id, m[fs[k].node]);
        }
      } else {
        CopiedElsewhere(t, move, m, j, out, next, m[id]);
      }
    }
  }

  lemma CopiedElsewhere<D>(t: Tree<D>, move: D -> D, m: map<nat, nat>, id: nat, out: Tree<D>, next: Tree<D>, at: nat)
    requires CopiedAt(t, move, m, id, out) && m[id] != at && at < |out.nodes| == |next.nodes|
    requires forall k | 0 <= k < |out.nodes| && k != at :: next.nodes[k] == out.nodes[k]
    requires out.children <= next.children && out.fields <= next.fields
    ensures CopiedAt(t, move, m, id, next)
  {
    var r := out.nodes[m[id]];
    var c, f := ChildList(t, id), FieldList(t, id);
    forall k | 0 <= k < |c| ensures c[k] in m && next.children[r.childStart + k] == m[c[k]] {
      assert next.children[r.childStart + k] == out.children[r.childStart + k];
    }
    forall k | 0 <= k < |f| ensures f[k].node in m && next.fields[r.fieldStart + k] == Field(f[k].id, m[f[k].node]) {
      assert next.fields[r.fieldStart + k] == out.fields[r.fieldStart + k];
    }
  }

  // ----- the copier ------------------------------------------------------------------------------

  class Ids {
    var ids: map<nat, nat>

    constructor ()
      ensures ids == map[]
    {
      ids := map[];
    }
  }

  ghost function Unmapped<D>(t: Tree<D>, m: map<nat, nat>): nat {
    |IdsBelow(|t.nodes|) - m.Keys|
  }

  lemma OneLess<D>(t: Tree<D>, m: map<nat, nat>, n: map<nat, nat>, id: nat)
    requires m.Keys <= n.Keys && id in n && id !in m && id < |t.nodes|
    ensures Unmapped(t, n) < Unmapped(t, m)
  {
    var below := IdsBelow(|t.nodes|);
    assert below - n.Keys <= below - m.Keys - {id};
    SubsetSmaller(below - n.Keys, below - m.Keys - {id});
    assert below - m.Keys == (below - m.Keys - {id}) + {id};
  }

  lemma NoMore<D>(t: Tree<D>, m: map<nat, nat>, n: map<nat, nat>)
    requires m.Keys <= n.Keys
    ensures Unmapped(t, n) <= Unmapped(t, m)
  {
    SubsetSmaller(IdsBelow(|t.nodes|) - n.Keys, IdsBelow(|t.nodes|) - m.Keys);
  }

  lemma FreshJoins<D>(t: Tree<D>, root: nat, a: nat, b: nat, c: nat, m: map<nat, nat>, n: map<nat, nat>,
                      o: map<nat, nat>)
    requires Fresh(t, root, a, b, m, n) && Fresh(t, root, b, c, n, o) && a <= b <= c
    requires m.Keys <= n.Keys <= o.Keys && forall id | id in n :: o[id] == n[id]
    ensures Fresh(t, root, a, c, m, o)
  {
    forall k | a <= k < c ensures Used(m, o, k) {
      if k < b {
        assert Used(m, n, k);
        var id :| id in n && id !in m && n[id] == k;
        assert o[id] == k;
      } else {
        assert Used(n, o, k);
      }
    }
  }

  lemma {:induction false} SubsetSmaller(a: set<nat>, b: set<nat>)
    requires a <= b
    ensures |a| <= |b|
  {
    assert b == a + (b - a);
  }

  class Copier<D> {
    var tree: Tree<D>

    constructor (tree: Tree<D>)
      ensures this.tree == tree
    {
      this.tree := tree;
    }

    // Ends on every graph: each node is unfilled once. Fails only at an edge out of the tree.
    method Copy(index: nat, from: Tree<D>, mapping: Ids, move: D -> D, ghost open: set<nat>, ghost root: nat)
      returns (mapped: nat, ok: bool)
      requires Windows(from) && Copied(from, move, mapping.ids, open, tree) && Reaches(from, root, index)
      modifies this, mapping
      ensures Closed(from) && index < |from.nodes| ==> ok
      ensures ok ==> Extended(from, move, open, root, old(tree), old(mapping.ids), tree, mapping.ids)
      ensures ok ==> index in mapping.ids && mapped == mapping.ids[index]
      decreases Unmapped(from, mapping.ids), 0
    {
      hide Windows, Closed, Copied, Extended, Reaches, Listed, FieldsListed;
      if index in mapping.ids {
        NothingCopied(from, move, open, root, tree, mapping.ids);
        return mapping.ids[index], true;
      }
      if index >= |from.nodes| { return 0, false; }
      WindowsHere(from, index);
      EdgesReached(from, root, index);
      EdgesInside(from, index);
      var node := from.nodes[index];
      mapped := |tree.nodes|;
      ghost var before, start := tree, mapping.ids;
      var blank := Record(node.data, 0, 0, 0, 0);
      OpenNode(from, move, start, open, before, index, blank);
      mapping.ids := mapping.ids[index := mapped];
      tree := tree.(nodes := tree.nodes + [blank]);
      ghost var unfilled, begun := tree, mapping.ids;
      OneLess(from, start, begun, index);
      var children, fields;
      children, ok := CopyChildren(ChildList(from, index), from, mapping, move, open + {index}, root);
      if !ok { return; }
      ghost var half, midway := tree, mapping.ids;
      ExtendedFacts(from, move, open + {index}, root, unfilled, begun, half, midway);
      OneLess(from, start, midway, index);
      fields, ok := CopyFields(FieldList(from, index), from, mapping, move, open + {index}, root);
      if !ok { return; }
      ghost var full, done := tree, mapping.ids;
      ListedStays(from, move, open + {index}, root, half, midway, full, done, children, ChildList(from, index));
      ExtendedJoins(from, move, open + {index}, root, unfilled, begun, half, midway, full, done);
      ExtendedFacts(from, move, open + {index}, root, unfilled, begun, full, done);
      FinishNode(from, move, open, root, before, start, index, blank, full, done, children, fields);
      tree := Tree(tree.nodes[mapped := Record(move(node.data), |tree.children|, |children|, |tree.fields|, |fields|)],
                   tree.children + children, tree.fields + fields, tree.root);
    }

    method CopyChildren(list: seq<nat>, from: Tree<D>, mapping: Ids, move: D -> D, ghost open: set<nat>,
                        ghost root: nat)
      returns (out: seq<nat>, ok: bool)
      requires Windows(from) && Copied(from, move, mapping.ids, open, tree)
      requires forall k | 0 <= k < |list| :: Reaches(from, root, list[k])
      modifies this, mapping
      ensures Closed(from) && (forall k | 0 <= k < |list| :: list[k] < |from.nodes|) ==> ok
      ensures ok ==> Extended(from, move, open, root, old(tree), old(mapping.ids), tree, mapping.ids)
      ensures ok ==> |out| == |list| && Listed(out, 0, list, mapping.ids)
      decreases Unmapped(from, mapping.ids), 1
    {
      hide Windows, Closed, Copied, Extended, Reaches, Unmapped;
      out, ok := [], true;
      ghost var before, start := tree, mapping.ids;
      NothingCopied(from, move, open, root, tree, mapping.ids);
      for k := 0 to |list|
        invariant ok && |out| == k
        invariant Extended(from, move, open, root, before, start, tree, mapping.ids)
        invariant Listed(out, 0, list[..k], mapping.ids)
      {
        ghost var now, ids := tree, mapping.ids;
        ExtendedFacts(from, move, open, root, before, start, now, ids);
        NoMore(from, start, ids);
        var next;
        next, ok := Copy(list[k], from, mapping, move, open, root);
        if !ok { return; }
        ListedMore(from, move, open, root, now, ids, tree, mapping.ids, out, list, k, next);
        ExtendedJoins(from, move, open, root, before, start, now, ids, tree, mapping.ids);
        out := out + [next];
      }
      assert list[..|list|] == list;
    }

    method CopyFields(list: seq<Field>, from: Tree<D>, mapping: Ids, move: D -> D, ghost open: set<nat>,
                      ghost root: nat)
      returns (out: seq<Field>, ok: bool)
      requires Windows(from) && Copied(from, move, mapping.ids, open, tree)
      requires forall k | 0 <= k < |list| :: Reaches(from, root, list[k].node)
      modifies this, mapping
      ensures Closed(from) && (forall k | 0 <= k < |list| :: list[k].node < |from.nodes|) ==> ok
      ensures ok ==> Extended(from, move, open, root, old(tree), old(mapping.ids), tree, mapping.ids)
      ensures ok ==> |out| == |list| && FieldsListed(out, 0, list, mapping.ids)
      decreases Unmapped(from, mapping.ids), 1
    {
      hide Windows, Closed, Copied, Extended, Reaches, Unmapped;
      out, ok := [], true;
      ghost var before, start := tree, mapping.ids;
      NothingCopied(from, move, open, root, tree, mapping.ids);
      for k := 0 to |list|
        invariant ok && |out| == k
        invariant Extended(from, move, open, root, before, start, tree, mapping.ids)
        invariant FieldsListed(out, 0, list[..k], mapping.ids)
      {
        ghost var now, ids := tree, mapping.ids;
        ExtendedFacts(from, move, open, root, before, start, now, ids);
        NoMore(from, start, ids);
        var next;
        next, ok := Copy(list[k].node, from, mapping, move, open, root);
        if !ok { return; }
        FieldsMore(from, move, open, root, now, ids, tree, mapping.ids, out, list, k, next);
        ExtendedJoins(from, move, open, root, before, start, now, ids, tree, mapping.ids);
        out := out + [Field(list[k].id, next)];
      }
      assert list[..|list|] == list;
    }
  }

  // From one state of the copying to a later one.
  ghost predicate Extended<D>(t: Tree<D>, move: D -> D, open: set<nat>, root: nat, before: Tree<D>, m: map<nat, nat>,
                              after: Tree<D>, n: map<nat, nat>)
  {
    Copied(t, move, n, open, after) && Grown(before, after, m, n) && Fresh(t, root, |before.nodes|, |after.nodes|, m, n)
  }

  lemma NothingCopied<D>(t: Tree<D>, move: D -> D, open: set<nat>, root: nat, out: Tree<D>, m: map<nat, nat>)
    requires Copied(t, move, m, open, out)
    ensures Extended(t, move, open, root, out, m, out, m)
  {
    hide Copied;
    NothingFresh(t, root, |out.nodes|, m);
  }

  lemma ExtendedFacts<D>(t: Tree<D>, move: D -> D, open: set<nat>, root: nat, before: Tree<D>, m: map<nat, nat>,
                         after: Tree<D>, n: map<nat, nat>)
    requires Extended(t, move, open, root, before, m, after, n)
    ensures Copied(t, move, n, open, after) && m.Keys <= n.Keys && (forall id | id in m :: n[id] == m[id])
    ensures |before.nodes| <= |after.nodes|
  {
    hide Copied, Fresh;
  }

  lemma ExtendedJoins<D>(t: Tree<D>, move: D -> D, open: set<nat>, root: nat, a: Tree<D>, m: map<nat, nat>,
                         b: Tree<D>, n: map<nat, nat>, c: Tree<D>, o: map<nat, nat>)
    requires Extended(t, move, open, root, a, m, b, n) && Extended(t, move, open, root, b, n, c, o)
    ensures Extended(t, move, open, root, a, m, c, o)
  {
    hide Copied, Fresh;
    FreshJoins(t, root, |a.nodes|, |b.nodes|, |c.nodes|, m, n, o);
  }

  lemma ListedStays<D>(t: Tree<D>, move: D -> D, open: set<nat>, root: nat, a: Tree<D>, m: map<nat, nat>,
                       b: Tree<D>, n: map<nat, nat>, out: seq<nat>, list: seq<nat>)
    requires Extended(t, move, open, root, a, m, b, n) && Listed(out, 0, list, m)
    ensures Listed(out, 0, list, n)
  {
    hide Copied, Fresh;
  }

  lemma ListedMore<D>(t: Tree<D>, move: D -> D, open: set<nat>, root: nat, a: Tree<D>, m: map<nat, nat>,
                      b: Tree<D>, n: map<nat, nat>, out: seq<nat>, list: seq<nat>, k: nat, next: nat)
    requires Extended(t, move, open, root, a, m, b, n) && k < |list| && |out| == k && Listed(out, 0, list[..k], m)
    requires list[k] in n && next == n[list[k]]
    ensures Listed(out + [next], 0, list[..k + 1], n)
  {
    hide Copied, Fresh;
    var more, l := out + [next], list[..k + 1];
    forall i | 0 <= i < k + 1 ensures l[i] in n && more[0 + i] == n[l[i]] {
      if i < k { assert list[..k][i] in m && out[0 + i] == m[list[..k][i]]; }
    }
  }

  lemma FieldsMore<D>(t: Tree<D>, move: D -> D, open: set<nat>, root: nat, a: Tree<D>, m: map<nat, nat>,
                      b: Tree<D>, n: map<nat, nat>, out: seq<Field>, list: seq<Field>, k: nat, next: nat)
    requires Extended(t, move, open, root, a, m, b, n) && k < |list| && |out| == k && FieldsListed(out, 0, list[..k], m)
    requires list[k].node in n && next == n[list[k].node]
    ensures FieldsListed(out + [Field(list[k].id, next)], 0, list[..k + 1], n)
  {
    hide Copied, Fresh;
    var more, l := out + [Field(list[k].id, next)], list[..k + 1];
    forall i | 0 <= i < k + 1 ensures l[i].node in n && more[0 + i] == Field(l[i].id, n[l[i].node]) {
      if i < k { assert list[..k][i].node in m && out[0 + i] == Field(list[..k][i].id, m[list[..k][i].node]); }
    }
  }

  // A node is done once its lists are copied.
  lemma FinishNode<D>(t: Tree<D>, move: D -> D, open: set<nat>, root: nat, before: Tree<D>, start: map<nat, nat>,
                      id: nat, blank: Record<D>, full: Tree<D>, done: map<nat, nat>, c: seq<nat>, f: seq<Field>)
    requires Copied(t, move, start, open, before) && id !in start && id < |t.nodes| && WindowsAt(t, id)
    requires Reaches(t, root, id)
    requires var n := start[id := |before.nodes|];
             Extended(t, move, open + {id}, root, before.(nodes := before.nodes + [blank]), n, full, done)
    requires |c| == |ChildList(t, id)| && Listed(c, 0, ChildList(t, id), done)
    requires |f| == |FieldList(t, id)| && FieldsListed(f, 0, FieldList(t, id), done)
    ensures id in done && done[id] == |before.nodes| < |full.nodes|
    ensures Extended(t, move, open, root, before, start, Closing(full, done[id], move(t.nodes[id].data), c, f), done)
  {
    hide Listed, FieldsListed, Fresh;
    var n := start[id := |before.nodes|];
    var unfilled := before.(nodes := before.nodes + [blank]);
    FreshOpen(t, root, id, |before.nodes|, start);
    FreshJoins(t, root, |before.nodes|, |unfilled.nodes|, |full.nodes|, start, n, done);
    CloseNode(t, move, done, open, full, id, c, f);
    hide Copied;
    assert unfilled.nodes <= full.nodes;
  }

  lemma NothingFresh<D>(t: Tree<D>, root: nat, at: nat, m: map<nat, nat>)
    ensures Fresh(t, root, at, at, m, m)
  {
  }

  lemma WindowsHere<D>(t: Tree<D>, id: nat)
    requires Windows(t) && id < |t.nodes|
    ensures WindowsAt(t, id)
  {
  }

  lemma FreshOpen<D>(t: Tree<D>, root: nat, id: nat, at: nat, m: map<nat, nat>)
    requires id !in m && Reaches(t, root, id)
    ensures Fresh(t, root, at, at + 1, m, m[id := at])
  {
    assert Used(m, m[id := at], at);
  }

  lemma EdgesInside<D>(t: Tree<D>, id: nat)
    requires id < |t.nodes| && WindowsAt(t, id)
    ensures Closed(t) ==> forall k | 0 <= k < |ChildList(t, id)| :: ChildList(t, id)[k] < |t.nodes|
    ensures Closed(t) ==> forall k | 0 <= k < |FieldList(t, id)| :: FieldList(t, id)[k].node < |t.nodes|
  {
    forall k | Closed(t) && 0 <= k < |ChildList(t, id)| ensures ChildList(t, id)[k] < |t.nodes| {
      assert Edge(t, id, ChildList(t, id)[k]);
    }
    forall k | Closed(t) && 0 <= k < |FieldList(t, id)| ensures FieldList(t, id)[k].node < |t.nodes| {
      assert FieldList(t, id)[k] in FieldList(t, id);
      assert Edge(t, id, FieldList(t, id)[k].node);
    }
  }

  lemma EdgesReached<D>(t: Tree<D>, root: nat, id: nat)
    requires Reaches(t, root, id) && id < |t.nodes| && WindowsAt(t, id)
    ensures forall k | 0 <= k < |ChildList(t, id)| :: Reaches(t, root, ChildList(t, id)[k])
    ensures forall k | 0 <= k < |FieldList(t, id)| :: Reaches(t, root, FieldList(t, id)[k].node)
  {
    forall k | 0 <= k < |ChildList(t, id)| ensures Reaches(t, root, ChildList(t, id)[k]) {
      ReachesNext(t, root, id, ChildList(t, id)[k]);
    }
    forall k | 0 <= k < |FieldList(t, id)| ensures Reaches(t, root, FieldList(t, id)[k].node) {
      assert FieldList(t, id)[k] in FieldList(t, id);
      ReachesNext(t, root, id, FieldList(t, id)[k].node);
    }
  }
}
