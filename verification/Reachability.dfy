// Which builder nodes a finished tree keeps, and how they are renumbered
// (compact_sink.go, reachableNodes).
module Reachability {

  // Lists of child ids by node id; id 0 is no node.
  type Graph = seq<seq<nat>>

  predicate Live(g: Graph, id: nat) { 0 < id < |g| }

  // A chain of child edges through live nodes.
  ghost predicate Path(g: Graph, p: seq<nat>) {
    && p != [] && (forall k | 0 <= k < |p| :: Live(g, p[k]))
    && forall k | 0 < k < |p| :: p[k] in g[p[k - 1]]
  }

  ghost predicate Reachable(g: Graph, root: nat, id: nat) {
    exists p :: Path(g, p) && p[0] == root && p[|p| - 1] == id
  }

  lemma ReachableStep(g: Graph, root: nat, id: nat, child: nat)
    requires Reachable(g, root, id) && Live(g, child) && child in g[id]
    ensures Reachable(g, root, child)
  {
    var p :| Path(g, p) && p[0] == root && p[|p| - 1] == id;
    assert Path(g, p + [child]);
  }

  // A marking that holds the root and is closed under child edges holds every reachable node.
  lemma {:induction false} ClosedHoldsPath(g: Graph, marked: set<nat>, p: seq<nat>)
    requires Path(g, p) && p[0] in marked
    requires forall id, child | id in marked && Live(g, id) && child in g[id] && Live(g, child) :: child in marked
    ensures p[|p| - 1] in marked
    decreases |p|
  {
    if |p| > 1 {
      ClosedHoldsPath(g, marked, p[..|p| - 1]);
      assert p[|p| - 1] in g[p[|p| - 2]];
    }
  }

  // ----- numbering ------------------------------------------------------------------

  ghost function IdsBelow(n: nat): (r: set<nat>)
    ensures forall id: nat :: id in r <==> id < n
  {
    if n == 0 then {} else IdsBelow(n - 1) + {n - 1}
  }

  // How many marked ids come before `id`.
  function Rank(marked: set<nat>, id: nat): (r: nat)
    ensures r <= id
  {
    if id == 0 then 0 else Rank(marked, id - 1) + (if id - 1 in marked then 1 else 0)
  }

  // The new number of a node, from 1; 0 for a node that is dropped.
  function Number(marked: set<nat>, id: nat): nat {
    if id in marked then Rank(marked, id) + 1 else 0
  }

  lemma {:induction false} RankMonotone(marked: set<nat>, a: nat, b: nat)
    requires a <= b
    ensures Rank(marked, a) <= Rank(marked, b)
    ensures a < b && a in marked ==> Rank(marked, a) < Rank(marked, b)
    decreases b
  {
    if a < b {
      RankMonotone(marked, a, b - 1);
    }
  }

  // Numbers grow with ids, and never run ahead of them.
  lemma NumberIncreasing(marked: set<nat>, a: nat, b: nat)
    requires a in marked && b in marked && a < b && 0 !in marked
    ensures 0 < Number(marked, a) < Number(marked, b) && Number(marked, a) <= a && Number(marked, b) <= b
  {
    RankMonotone(marked, a, b);
    RankMonotone(marked, 1, a);
    RankBelow(marked, a);
    RankBelow(marked, b);
  }

  lemma {:induction false} RankBelow(marked: set<nat>, id: nat)
    requires 0 !in marked && id > 0
    ensures Rank(marked, id) + 1 <= id
    decreases id
  {
    if id > 1 {
      RankBelow(marked, id - 1);
    }
  }

  // Every number up to the count belongs to some marked id.
  lemma {:induction false} NumberDense(marked: set<nat>, n: nat, number: nat) returns (id: nat)
    requires 0 < number <= Rank(marked, n)
    ensures id < n && id in marked && Number(marked, id) == number
    decreases n
  {
    if number == Rank(marked, n) && n - 1 in marked {
      id := n - 1;
    } else {
      id := NumberDense(marked, n - 1, number);
    }
  }

  // ----- the depth-first search ----------------------------------------------------------

  const UNNUMBERED: nat := 0xFFFF_FFFF

  // Marks, in a table of zeros, every node reachable from the root.
  method MarkReachable(g: Graph, root: nat, remap: array<nat>) returns (ghost marked: set<nat>)
    requires remap.Length == |g| && Live(g, root) && forall id | 0 <= id < |g| :: remap[id] == 0
    modifies remap
    ensures forall id: nat :: id in marked <==> Live(g, id) && Reachable(g, root, id)
    ensures forall id: nat | id < |g| :: remap[id] == if id in marked then UNNUMBERED else 0
  {
    marked := {};
    var stack := [root];
    assert Path(g, [root]) && Reachable(g, root, root);
    while |stack| != 0
      invariant forall id | id in marked :: Live(g, id) && Reachable(g, root, id)
      invariant forall id | id in stack :: Live(g, id) ==> Reachable(g, root, id)
      invariant root in marked || root in stack
      invariant forall id, child | id in marked && child in g[id] && Live(g, child) :: child in marked || child in stack
      invariant forall id: nat | id < |g| :: remap[id] == if id in marked then UNNUMBERED else 0
      decreases IdsBelow(|g|) - marked, |stack|
    {
      var id := stack[|stack| - 1];
      ghost var before := stack;
      stack := stack[..|stack| - 1];
      assert forall other | other in before :: other in stack || other == id;
      if id == 0 || id >= remap.Length || remap[id] != 0 { continue; }
      remap[id] := UNNUMBERED;
      forall child | child in g[id] && Live(g, child) ensures Reachable(g, root, child) {
        ReachableStep(g, root, id, child);
      }
      assert id in IdsBelow(|g|) && id !in marked;
      marked := marked + {id};
      stack := stack + g[id];
    }
    forall id: nat | Live(g, id) && Reachable(g, root, id) ensures id in marked {
      var p :| Path(g, p) && p[0] == root && p[|p| - 1] == id;
      ClosedHoldsPath(g, marked, p);
    }
  }

  // ----- counting ---------------------------------------------------------------------------

  datatype Field = Field(id: nat, node: nat)

  // The fields of a node that point to kept nodes.
  function Surviving(fields: seq<Field>, marked: set<nat>): (r: seq<Field>)
    ensures |r| <= |fields|
  {
    if fields == [] then []
    else
      Surviving(fields[..|fields| - 1], marked)
      + (if fields[|fields| - 1].node in marked then [fields[|fields| - 1]] else [])
  }

  // Children of the marked nodes before `id`.
  function ChildrenBefore(g: Graph, marked: set<nat>, id: nat): nat
    requires id <= |g|
  {
    if id == 0 then 0 else ChildrenBefore(g, marked, id - 1) + (if id - 1 in marked then |g[id - 1]| else 0)
  }

  function FieldsBefore(fields: seq<seq<Field>>, marked: set<nat>, id: nat): nat
    requires id <= |fields|
  {
    if id == 0 then 0
    else FieldsBefore(fields, marked, id - 1) + (if id - 1 in marked then |Surviving(fields[id - 1], marked)| else 0)
  }

  lemma {:induction false} ChildrenBeforeMonotone(g: Graph, marked: set<nat>, a: nat, b: nat)
    requires a <= b <= |g|
    ensures ChildrenBefore(g, marked, a) <= ChildrenBefore(g, marked, b)
    decreases b
  {
    if a < b {
      ChildrenBeforeMonotone(g, marked, a, b - 1);
    }
  }

  lemma {:induction false} FieldsBeforeMonotone(fields: seq<seq<Field>>, marked: set<nat>, a: nat, b: nat)
    requires a <= b <= |fields|
    ensures FieldsBefore(fields, marked, a) <= FieldsBefore(fields, marked, b)
    decreases b
  {
    if a < b {
      FieldsBeforeMonotone(fields, marked, a, b - 1);
    }
  }

  // marked is exactly the set of reachable nodes.
  ghost predicate IsKept(marked: set<nat>, g: Graph, root: nat) {
    forall id: nat :: id in marked <==> Live(g, id) && Reachable(g, root, id)
  }

  // remap gives every kept node its number, and 0 to the others.
  ghost predicate Numbers(remap: seq<nat>, marked: set<nat>) {
    (forall k | 0 <= k < |remap| :: remap[k] == Number(marked, k)) && forall id | id in marked :: 0 < id < |remap|
  }

  // The whole table: kept nodes numbered in order, and what the tree will hold.
  method ReachableNodes(g: Graph, fields: seq<seq<Field>>, root: nat)
    returns (remap: seq<nat>, nodeCount: nat, childCount: nat, fieldCount: nat, ghost marked: set<nat>)
    requires |g| == |fields| && Live(g, root)
    ensures IsKept(marked, g, root) && |remap| == |g| && Numbers(remap, marked)
    ensures nodeCount == Rank(marked, |g|)
    ensures childCount == ChildrenBefore(g, marked, |g|)
    ensures fieldCount == FieldsBefore(fields, marked, |g|)
  {
    var table := new nat[|g|](_ => 0);
    marked := MarkReachable(g, root, table);
    nodeCount, childCount, fieldCount := 0, 0, 0;
    for id := 1 to |g|
      invariant nodeCount == Rank(marked, id) && childCount == ChildrenBefore(g, marked, id)
      invariant fieldCount == FieldsBefore(fields, marked, id)
      invariant forall k: nat | k < id :: table[k] == Number(marked, k)
      invariant forall k: nat | id <= k < |g| :: table[k] == if k in marked then UNNUMBERED else 0
    {
      if table[id] == 0 { continue; }
      nodeCount := nodeCount + 1;
      table[id] := nodeCount;
      childCount := childCount + |g[id]|;
      assert forall k: nat | k < |g| :: table[k] != 0 <==> k in marked;
      var surviving := CountSurviving(fields[id], table, marked);
      fieldCount := fieldCount + surviving;
    }
    remap := table[..];
  }

  method CountSurviving(fields: seq<Field>, table: array<nat>, ghost marked: set<nat>) returns (count: nat)
    requires forall k: nat :: k in marked <==> k < table.Length && table[k] != 0
    ensures count == |Surviving(fields, marked)|
  {
    count := 0;
    for k := 0 to |fields|
      invariant count == |Surviving(fields[..k], marked)|
    {
      assert fields[..k + 1][..k] == fields[..k];
      if fields[k].node < table.Length && table[fields[k].node] != 0 {
        count := count + 1;
      }
    }
    assert fields[..|fields|] == fields;
  }
}
