// Error data of a finished tree (compact_sink.go, tree): one entry for each kept node that has
// any, in node order, with the expected tokens in a list of their own.
module ErrorTables {
  import opened Chars
  import opened Reachability
  import opened SinkHistory

  datatype TreeError = TreeError(message: string, node: nat, offset: int, found: nat,
                                 expectedStart: nat, expectedCount: nat)

  datatype ErrorTable = ErrorTable(errors: seq<TreeError>, expected: seq<nat>)

  const NO_ERRORS := ErrorTable([], [])

  function WithError(t: ErrorTable, node: nat, m: Mishap): ErrorTable {
    ErrorTable(t.errors + [TreeError(m.message, node, m.offset, m.found, |t.expected|, |m.expected|)],
               t.expected + m.expected)
  }

  ghost predicate HasError(mishaps: seq<Option<Mishap>>, marked: set<nat>, id: nat) {
    id < |mishaps| && id in marked && mishaps[id].Some?
  }

  // The table when every id below `id` has been dealt with.
  ghost function ErrorsBefore(mishaps: seq<Option<Mishap>>, marked: set<nat>, id: nat): ErrorTable
    requires id <= |mishaps|
  {
    if id == 0 then NO_ERRORS
    else
      var t := ErrorsBefore(mishaps, marked, id - 1);
      if HasError(mishaps, marked, id - 1) then WithError(t, Rank(marked, id - 1), mishaps[id - 1].value) else t
  }

  lemma {:induction false} TableGrows(mishaps: seq<Option<Mishap>>, marked: set<nat>, a: nat, b: nat)
    requires a <= b <= |mishaps|
    ensures ErrorsBefore(mishaps, marked, a).errors <= ErrorsBefore(mishaps, marked, b).errors
    ensures ErrorsBefore(mishaps, marked, a).expected <= ErrorsBefore(mishaps, marked, b).expected
    decreases b
  {
    if a < b { TableGrows(mishaps, marked, a, b - 1); }
  }

  // Entry k is this error of this node, and its expected tokens are found in the list.
  ghost predicate EntryIs(t: ErrorTable, k: nat, node: nat, m: Mishap) {
    && k < |t.errors| && t.errors[k].message == m.message && t.errors[k].node == node
    && t.errors[k].offset == m.offset && t.errors[k].found == m.found
    && var (start, count) := (t.errors[k].expectedStart, t.errors[k].expectedCount);
    && start + count <= |t.expected| && t.expected[start..start + count] == m.expected
  }

  // The error data of each kept node are found in the table ...
  lemma ErrorIsFound(mishaps: seq<Option<Mishap>>, marked: set<nat>, id: nat) returns (k: nat)
    requires HasError(mishaps, marked, id)
    ensures EntryIs(ErrorsBefore(mishaps, marked, |mishaps|), k, Rank(marked, id), mishaps[id].value)
  {
    var t := ErrorsBefore(mishaps, marked, id);
    k := |t.errors|;
    TableGrows(mishaps, marked, id + 1, |mishaps|);
    var next := ErrorsBefore(mishaps, marked, id + 1);
    assert next.expected[|t.expected|..|t.expected| + |mishaps[id].value.expected|] == mishaps[id].value.expected;
  }

  // ... and each entry is the error of exactly one kept node.
  lemma {:induction false} ErrorHasNode(mishaps: seq<Option<Mishap>>, marked: set<nat>, k: nat, n: nat)
    returns (id: nat)
    requires n <= |mishaps| && k < |ErrorsBefore(mishaps, marked, n).errors|
    ensures id < n && HasError(mishaps, marked, id) && |ErrorsBefore(mishaps, marked, id).errors| == k
    ensures ErrorsBefore(mishaps, marked, n).errors[k].node == Rank(marked, id)
    decreases n
  {
    if k < |ErrorsBefore(mishaps, marked, n - 1).errors| {
      id := ErrorHasNode(mishaps, marked, k, n - 1);
    } else {
      id := n - 1;
    }
  }

  // Entries are in node order, so that no node has two.
  lemma ErrorsInOrder(mishaps: seq<Option<Mishap>>, marked: set<nat>, j: nat, k: nat)
    requires j < k < |ErrorsBefore(mishaps, marked, |mishaps|).errors|
    ensures var t := ErrorsBefore(mishaps, marked, |mishaps|); t.errors[j].node < t.errors[k].node
  {
    var a := ErrorHasNode(mishaps, marked, j, |mishaps|);
    var b := ErrorHasNode(mishaps, marked, k, |mishaps|);
    if b <= a {
      TableGrows(mishaps, marked, b, a);
      assert false;
    }
    RankMonotone(marked, a, b);
  }
}
