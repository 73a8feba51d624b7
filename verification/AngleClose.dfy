// Which `<` tokens have a closing `>` (calls.go, buildAngleClose): one pass with a
// stack, against the scan it replaces.
module AngleClose {
  import opened Tokens

  predicate Stops(k: Kind) { k.RParen? || k.Semicolon? || k.EOF? }

  // Counts on from i with `open` brackets open: is the outermost one closed
  // before a closing parenthesis, a semicolon or the end?
  predicate Closes(kinds: seq<Kind>, i: nat, open: nat)
    requires open > 0
    decreases |kinds| - i
  {
    i < |kinds| && !Stops(kinds[i]) &&
    if kinds[i] == Lt then Closes(kinds, i + 1, open + 1)
    else if kinds[i] == Gt then open == 1 || Closes(kinds, i + 1, open - 1)
    else Closes(kinds, i + 1, open)
  }

  // What the table answers.
  predicate HasAngleClose(kinds: seq<Kind>, i: nat) {
    i < |kinds| && kinds[i] == Lt && Closes(kinds, i + 1, 1)
  }

  // The k-th stack entry is closed from i on exactly when that many brackets,
  // counted from the top, are.
  ghost predicate Answers(table: seq<bool>, kinds: seq<Kind>, i: nat, stack: seq<nat>)
    requires |table| == |kinds|
  {
    && (forall k | 0 <= k < |stack| :: stack[k] < i && i <= |kinds| && kinds[stack[k]] == Lt && !table[stack[k]])
    && (forall j, k | 0 <= j < k < |stack| :: stack[j] < stack[k])
    && (forall k | 0 <= k < |stack| :: HasAngleClose(kinds, stack[k]) == Closes(kinds, i, |stack| - k))
    && (forall k: nat | k < i && k < |kinds| && k !in stack :: table[k] == HasAngleClose(kinds, k))
    && (forall k: nat | i <= k < |kinds| :: !table[k])
  }

  method BuildAngleClose(kinds: seq<Kind>) returns (table: array<bool>)
    ensures table.Length == |kinds| && fresh(table)
    ensures forall i | 0 <= i < |kinds| :: table[i] == HasAngleClose(kinds, i)
  {
    table := new bool[|kinds|](_ => false);
    var stack: seq<nat> := [];
    assert Answers(table[..], kinds, 0, stack);
    hide Answers, Closes;
    for i := 0 to |kinds|
      invariant Answers(table[..], kinds, i, stack)
    {
      ghost var before, was := table[..], stack;
      if kinds[i] == Lt {
        stack := stack + [i];
        PushKeeps(before, kinds, i, was);
      } else if kinds[i] == Gt && |stack| != 0 {
        var last := |stack| - 1;
        StackInRange(before, kinds, i, was, last);
        table[stack[last]] := true;
        stack := stack[..last];
        assert table[..] == before[was[last] := true];
        PopKeeps(before, table[..], kinds, i, was);
      } else if Stops(kinds[i]) {
        stack := [];
        ClearKeeps(before, kinds, i, was);
      } else {
        PassKeeps(before, kinds, i, was);
      }
    }
    AnswersAtEnd(table[..], kinds, stack);
  }

  lemma AnswersAtEnd(table: seq<bool>, kinds: seq<Kind>, stack: seq<nat>)
    requires |table| == |kinds| && Answers(table, kinds, |kinds|, stack)
    ensures forall i | 0 <= i < |kinds| :: table[i] == HasAngleClose(kinds, i)
  {
    forall i | 0 <= i < |kinds| ensures table[i] == HasAngleClose(kinds, i) {
      if i in stack {
        var j :| 0 <= j < |stack| && stack[j] == i;
      }
    }
  }

  lemma StackInRange(table: seq<bool>, kinds: seq<Kind>, i: nat, stack: seq<nat>, k: nat)
    requires |table| == |kinds| && Answers(table, kinds, i, stack) && k < |stack|
    ensures stack[k] < |kinds|
  {
  }

  lemma PushKeeps(table: seq<bool>, kinds: seq<Kind>, i: nat, stack: seq<nat>)
    requires |table| == |kinds| && Answers(table, kinds, i, stack) && i < |kinds| && kinds[i] == Lt
    ensures Answers(table, kinds, i + 1, stack + [i])
  {
    var more := stack + [i];
    forall k: nat | k < i + 1 && k < |kinds| && k !in more ensures table[k] == HasAngleClose(kinds, k) {
      assert i in more && forall j | j in stack :: j in more;
    }
  }

  lemma ClearKeeps(table: seq<bool>, kinds: seq<Kind>, i: nat, stack: seq<nat>)
    requires |table| == |kinds| && Answers(table, kinds, i, stack) && i < |kinds| && Stops(kinds[i])
    ensures Answers(table, kinds, i + 1, [])
  {
    forall k: nat | k < i + 1 && k < |kinds| ensures table[k] == HasAngleClose(kinds, k) {
      if k in stack {
        var j :| 0 <= j < |stack| && stack[j] == k;
      }
    }
  }

  lemma PassKeeps(table: seq<bool>, kinds: seq<Kind>, i: nat, stack: seq<nat>)
    requires |table| == |kinds| && Answers(table, kinds, i, stack) && i < |kinds|
    requires kinds[i] != Lt && !Stops(kinds[i]) && (kinds[i] == Gt ==> stack == [])
    ensures Answers(table, kinds, i + 1, stack)
  {
  }

  lemma PopKeeps(before: seq<bool>, after: seq<bool>, kinds: seq<Kind>, i: nat, stack: seq<nat>)
    requires |before| == |kinds| == |after| && Answers(before, kinds, i, stack) && stack != []
    requires i < |kinds| && kinds[i] == Gt && after == before[stack[|stack| - 1] := true]
    ensures Answers(after, kinds, i + 1, stack[..|stack| - 1])
  {
    var last := |stack| - 1;
    assert HasAngleClose(kinds, stack[last]) == Closes(kinds, i, 1) == true;
    assert stack == stack[..last] + [stack[last]];
    forall k: nat | k < i + 1 && k < |kinds| && k !in stack[..last] ensures after[k] == HasAngleClose(kinds, k) {
      assert k !in stack || k == stack[last];
    }
  }

  // ----- which bracket closes it -------------------------------------------------------------------

  // Opening less closing angle brackets from a on, in front of b.
  function Net(kinds: seq<Kind>, a: nat, b: nat): int
    requires a <= b <= |kinds|
    decreases b - a
  {
    if a == b then 0 else (if kinds[a] == Lt then 1 else if kinds[a] == Gt then -1 else 0) + Net(kinds, a + 1, b)
  }

  // The bracket at j closes the outermost of `open` brackets that are open at i: all others are
  // closed in front of it, and no closing parenthesis, semicolon or end stands between.
  ghost predicate ClosedBy(kinds: seq<Kind>, i: nat, open: nat, j: nat) {
    && i <= j < |kinds| && kinds[j] == Gt && open + Net(kinds, i, j) == 1
    && forall k | i <= k < j ::
         open + Net(kinds, i, k) > 0 && kinds[k] != RParen && kinds[k] != Semicolon && kinds[k] != EOF
  }

  ghost predicate SomeCloses(kinds: seq<Kind>, i: nat, open: nat) { exists j :: ClosedBy(kinds, i, open, j) }

  lemma {:induction false} ClosesExactly(kinds: seq<Kind>, i: nat, open: nat)
    requires open > 0
    ensures Closes(kinds, i, open) <==> SomeCloses(kinds, i, open)
    decreases |kinds| - i
  {
    if i >= |kinds| || Stops(kinds[i]) { return; }
    var next := if kinds[i] == Lt then open + 1 else if kinds[i] == Gt then open - 1 else open;
    if next == 0 {
      assert ClosedBy(kinds, i, open, i);
      return;
    }
    var from := i + 1;
    ClosesExactly(kinds, from, next);
    if j :| ClosedBy(kinds, from, next, j) {
      assert ClosedBy(kinds, i, open, j);
    }
    if j :| ClosedBy(kinds, i, open, j) {
      assert i != j;
      forall k | from <= k < j ensures next + Net(kinds, from, k) > 0 {
        assert open + Net(kinds, i, k) > 0;
      }
      assert ClosedBy(kinds, from, next, j);
    }
  }

  lemma AngleClosesExactly(kinds: seq<Kind>, i: nat)
    ensures HasAngleClose(kinds, i) <==> i < |kinds| && kinds[i] == Lt && SomeCloses(kinds, i + 1, 1)
  {
    ClosesExactly(kinds, i + 1, 1);
  }
}
