// Splicing one reparsed declaration into a copy of the old tree (reparse.go, rebase.go).
module TreeSplice {
  import opened CompactTree
  import opened TreeCopy

  // ----- what a whole copy holds -------------------------------------------------------------

  lemma CopyClosed<D>(t: Tree<D>, move: D -> D, m: map<nat, nat>, out: Tree<D>, id: nat, to: nat)
    requires Copied(t, move, m, {}, out) && id in m && Edge(t, id, to)
    ensures to in m
  {
    assert CopiedAt(t, move, m, id, out);
    var c, f := ChildList(t, id), FieldList(t, id);
    if to in c {
      var k :| 0 <= k < |c| && c[k] == to;
      assert c[k] in m;
    } else {
      var e :| e in f && e.node == to;
      var k :| 0 <= k < |f| && f[k] == e;
      assert f[k].node in m;
    }
  }

  lemma {:induction false} CopyHoldsWalk<D>(t: Tree<D>, move: D -> D, m: map<nat, nat>, out: Tree<D>, p: seq<nat>)
    requires Copied(t, move, m, {}, out) && Walk(t, p) && p[0] in m
    ensures p[|p| - 1] in m
    decreases |p|
  {
    if |p| > 1 {
      var q := p[..|p| - 1];
      assert Walk(t, q);
      CopyHoldsWalk(t, move, m, out, q);
      assert Edge(t, p[|p| - 2], p[|p| - 1]);
      CopyClosed(t, move, m, out, p[|p| - 2], p[|p| - 1]);
    }
  }

  // A copy from nothing holds the nodes the root reaches, one for one, and no others; each
  // new number is in use.
  lemma CopyIsReachablePart<D>(t: Tree<D>, move: D -> D, root: nat, before: Tree<D>, after: Tree<D>, m: map<nat, nat>)
    requires Extended(t, move, {}, root, before, map[], after, m) && root in m
    ensures forall id :: id in m <==> Reaches(t, root, id)
    ensures Injective(m) && forall k | |before.nodes| <= k < |after.nodes| :: k in m.Values
    ensures forall id | id in m :: CopiedAt(t, move, m, id, after)
  {
    forall id | Reaches(t, root, id) ensures id in m {
      var p :| Walk(t, p) && p[0] == root && p[|p| - 1] == id;
      CopyHoldsWalk(t, move, m, after, p);
    }
    forall k | |before.nodes| <= k < |after.nodes| ensures k in m.Values {
      assert Used(map[], m, k);
    }
  }

  // ----- the splice --------------------------------------------------------------------------

  predicate Replaced(children: seq<nat>, k: nat, position: nat, target: nat)
    requires k < |children|
  {
    k == position && children[k] == target
  }

  // The new root's children: the old ones, but the replacement where the old declaration
  // stands at the given position.
  ghost predicate SplicedChildren(out: seq<nat>, children: seq<nat>, position: nat, target: nat, m: map<nat, nat>,
                                  n: map<nat, nat>, replacement: nat)
  {
    && |out| == |children|
    && forall k | 0 <= k < |out| :: SplicedAt(out, children, k, position, target, m, n, replacement)
  }

  ghost predicate SplicedAt(out: seq<nat>, children: seq<nat>, k: nat, position: nat, target: nat, m: map<nat, nat>,
                            n: map<nat, nat>, replacement: nat)
    requires k < |out| && k < |children|
  {
    if Replaced(children, k, position, target) then replacement in n && out[k] == n[replacement]
    else children[k] in m && out[k] == m[children[k]]
  }

  // Both copies, side by side in one tree.
  ghost predicate SideBySide<D>(old_: Tree<D>, moveOld: D -> D, m: map<nat, nat>, fragment: Tree<D>, moveNew: D -> D,
                                n: map<nat, nat>, out: Tree<D>)
  {
    && Copied(old_, moveOld, m, {}, out) && Copied(fragment, moveNew, n, {}, out)
    && forall a, b | a in m && b in n :: m[a] != n[b]
  }

  lemma OtherStays<D>(t: Tree<D>, move: D -> D, n: map<nat, nat>, before: Tree<D>, after: Tree<D>)
    requires Copied(t, move, n, {}, before)
    requires before.nodes <= after.nodes && before.children <= after.children && before.fields <= after.fields
    ensures Copied(t, move, n, {}, after)
  {
    forall id | id in n ensures CopiedAt(t, move, n, id, after) {
      GrownCopied(t, move, n, n, id, before, after);
    }
  }

  lemma OldCopied<D>(old_: Tree<D>, moveOld: D -> D, m: map<nat, nat>, fragment: Tree<D>, moveNew: D -> D,
                     n: map<nat, nat>, before: Tree<D>, root: nat, after: Tree<D>, more: map<nat, nat>)
    requires SideBySide(old_, moveOld, m, fragment, moveNew, n, before)
    requires Extended(old_, moveOld, {}, root, before, m, after, more)
    ensures SideBySide(old_, moveOld, more, fragment, moveNew, n, after)
  {
    OtherStays(fragment, moveNew, n, before, after);
    hide CopiedAt, Reaches;
  }

  lemma FragmentCopied<D>(old_: Tree<D>, moveOld: D -> D, m: map<nat, nat>, fragment: Tree<D>, moveNew: D -> D,
                          n: map<nat, nat>, before: Tree<D>, root: nat, after: Tree<D>, more: map<nat, nat>)
    requires SideBySide(old_, moveOld, m, fragment, moveNew, n, before)
    requires Extended(fragment, moveNew, {}, root, before, n, after, more)
    ensures SideBySide(old_, moveOld, m, fragment, moveNew, more, after)
  {
    OtherStays(old_, moveOld, m, before, after);
    hide CopiedAt, Reaches;
  }

  // One more child of the new root.
  lemma ChildSpliced(out: seq<nat>, children: seq<nat>, position: nat, target: nat, m: map<nat, nat>, n: map<nat, nat>,
                     replacement: nat, m2: map<nat, nat>, n2: map<nat, nat>, next: nat)
    requires |out| < |children| && SplicedChildren(out, children[..|out|], position, target, m, n, replacement)
    requires m.Keys <= m2.Keys && n.Keys <= n2.Keys
    requires (forall id | id in m :: m2[id] == m[id]) && (forall id | id in n :: n2[id] == n[id])
    requires if Replaced(children, |out|, position, target) then replacement in n2 && next == n2[replacement]
             else children[|out|] in m2 && next == m2[children[|out|]]
    ensures SplicedChildren(out + [next], children[..|out| + 1], position, target, m2, n2, replacement)
  {
    var all, some := children[..|out| + 1], children[..|out|];
    forall k | 0 <= k < |out| + 1 ensures SplicedAt(out + [next], all, k, position, target, m2, n2, replacement) {
      if k < |out| { assert SplicedAt(out, some, k, position, target, m, n, replacement); }
    }
  }

  // The root of the spliced tree.
  ghost predicate NewRoot<D>(out: Tree<D>, data: D, children: seq<nat>) {
    && out.root < |out.nodes|
    && var r := out.nodes[out.root];
    && r.data == data && r.fieldCount == 0 && r.childCount == |children|
    && r.childStart + |children| <= |out.children| && r.fieldStart <= |out.fields|
    && out.children[r.childStart..r.childStart + |children|] == children
  }

  // The old root's children are copied, but the declaration to be replaced; the fragment's is
  // put in its place.
  method Splice<D>(old_: Tree<D>, fragment: Tree<D>, target: nat, replacement: nat, position: nat,
                   moveOld: D -> D, moveNew: D -> D, rootData: D -> D)
    returns (out: Tree<D>, ok: bool, ghost m: map<nat, nat>, ghost n: map<nat, nat>, ghost list: seq<nat>)
    requires Windows(old_) && Windows(fragment) && old_.root < |old_.nodes|
    ensures WindowsAt(old_, old_.root)
    ensures Closed(old_) && Closed(fragment) && replacement < |fragment.nodes| ==> ok
    ensures ok ==> SideBySide(old_, moveOld, m, fragment, moveNew, n, out)
    ensures ok ==> NewRoot(out, rootData(old_.nodes[old_.root].data), list)
    ensures ok ==> SplicedChildren(list, ChildList(old_, old_.root), position, target, m, n, replacement)
  {
    hide Windows, Closed, SideBySide, Copied, Reaches, Extended, Replaced;
    WindowsHere(old_, old_.root);
    EdgesInside(old_, old_.root);
    var oldMap := new Ids();
    var fragmentMap := new Ids();
    var copier := new Copier(Tree([], [], [], 0));
    var rootChildren := ChildList(old_, old_.root);
    var children := [];
    assert SideBySide(old_, moveOld, map[], fragment, moveNew, map[], copier.tree) by {
      StartSplice(old_, moveOld, fragment, moveNew, copier.tree);
    }
    for i := 0 to |rootChildren|
      invariant |children| == i
      invariant SideBySide(old_, moveOld, oldMap.ids, fragment, moveNew, fragmentMap.ids, copier.tree)
      invariant SplicedChildren(children, rootChildren[..i], position, target, oldMap.ids, fragmentMap.ids, replacement)
    {
      ghost var before, m0, n0 := copier.tree, oldMap.ids, fragmentMap.ids;
      SidesCopied(old_, moveOld, m0, fragment, moveNew, n0, before);
      var next;
      if Replaced(rootChildren, i, position, target) {
        ReachesItself(fragment, replacement);
        next, ok := copier.Copy(replacement, fragment, fragmentMap, moveNew, {}, replacement);
        if !ok { return Tree([], [], [], 0), false, map[], map[], []; }
        FragmentCopied(old_, moveOld, m0, fragment, moveNew, n0, before, replacement, copier.tree, fragmentMap.ids);
        ExtendedFacts(fragment, moveNew, {}, replacement, before, n0, copier.tree, fragmentMap.ids);
      } else {
        ReachesItself(old_, rootChildren[i]);
        next, ok := copier.Copy(rootChildren[i], old_, oldMap, moveOld, {}, rootChildren[i]);
        if !ok { return Tree([], [], [], 0), false, map[], map[], []; }
        OldCopied(old_, moveOld, m0, fragment, moveNew, n0, before, rootChildren[i], copier.tree, oldMap.ids);
        ExtendedFacts(old_, moveOld, {}, rootChildren[i], before, m0, copier.tree, oldMap.ids);
      }
      ChildSpliced(children, rootChildren, position, target, m0, n0, replacement, oldMap.ids, fragmentMap.ids, next);
      children := children + [next];
    }
    assert rootChildren[..|rootChildren|] == rootChildren;
    ok, m, n, list := true, oldMap.ids, fragmentMap.ids, children;
    var tree := copier.tree;
    var root := Record(rootData(old_.nodes[old_.root].data), |tree.children|, |children|, |tree.fields|, 0);
    out := Tree(tree.nodes + [root], tree.children + children, tree.fields, |tree.nodes|);
    RootAppended(old_, moveOld, m, fragment, moveNew, n, tree, out);
  }

  lemma StartSplice<D>(old_: Tree<D>, moveOld: D -> D, fragment: Tree<D>, moveNew: D -> D, out: Tree<D>)
    ensures SideBySide(old_, moveOld, map[], fragment, moveNew, map[], out)
  {
  }

  lemma SidesCopied<D>(old_: Tree<D>, moveOld: D -> D, m: map<nat, nat>, fragment: Tree<D>, moveNew: D -> D,
                       n: map<nat, nat>, out: Tree<D>)
    requires SideBySide(old_, moveOld, m, fragment, moveNew, n, out)
    ensures Copied(old_, moveOld, m, {}, out) && Copied(fragment, moveNew, n, {}, out)
  {
    hide Copied;
  }

  lemma RootAppended<D>(old_: Tree<D>, moveOld: D -> D, m: map<nat, nat>, fragment: Tree<D>, moveNew: D -> D,
                        n: map<nat, nat>, before: Tree<D>, after: Tree<D>)
    requires SideBySide(old_, moveOld, m, fragment, moveNew, n, before)
    requires before.nodes <= after.nodes && before.children <= after.children && before.fields <= after.fields
    ensures SideBySide(old_, moveOld, m, fragment, moveNew, n, after)
  {
    OtherStays(old_, moveOld, m, before, after);
    OtherStays(fragment, moveNew, n, before, after);
    hide CopiedAt;
  }

  // ----- whether anything is replaced ----------------------------------------------------------

  // How many of the nodes are top-level declarations.
  function Declarations(children: seq<nat>, declarations: set<nat>): (r: nat)
    ensures r <= |children|
  {
    if children == [] then 0
    else
      Declarations(children[..|children| - 1], declarations)
      + if children[|children| - 1] in declarations then 1 else 0
  }

  ghost predicate Distinct(s: seq<nat>) {
    forall i, j | 0 <= i < j < |s| :: s[i] != s[j]
  }

  lemma {:induction false} AllDeclarations(children: seq<nat>, declarations: set<nat>)
    ensures Declarations(children, declarations) == |children|
            <==> forall k | 0 <= k < |children| :: children[k] in declarations
  {
    if children != [] {
      var before := children[..|children| - 1];
      AllDeclarations(before, declarations);
      assert (forall k | 0 <= k < |children| :: children[k] in declarations) ==>
             forall k | 0 <= k < |before| :: before[k] in declarations;
      assert (forall k | 0 <= k < |before| :: before[k] in declarations) && children[|before|] in declarations ==>
             forall k | 0 <= k < |children| :: children[k] in declarations by {
        forall k | 0 <= k < |children| && (forall i | 0 <= i < |before| :: before[i] in declarations)
                   && children[|before|] in declarations
          ensures children[k] in declarations
        {
          if k < |before| { assert before[k] == children[k]; }
        }
      }
    }
  }

  // The position handed to the splice counts the declarations before the target, but it is
  // compared with positions among all root children. So the target, and only it, is replaced
  // if every root child before it is a declaration; otherwise the spliced tree holds the old
  // declaration as it was.
  lemma ReplacedExactlyBehindDeclarations(children: seq<nat>, declarations: set<nat>, at: nat)
    requires at < |children| && Distinct(children)
    ensures var position := Declarations(children[..at], declarations);
            if forall k | 0 <= k < at :: children[k] in declarations then
              forall k | 0 <= k < |children| :: Replaced(children, k, position, children[at]) <==> k == at
            else forall k | 0 <= k < |children| :: !Replaced(children, k, position, children[at])
  {
    AllDeclarations(children[..at], declarations);
    assert (forall k | 0 <= k < |children[..at]| :: children[..at][k] in declarations) <==>
           forall k | 0 <= k < at :: children[k] in declarations by {
      assert forall k | 0 <= k < at :: children[..at][k] == children[k];
    }
  }

  // The spliced root's children: the old ones copied, and at the changed declaration's place
  // its replacement, or the old one as well.
  ghost predicate RootChildren(list: seq<nat>, children: seq<nat>, at: nat, m: map<nat, nat>, n: map<nat, nat>,
                               replacement: nat, replaced: bool)
  {
    && at < |children| == |list|
    && (forall k | 0 <= k < |list| && (k != at || !replaced) :: CopyOf(list, children, k, m))
    && (replaced ==> replacement in n && list[at] == n[replacement])
  }

  ghost predicate CopyOf(list: seq<nat>, children: seq<nat>, k: nat, m: map<nat, nat>)
    requires k < |list| && k < |children|
  {
    children[k] in m && list[k] == m[children[k]]
  }

  lemma PlaceDecides(list: seq<nat>, children: seq<nat>, declarations: set<nat>, at: nat, m: map<nat, nat>,
                     n: map<nat, nat>, replacement: nat)
    requires at < |children| && Distinct(children)
    requires var position := Declarations(children[..at], declarations);
             SplicedChildren(list, children, position, children[at], m, n, replacement)
    ensures var replaced := forall k | 0 <= k < at :: children[k] in declarations;
            RootChildren(list, children, at, m, n, replacement, replaced)
  {
    var position := Declarations(children[..at], declarations);
    var replaced := forall k | 0 <= k < at :: children[k] in declarations;
    ReplacedExactlyBehindDeclarations(children, declarations, at);
    hide Replaced, Declarations, Distinct;
    forall k | 0 <= k < |list| && (k != at || !replaced) ensures CopyOf(list, children, k, m) {
      assert SplicedAt(list, children, k, position, children[at], m, n, replacement);
    }
    assert SplicedAt(list, children, at, position, children[at], m, n, replacement);
  }

  // Splicing as the caller does it, with the number of declarations before the target for its
  // place: all of the old root's children are there in order, and the replacement stands for
  // the target if and only if every root child before it is a declaration. Success is
  // reported either way.
  method SpliceDeclaration<D>(old_: Tree<D>, fragment: Tree<D>, at: nat, declarations: set<nat>, replacement: nat,
                              moveOld: D -> D, moveNew: D -> D, rootData: D -> D)
    returns (out: Tree<D>, ok: bool, ghost m: map<nat, nat>, ghost n: map<nat, nat>)
    requires Windows(old_) && Windows(fragment) && old_.root < |old_.nodes|
    requires WindowsAt(old_, old_.root)
    requires var children := ChildList(old_, old_.root); at < |children| && Distinct(children)
    ensures Closed(old_) && Closed(fragment) && replacement < |fragment.nodes| ==> ok
    ensures ok ==> SideBySide(old_, moveOld, m, fragment, moveNew, n, out)
    ensures ok ==>
      && out.root < |out.nodes| && WindowsAt(out, out.root)
      && out.nodes[out.root].data == rootData(old_.nodes[old_.root].data)
      && var children := ChildList(old_, old_.root);
         var replaced := forall k | 0 <= k < at :: children[k] in declarations;
         RootChildren(ChildList(out, out.root), children, at, m, n, replacement, replaced)
  {
    hide SideBySide, Closed, Windows, Distinct, RootChildren, SplicedChildren, Declarations;
    var children := ChildList(old_, old_.root);
    var position := Declarations(children[..at], declarations);
    ghost var list;
    out, ok, m, n, list := Splice(old_, fragment, children[at], replacement, position, moveOld, moveNew, rootData);
    if ok { PlaceDecides(list, children, declarations, at, m, n, replacement); }
  }

  // A root with a directive, node 1, and behind it the declaration to be replaced, node 2; a
  // fragment with the new one.
  function DirectiveFirst(): Tree<string> {
    Tree([Record("file", 0, 2, 0, 0), Record("directive", 0, 0, 0, 0), Record("old", 0, 0, 0, 0)], [1, 2], [], 0)
  }

  function NewDeclaration(): Tree<string> { Tree([Record("new", 0, 0, 0, 0)], [], [], 0) }

  // Splicing succeeds, and the tree still holds the old declaration.
  method NothingReplaced() returns (out: Tree<string>, ok: bool)
    ensures ok && out.root < |out.nodes| && WindowsAt(out, out.root)
    ensures var list := ChildList(out, out.root);
            |list| == 2 && list[1] < |out.nodes| && out.nodes[list[1]].data == "old"
  {
    var old_, fragment := DirectiveFirst(), NewDeclaration();
    var children := ChildList(old_, 0);
    assert children == [1, 2];
    assert Closed(old_) && Closed(fragment) by {
      assert forall id, to | Edge(old_, id, to) :: to in old_.children;
      assert forall id, to | Edge(fragment, id, to) :: to in fragment.children;
    }
    ghost var m, n;
    out, ok, m, n := SpliceDeclaration(old_, fragment, 1, {2}, 0, x => x, x => x, x => x);
    assert children[0] !in {2};
    assert CopyOf(ChildList(out, out.root), children, 1, m);
    SidesCopied(old_, x => x, m, fragment, x => x, n, out);
    assert CopiedAt(old_, x => x, m, 2, out);
  }
}
