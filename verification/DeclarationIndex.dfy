// The index of top-level declarations, built afresh or rebased over an edit
// (declaration_index.go).
module DeclarationIndex {
  import opened Chars
  import Shifts

  datatype ByteRange = ByteRange(start: int, end: int)

  // A top-level declaration of a parsed file.
  datatype Declaration = Declaration(kind: nat, name: string, range: ByteRange, bytes: string, hasError: bool)

  // One entry of the index; the hashes are any functions with values in D.
  datatype Boundary<D> = Boundary(kind: nat, range: ByteRange, name: string, identity: D, fingerprint: D,
                                  hasError: bool)

  datatype Hashes<D> = Hashes(identity: (nat, nat, string) -> D, fingerprint: string -> D)

  datatype Index<D> = Index(items: seq<Boundary<D>>, reliable: bool)

  datatype File = File(declarations: seq<Declaration>, hasParseErrors: bool)

  datatype Key = Key(kind: nat, name: string)

  function KeyOf(d: Declaration): Key { Key(d.kind, d.name) }

  // ----- the index by definition -------------------------------------------------------------

  // How many of the first n declarations have this kind and name.
  function Ordinal(ds: seq<Declaration>, n: nat, key: Key): nat
    requires n <= |ds|
  {
    if n == 0 then 0 else Ordinal(ds, n - 1, key) + if KeyOf(ds[n - 1]) == key then 1 else 0
  }

  function Entry<D>(h: Hashes<D>, d: Declaration, ordinal: nat): Boundary<D> {
    Boundary(d.kind, d.range, d.name, h.identity(d.kind, ordinal, d.name), h.fingerprint(d.bytes), d.hasError)
  }

  function EntryAt<D>(h: Hashes<D>, ds: seq<Declaration>, i: nat): Boundary<D>
    requires i < |ds|
  {
    Entry(h, ds[i], Ordinal(ds, i, KeyOf(ds[i])))
  }

  ghost predicate AreEntries<D>(h: Hashes<D>, ds: seq<Declaration>, items: seq<Boundary<D>>) {
    |items| <= |ds| && forall i | 0 <= i < |items| :: items[i] == EntryAt(h, ds, i)
  }

  // Declarations without errors, in order, not overlapping.
  ghost predicate Orderly(ds: seq<Declaration>) {
    forall i | 0 <= i < |ds| :: OrderlyAt(ds, i)
  }

  ghost predicate OrderlyAt(ds: seq<Declaration>, i: nat)
    requires i < |ds|
  {
    !ds[i].hasError && (if i == 0 then 0 else ds[i - 1].range.end) <= ds[i].range.start <= ds[i].range.end
  }

  ghost predicate IsIndex<D>(h: Hashes<D>, f: File, index: Index<D>) {
    |index.items| == |f.declarations| && AreEntries(h, f.declarations, index.items)
    && (index.reliable <==> !f.hasParseErrors && Orderly(f.declarations))
  }

  // ----- building --------------------------------------------------------------------------------

  // The ordinals a builder has counted behind the first n declarations.
  ghost predicate Counted(ordinals: map<Key, nat>, ds: seq<Declaration>, n: nat)
    requires n <= |ds|
  {
    forall key :: Ordinal(ds, n, key) == if key in ordinals then ordinals[key] else 0
  }

  function Get(ordinals: map<Key, nat>, key: Key): nat {
    if key in ordinals then ordinals[key] else 0
  }

  method MakeEntry<D>(h: Hashes<D>, d: Declaration, ordinals: map<Key, nat>)
    returns (item: Boundary<D>, counted: map<Key, nat>)
    ensures item == Entry(h, d, Get(ordinals, KeyOf(d)))
    ensures counted == ordinals[KeyOf(d) := Get(ordinals, KeyOf(d)) + 1]
  {
    var key := KeyOf(d);
    var ordinal := Get(ordinals, key);
    counted := ordinals[key := ordinal + 1];
    item := Boundary(d.kind, d.range, d.name, h.identity(d.kind, ordinal, d.name), h.fingerprint(d.bytes), d.hasError);
  }

  lemma CountedMore(ordinals: map<Key, nat>, ds: seq<Declaration>, i: nat)
    requires i < |ds| && Counted(ordinals, ds, i)
    ensures var key := KeyOf(ds[i]);
            Get(ordinals, key) == Ordinal(ds, i, key) && Counted(ordinals[key := Get(ordinals, key) + 1], ds, i + 1)
  {
    var key := KeyOf(ds[i]);
    var more := ordinals[key := Get(ordinals, key) + 1];
    forall other ensures Ordinal(ds, i + 1, other) == if other in more then more[other] else 0 {
      assert Ordinal(ds, i, other) == if other in ordinals then ordinals[other] else 0;
    }
  }

  method BuildDeclarationIndex<D>(h: Hashes<D>, f: File) returns (index: Index<D>)
    ensures IsIndex(h, f, index)
  {
    hide Ordinal, Counted, Entry, OrderlyAt;
    var ds := f.declarations;
    var items: seq<Boundary<D>>, reliable, previousEnd := [], !f.hasParseErrors, 0;
    var ordinals: map<Key, nat> := map[];
    NothingCounted(ds);
    for i := 0 to |ds|
      invariant Counted(ordinals, ds, i)
      invariant |items| == i && AreEntries(h, ds, items)
      invariant previousEnd == if i == 0 then 0 else ds[i - 1].range.end
      invariant reliable <==> !f.hasParseErrors && forall k | 0 <= k < i :: OrderlyAt(ds, k)
    {
      CountedMore(ordinals, ds, i);
      OrderlyMeans(ds, i);
      var item;
      item, ordinals := MakeEntry(h, ds[i], ordinals);
      EntryFacts(h, ds, i);
      if item.range.start < previousEnd || item.range.end < item.range.start { reliable := false; }
      if item.hasError { reliable := false; }
      previousEnd := item.range.end;
      items := items + [item];
    }
    index := Index(items, reliable);
  }

  lemma NothingCounted(ds: seq<Declaration>)
    ensures Counted(map[], ds, 0)
  {
  }

  lemma OrderlyMeans(ds: seq<Declaration>, i: nat)
    requires i < |ds|
    ensures OrderlyAt(ds, i) <==>
            !ds[i].hasError && (if i == 0 then 0 else ds[i - 1].range.end) <= ds[i].range.start <= ds[i].range.end
  {
  }

  lemma EntryFacts<D>(h: Hashes<D>, ds: seq<Declaration>, i: nat)
    requires i < |ds|
    ensures var e := EntryAt(h, ds, i);
            e.range == ds[i].range && e.hasError == ds[i].hasError && e.kind == ds[i].kind && e.name == ds[i].name
  {
  }

  // ----- rebasing ----------------------------------------------------------------------------------

  predicate ValidRange(r: ByteRange) { r.start >= 0 && r.end >= r.start }

  predicate Contains(outer: ByteRange, inner: ByteRange) {
    if inner.start == inner.end then outer.start <= inner.start <= outer.end
    else outer.start <= inner.start && inner.end <= outer.end
  }

  predicate Holds(r: ByteRange, offset: int) { r.start <= offset < r.end }

  // A range contains an edit if it holds every byte of it, and an insertion at either of its ends, too.
  lemma ContainsExactly(outer: ByteRange, inner: ByteRange)
    requires ValidRange(inner) && ValidRange(outer)
    ensures inner.start < inner.end ==>
              (Contains(outer, inner) <==> forall offset | Holds(inner, offset) :: Holds(outer, offset))
    ensures inner.start == inner.end ==>
              (Contains(outer, inner) <==> Holds(outer, inner.start) || inner.start == outer.end)
  {
    if inner.start < inner.end {
      assert Holds(inner, inner.start) && Holds(inner, inner.end - 1);
    }
  }

  // The one entry whose range contains the edit.
  ghost predicate IsTarget<D>(items: seq<Boundary<D>>, edit: ByteRange, target: nat) {
    && target < |items| && Contains(items[target].range, edit)
    && forall k | 0 <= k < |items| && Contains(items[k].range, edit) :: k == target
  }

  method RebaseTarget<D>(items: seq<Boundary<D>>, edit: ByteRange) returns (target: int)
    ensures target >= 0 ==> IsTarget(items, edit, target)
    ensures target < 0 ==> forall k: nat :: !IsTarget(items, edit, k)
  {
    target := -1;
    for i := 0 to |items|
      invariant -1 <= target < i
      invariant target >= 0 ==> Contains(items[target].range, edit)
      invariant forall k | 0 <= k < i && Contains(items[k].range, edit) :: k == target
    {
      if Contains(items[i].range, edit) {
        if target >= 0 {
          assert forall k: nat | IsTarget(items, edit, k) :: i == k && target == k;
          return -1;
        }
        target := i;
      }
    }
  }

  // The edit left the shape of the file as it was.
  ghost predicate SameShape<D>(items: seq<Boundary<D>>, ds: seq<Declaration>) {
    |items| == |ds| && forall i | 0 <= i < |ds| :: SameShapeAt(items, ds, i)
  }

  ghost predicate SameShapeAt<D>(items: seq<Boundary<D>>, ds: seq<Declaration>, i: nat)
    requires i < |items| && i < |ds|
  {
    && items[i].kind == ds[i].kind && items[i].name == ds[i].name && !ds[i].hasError && ValidRange(ds[i].range)
  }

  // What rebasing returns: the old entries at their new places, but the target's made afresh.
  ghost predicate Rebased<D>(h: Hashes<D>, items: seq<Boundary<D>>, ds: seq<Declaration>, target: nat,
                             result: seq<Boundary<D>>)
  {
    |result| == |items| == |ds| && forall i | 0 <= i < |result| :: RebasedAt(h, items, ds, target, result, i)
  }

  ghost predicate RebasedAt<D>(h: Hashes<D>, items: seq<Boundary<D>>, ds: seq<Declaration>, target: int,
                               result: seq<Boundary<D>>, i: nat)
    requires i < |result| && i < |items| && i < |ds|
  {
    result[i] == if i == target then EntryAt(h, ds, i) else items[i].(range := ds[i].range)
  }

  method RebaseDeclarationIndex<D(==)>(h: Hashes<D>, previous: Index<D>, current: File, before: ByteRange,
                                         after: ByteRange)
    returns (index: Index<D>, ok: bool)
    ensures ok ==>
      && previous.reliable && !current.hasParseErrors && ValidRange(before) && ValidRange(after)
      && SameShape(previous.items, current.declarations) && index.reliable
      && exists target: nat :: IsTarget(previous.items, before, target)
                               && Rebased(h, previous.items, current.declarations, target, index.items)
    ensures !ok && (exists f :: IsIndex(h, f, previous)) ==>
      !(previous.reliable && !current.hasParseErrors && ValidRange(before) && ValidRange(after)
        && SameShape(previous.items, current.declarations)
        && exists target: nat :: IsTarget(previous.items, before, target))
  {
    hide Ordinal, Counted, IsIndex, AreEntries, Contains;
    index := Index([], false);
    if !previous.reliable || current.hasParseErrors || !ValidRange(before) || !ValidRange(after) {
      return index, false;
    }
    var target := RebaseTarget(previous.items, before);
    if target < 0 { return index, false; }
    var ds := current.declarations;
    var items: seq<Boundary<D>> := [];
    var ordinals: map<Key, nat> := map[];
    NothingCounted(ds);
    for i := 0 to |ds|
      invariant Counted(ordinals, ds, i) && |items| == i <= |previous.items|
      invariant forall k | 0 <= k < i :: SameShapeAt(previous.items, ds, k)
      invariant forall k | 0 <= k < i :: RebasedAt(h, previous.items, ds, target, items, k)
    {
      if i >= |previous.items| { return index, false; }
      var old_ := previous.items[i];
      if old_.kind != ds[i].kind || old_.name != ds[i].name || ds[i].hasError {
        assert !SameShapeAt(previous.items, ds, i);
        return index, false;
      }
      var item := old_.(range := ds[i].range);
      CountedMore(ordinals, ds, i);
      if i == target {
        item, ordinals := MakeEntry(h, ds[i], ordinals);
        if item.identity != old_.identity {
          SameIdentity(h, previous, ds, i);
          return index, false;
        }
      } else {
        var key := Key(old_.kind, old_.name);
        ordinals := ordinals[key := Get(ordinals, key) + 1];
      }
      if item.range.start < 0 || item.range.end < item.range.start {
        assert !SameShapeAt(previous.items, ds, i);
        return index, false;
      }
      ghost var sofar := items;
      items := items + [item];
      forall k | 0 <= k < i + 1 ensures RebasedAt(h, previous.items, ds, target, items, k) {
        assert k < i ==> RebasedAt(h, previous.items, ds, target, sofar, k);
      }
    }
    if |items| != |previous.items| { return index, false; }
    assert IsTarget(previous.items, before, target) && Rebased(h, previous.items, ds, target, items);
    return Index(items, true), true;
  }

  // The target's identity never stands in the way: with the same kinds and names before
  // it, its ordinal is the old one.
  lemma {:induction false} SameIdentity<D>(h: Hashes<D>, previous: Index<D>, ds: seq<Declaration>, i: nat)
    requires i < |previous.items| && i < |ds|
    requires forall k | 0 <= k < i :: SameShapeAt(previous.items, ds, k)
    requires previous.items[i].kind == ds[i].kind && previous.items[i].name == ds[i].name
    ensures forall f | IsIndex(h, f, previous) ::
              previous.items[i].identity == h.identity(ds[i].kind, Ordinal(ds, i, KeyOf(ds[i])), ds[i].name)
  {
    forall f | IsIndex(h, f, previous)
      ensures previous.items[i].identity == h.identity(ds[i].kind, Ordinal(ds, i, KeyOf(ds[i])), ds[i].name)
    {
      SameOrdinals(h, f, previous, ds, i, KeyOf(ds[i]));
      IndexedAs(h, f, previous, i);
    }
  }

  lemma IndexedAs<D>(h: Hashes<D>, f: File, index: Index<D>, i: nat)
    requires IsIndex(h, f, index) && i < |index.items|
    ensures |index.items| == |f.declarations| && index.items[i] == EntryAt(h, f.declarations, i)
    ensures index.items[i].kind == f.declarations[i].kind && index.items[i].name == f.declarations[i].name
  {
    hide Ordinal;
  }

  lemma {:induction false} SameOrdinals<D>(h: Hashes<D>, f: File, previous: Index<D>, ds: seq<Declaration>, n: nat,
                                           key: Key)
    requires IsIndex(h, f, previous) && n <= |previous.items| && n <= |ds|
    requires forall k | 0 <= k < n :: SameShapeAt(previous.items, ds, k)
    ensures Ordinal(f.declarations, n, key) == Ordinal(ds, n, key)
  {
    hide IsIndex;
    if n > 0 {
      SameOrdinals(h, f, previous, ds, n - 1, key);
      IndexedAs(h, f, previous, n - 1);
      assert SameShapeAt(previous.items, ds, n - 1);
    }
  }

  // Where rebasing succeeds, it returns the index a fresh build returns, if and only if the
  // other declarations' bytes hash as before and the current declarations are in order. The
  // parser reads declarations one behind the other, so it is the first that can fail.
  lemma RebaseIsBuild<D>(h: Hashes<D>, old_: File, previous: Index<D>, current: File, target: nat, result: Index<D>,
                         built: Index<D>)
    requires IsIndex(h, old_, previous) && previous.reliable && IsIndex(h, current, built) && !current.hasParseErrors
    requires SameShape(previous.items, current.declarations) && target < |previous.items|
    requires Rebased(h, previous.items, current.declarations, target, result.items) && result.reliable
    ensures result == built <==>
            && (forall i | 0 <= i < |current.declarations| && i != target ::
                  h.fingerprint(old_.declarations[i].bytes) == h.fingerprint(current.declarations[i].bytes))
            && Orderly(current.declarations)
  {
    hide Ordinal, AreEntries;
    var ds, was := current.declarations, old_.declarations;
    forall i | 0 <= i < |ds|
      ensures result.items[i] == built.items[i] <==>
              i == target || h.fingerprint(was[i].bytes) == h.fingerprint(ds[i].bytes)
    {
      SameOrdinals(h, old_, previous, ds, i, KeyOf(ds[i]));
      assert SameShapeAt(previous.items, ds, i) && OrderlyAt(was, i);
      IndexedAs(h, old_, previous, i);
      IndexedAs(h, current, built, i);
      assert RebasedAt(h, previous.items, ds, target, result.items, i);
    }
    assert result.items == built.items <==> forall i | 0 <= i < |ds| :: result.items[i] == built.items[i];
  }

  // ----- a fingerprint that is out of date -----------------------------------------------------

  const HEAD := "new a"
  const TAIL := " main() {}"

  // new a; main() {}
  const OLD_SOURCE := HEAD + ";" + TAIL
  // new a; stock main() {}
  const NEW_SOURCE := HEAD + "; stock" + TAIL

  function OldFile(): File {
    File([Declaration(1, "a", ByteRange(0, 6), OLD_SOURCE[0..6], false),
          Declaration(2, "main", ByteRange(7, 16), OLD_SOURCE[7..16], false)], false)
  }

  function NewFile(): File {
    File([Declaration(1, "a", ByteRange(0, 6), NEW_SOURCE[0..6], false),
          Declaration(2, "main", ByteRange(7, 22), NEW_SOURCE[7..22], false)], false)
  }

  // The semicolon of the first declaration is replaced by itself and a qualifier, which
  // becomes part of the second. The edit lies inside the first declaration, so rebasing
  // succeeds, and keeps the second's fingerprint.
  method RebaseKeepsStale<D(==)>(h: Hashes<D>) returns (index: Index<D>, ok: bool)
    requires h.fingerprint(OLD_SOURCE[7..16]) != h.fingerprint(NEW_SOURCE[7..22])
    ensures Shifts.ValidEdit(OLD_SOURCE, NEW_SOURCE, Range(5, 6), Range(5, 12))
    ensures ok && index.reliable && !IsIndex(h, NewFile(), index)
  {
    assert OLD_SOURCE[6..] == TAIL == NEW_SOURCE[12..];
    assert OLD_SOURCE[..5] == HEAD == NEW_SOURCE[..5];
    var previous := BuildDeclarationIndex(h, OldFile());
    EntriesOf(h, previous);
    var before, after := ByteRange(5, 6), ByteRange(5, 12);
    assert IsTarget(previous.items, before, 0);
    assert SameShapeAt(previous.items, NewFile().declarations, 0);
    assert SameShapeAt(previous.items, NewFile().declarations, 1);
    assert SameShape(previous.items, NewFile().declarations);
    index, ok := RebaseDeclarationIndex(h, previous, NewFile(), before, after);
    ghost var target: nat :| IsTarget(previous.items, before, target)
                             && Rebased(h, previous.items, NewFile().declarations, target, index.items);
    assert RebasedAt(h, previous.items, NewFile().declarations, target, index.items, 1);
    if IsIndex(h, NewFile(), index) { IndexedAs(h, NewFile(), index, 1); }
  }

  lemma EntriesOf<D>(h: Hashes<D>, previous: Index<D>)
    requires IsIndex(h, OldFile(), previous)
    ensures previous.reliable && |previous.items| == 2
    ensures previous.items[0] == EntryAt(h, OldFile().declarations, 0)
    ensures previous.items[1] == EntryAt(h, OldFile().declarations, 1)
  {
    assert OrderlyAt(OldFile().declarations, 0) && OrderlyAt(OldFile().declarations, 1);
  }
}
