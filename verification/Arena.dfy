// The bump arena that list storage is cut from (compact_sink.go, compactUintArena
// and compactFieldArena): what allocation, growth and rewinding do to it.
module Arena {

  // The blocks so far and the first free offset of the last one.
  datatype Arena<T> = Arena(cells: seq<seq<T>>, next: nat)

  // Growth rules: the first block, the largest block, the first capacity.
  datatype Rules<T> = Rules(firstBlock: nat, maxBlock: nat, firstCap: nat, zero: T)

  // A window into a block; capacity 0 is the nil slice.
  datatype Slice = Slice(b: nat, off: nat, len: nat, cap: nat)

  const NIL := Slice(0, 0, 0, 0)

  function Min(a: nat, b: nat): nat { if a <= b then a else b }
  function Max(a: nat, b: nat): nat { if a <= b then b else a }

  ghost predicate ValidArena<T>(a: Arena<T>) {
    if a.cells == [] then a.next == 0 else a.next <= |a.cells[|a.cells| - 1]|
  }

  // How much of a block has been handed out.
  function Limit<T>(a: Arena<T>, b: nat): nat
    requires b < |a.cells|
  {
    if b == |a.cells| - 1 then a.next else |a.cells[b]|
  }

  ghost predicate InUse<T>(a: Arena<T>, t: Slice) {
    && t.len <= t.cap
    && (t.cap == 0 || (t.b < |a.cells| && t.off + t.cap <= Limit(a, t.b) && t.off + t.cap <= |a.cells[t.b]|))
  }

  ghost predicate Apart(t: Slice, u: Slice) {
    t.cap == 0 || u.cap == 0 || t.b != u.b || t.off + t.cap <= u.off || u.off + u.cap <= t.off
  }

  function Read<T>(a: Arena<T>, t: Slice): (r: seq<T>)
    requires InUse(a, t)
    ensures |r| == t.len
  {
    if t.cap == 0 then [] else a.cells[t.b][t.off..t.off + t.len]
  }

  function NextBlock<T>(r: Rules<T>, a: Arena<T>, size: nat): nat {
    Max(size, if a.cells == [] then r.firstBlock else Min(|a.cells[|a.cells| - 1]| * 2, r.maxBlock))
  }

  function Zeros<T>(r: Rules<T>, n: nat): (z: seq<T>)
    ensures |z| == n && forall k | 0 <= k < n :: z[k] == r.zero
  {
    seq(n, _ => r.zero)
  }

  predicate Fits<T>(a: Arena<T>, size: nat) {
    a.cells != [] && a.next + size <= |a.cells[|a.cells| - 1]|
  }

  // The arena with room for `size` more items in its last block.
  function WithRoom<T>(r: Rules<T>, a: Arena<T>, size: nat): Arena<T> {
    if Fits(a, size) then a else Arena(a.cells + [Zeros(r, NextBlock(r, a, size))], 0)
  }

  function Alloc<T>(r: Rules<T>, a: Arena<T>, size: nat): (Arena<T>, Slice) {
    var room := WithRoom(r, a, size);
    (room.(next := room.next + size), Slice(|room.cells| - 1, room.next, size, size))
  }

  function Write<T>(a: Arena<T>, b: nat, off: nat, x: T): Arena<T>
    requires b < |a.cells| && off < |a.cells[b]|
  {
    a.(cells := a.cells[b := a.cells[b][off := x]])
  }

  // Copies items into the start of a window.
  function Fill<T>(a: Arena<T>, t: Slice, items: seq<T>): Arena<T>
    requires t.b < |a.cells| && t.off + |items| <= |a.cells[t.b]|
  {
    var block := a.cells[t.b];
    a.(cells := a.cells[t.b := block[..t.off] + items + block[t.off + |items|..]])
  }

  // A full window moves to a fresh one of twice the capacity.
  function Grow<T>(r: Rules<T>, a: Arena<T>, t: Slice): (Arena<T>, Slice)
    requires ValidArena(a) && InUse(a, t) && r.firstCap > 0
  {
    if t.len < t.cap then (a, t)
    else
      var (a', grown) := Alloc(r, a, Max(r.firstCap, t.cap * 2));
      (Fill(a', grown, Read(a, t)), grown.(len := t.len))
  }

  function Append<T>(r: Rules<T>, a: Arena<T>, t: Slice, x: T): (Arena<T>, Slice)
    requires ValidArena(a) && InUse(a, t) && r.firstCap > 0
  {
    GrowKeeps(r, a, t, NIL);
    var (a', t') := Grow(r, a, t);
    (Write(a', t'.b, t'.off + t'.len, x), t'.(len := t'.len + 1))
  }

  function RewindArena<T>(a: Arena<T>, blocks: nat, next: nat): Arena<T>
    requires blocks <= |a.cells|
  {
    if blocks == 0 then Arena([], 0) else Arena(a.cells[..blocks], next)
  }

  // ----- what the operations keep -------------------------------------------------

  // u is untouched between two arenas.
  ghost predicate Same<T>(a: Arena<T>, a': Arena<T>, u: Slice) {
    InUse(a, u) && InUse(a', u) && Read(a', u) == Read(a, u)
  }

  lemma AllocIsFresh<T>(r: Rules<T>, a: Arena<T>, size: nat, u: Slice)
    requires ValidArena(a) && InUse(a, u)
    ensures var (a', t) := Alloc(r, a, size);
      ValidArena(a') && InUse(a', t) && Apart(t, u) && Same(a, a', u) && t.len == t.cap == size
  {
  }

  lemma FillKeeps<T>(a: Arena<T>, t: Slice, items: seq<T>, u: Slice)
    requires ValidArena(a) && InUse(a, t) && t.cap > 0 && |items| <= t.cap && InUse(a, u) && Apart(t, u)
    ensures var a' := Fill(a, t, items);
      ValidArena(a') && InUse(a', t) && Same(a, a', u)
      && a'.cells[t.b][t.off..t.off + |items|] == items
  {
    var block := a.cells[t.b];
    var block' := block[..t.off] + items + block[t.off + |items|..];
    assert |block'| == |block|;
    if u.cap > 0 && u.b == t.b {
      forall k | u.off <= k < u.off + u.len ensures block'[k] == block[k] {
        assert k < t.off || k >= t.off + |items|;
      }
      assert block'[u.off..u.off + u.len] == block[u.off..u.off + u.len];
    }
  }

  lemma WriteKeeps<T>(a: Arena<T>, t: Slice, x: T, u: Slice)
    requires ValidArena(a) && InUse(a, t) && t.len < t.cap && InUse(a, u) && Apart(t, u)
    ensures var a' := Write(a, t.b, t.off + t.len, x);
      && ValidArena(a') && Same(a, a', u)
      && InUse(a', t.(len := t.len + 1)) && Read(a', t.(len := t.len + 1)) == Read(a, t) + [x]
  {
    var a' := Write(a, t.b, t.off + t.len, x);
    var block, block' := a.cells[t.b], a'.cells[t.b];
    assert block'[t.off..t.off + t.len + 1] == block[t.off..t.off + t.len] + [x];
    if u.cap > 0 && u.b == t.b {
      assert block'[u.off..u.off + u.len] == block[u.off..u.off + u.len];
    }
  }

  lemma GrowKeeps<T>(r: Rules<T>, a: Arena<T>, t: Slice, u: Slice)
    requires ValidArena(a) && InUse(a, t) && r.firstCap > 0 && InUse(a, u) && Apart(t, u)
    ensures var (a', t') := Grow(r, a, t);
      && ValidArena(a') && InUse(a', t') && t'.len == t.len < t'.cap && Read(a', t') == Read(a, t)
      && Same(a, a', u) && Apart(t', u)
  {
    if t.len == t.cap {
      var size := Max(r.firstCap, t.cap * 2);
      var (a', grown) := Alloc(r, a, size);
      AllocIsFresh(r, a, size, u);
      FillKeeps(a', grown, Read(a, t), u);
    }
  }

  // Appending adds one item to the window and leaves every other window alone.
  lemma AppendKeeps<T>(r: Rules<T>, a: Arena<T>, t: Slice, x: T, u: Slice)
    requires ValidArena(a) && InUse(a, t) && r.firstCap > 0 && InUse(a, u) && Apart(t, u)
    ensures var (a', t') := Append(r, a, t, x);
      && ValidArena(a') && InUse(a', t') && Read(a', t') == Read(a, t) + [x] && t'.len == t.len + 1
      && Same(a, a', u) && Apart(t', u)
  {
    GrowKeeps(r, a, t, u);
    var (a', t') := Grow(r, a, t);
    hide Grow;
    WriteKeeps(a', t', x, u);
  }

  // ----- rewinding ------------------------------------------------------------------

  // a0's handed-out cells are all still there in a.
  ghost predicate Extends<T>(a0: Arena<T>, a: Arena<T>) {
    && |a0.cells| <= |a.cells|
    && (forall b | 0 <= b < |a0.cells| :: KeepsBlock(a0, a, b))
    && (|a.cells| == |a0.cells| ==> a0.next <= a.next)
  }

  ghost predicate KeepsBlock<T>(a0: Arena<T>, a: Arena<T>, b: nat)
    requires b < |a0.cells| <= |a.cells|
  {
    && |a.cells[b]| == |a0.cells[b]|
    && forall k | 0 <= k < Limit(a0, b) && k < |a0.cells[b]| :: a.cells[b][k] == a0.cells[b][k]
  }

  // t was cut after a0.
  ghost predicate Beyond<T>(a0: Arena<T>, t: Slice) {
    t.cap == 0 || t.b >= |a0.cells| || (t.b == |a0.cells| - 1 && t.off >= a0.next)
  }

  lemma ExtendsSame<T>(a0: Arena<T>, a: Arena<T>, u: Slice)
    requires ValidArena(a0) && ValidArena(a) && Extends(a0, a) && InUse(a0, u)
    ensures Same(a0, a, u)
  {
    if u.cap > 0 {
      assert KeepsBlock(a0, a, u.b);
      assert a.cells[u.b][u.off..u.off + u.len] == a0.cells[u.b][u.off..u.off + u.len];
    }
  }

  lemma AllocExtends<T>(r: Rules<T>, a0: Arena<T>, a: Arena<T>, size: nat)
    requires ValidArena(a0) && ValidArena(a) && Extends(a0, a)
    ensures var (a', t) := Alloc(r, a, size); Extends(a0, a') && Beyond(a0, t) && ValidArena(a') && InUse(a', t)
  {
    var (a', t) := Alloc(r, a, size);
    forall b | 0 <= b < |a0.cells| ensures KeepsBlock(a0, a', b) {
      assert KeepsBlock(a0, a, b);
    }
  }

  lemma FillExtends<T>(a0: Arena<T>, a: Arena<T>, t: Slice, items: seq<T>)
    requires ValidArena(a0) && ValidArena(a) && Extends(a0, a)
    requires InUse(a, t) && t.cap > 0 && |items| <= t.cap && Beyond(a0, t)
    ensures Extends(a0, Fill(a, t, items))
  {
    var a' := Fill(a, t, items);
    forall b | 0 <= b < |a0.cells| ensures KeepsBlock(a0, a', b) {
      assert KeepsBlock(a0, a, b);
    }
  }

  lemma WriteExtends<T>(a0: Arena<T>, a: Arena<T>, t: Slice, x: T)
    requires ValidArena(a0) && ValidArena(a) && Extends(a0, a)
    requires InUse(a, t) && t.len < t.cap && Beyond(a0, t)
    ensures Extends(a0, Write(a, t.b, t.off + t.len, x))
  {
    var a' := Write(a, t.b, t.off + t.len, x);
    forall b | 0 <= b < |a0.cells| ensures KeepsBlock(a0, a', b) {
      assert KeepsBlock(a0, a, b);
    }
  }

  lemma AppendExtends<T>(r: Rules<T>, a0: Arena<T>, a: Arena<T>, t: Slice, x: T)
    requires ValidArena(a0) && ValidArena(a) && Extends(a0, a)
    requires InUse(a, t) && r.firstCap > 0 && Beyond(a0, t)
    ensures var (a', t') := Append(r, a, t, x); Extends(a0, a') && Beyond(a0, t')
  {
    GrowKeeps(r, a, t, NIL);
    var (a', t') := Grow(r, a, t);
    if t.len == t.cap {
      var size := Max(r.firstCap, t.cap * 2);
      AllocExtends(r, a0, a, size);
      FillExtends(a0, Alloc(r, a, size).0, Alloc(r, a, size).1, Read(a, t));
    }
    hide Grow, Extends;
    WriteExtends(a0, a', t', x);
  }

  // Rewinding gives back exactly the handed-out cells of the mark.
  lemma RewindRestores<T>(a0: Arena<T>, a: Arena<T>)
    requires ValidArena(a0) && ValidArena(a) && Extends(a0, a)
    ensures var a' := RewindArena(a, |a0.cells|, a0.next);
      ValidArena(a') && Extends(a0, a') && Extends(a', a0) && Limits(a0, a')
  {
    var a' := RewindArena(a, |a0.cells|, a0.next);
    if a0.cells != [] {
      assert KeepsBlock(a0, a, |a0.cells| - 1);
    }
    forall b | 0 <= b < |a0.cells| ensures KeepsBlock(a0, a', b) && KeepsBlock(a', a0, b) {
      assert KeepsBlock(a0, a, b);
    }
  }

  ghost predicate Limits<T>(a: Arena<T>, a': Arena<T>) { |a.cells| == |a'.cells| && a.next == a'.next }

  lemma ExtendsTransitive<T>(a0: Arena<T>, a1: Arena<T>, a2: Arena<T>)
    requires ValidArena(a0) && ValidArena(a1) && Extends(a0, a1) && Extends(a1, a2)
    ensures Extends(a0, a2)
  {
    forall b | 0 <= b < |a0.cells| ensures KeepsBlock(a0, a2, b) {
      assert KeepsBlock(a0, a1, b) && KeepsBlock(a1, a2, b);
    }
  }
}
