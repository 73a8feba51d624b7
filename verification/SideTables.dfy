// Data that only some nodes of the compact builder have, in a table of its own
// (compact_sink.go, ensureTrivia and ensureError).
module SideTables {
  import opened Chars

  // ids[n] is node n's entry in the table, 0 for none; entry 0 is a placeholder.
  datatype Side<T> = Side(ids: seq<nat>, table: seq<T>)

  function EmptySide<T>(zero: T): Side<T> { Side([0], [zero]) }

  ghost predicate ValidSide<T>(s: Side<T>) {
    && s.ids != [] && s.ids[0] == 0 && s.table != []
    && (forall n | 0 <= n < |s.ids| :: s.ids[n] < |s.table|)
    && forall m, n | 0 <= m < n < |s.ids| && s.ids[m] != 0 :: s.ids[m] != s.ids[n]
  }

  function Get<T>(s: Side<T>, n: nat): Option<T>
    requires n < |s.ids| && s.ids[n] < |s.table|
  {
    if s.ids[n] == 0 then None else Some(s.table[s.ids[n]])
  }

  ghost function Entries<T>(s: Side<T>): (r: seq<Option<T>>)
    requires ValidSide(s)
    ensures |r| == |s.ids| && forall n | 0 <= n < |r| :: r[n] == Get(s, n)
  {
    seq(|s.ids|, n requires 0 <= n < |s.ids| => Get(s, n))
  }

  function AddEmpty<T>(s: Side<T>): Side<T> { s.(ids := s.ids + [0]) }

  function Put<T>(s: Side<T>, n: nat, x: T): Side<T>
    requires n < |s.ids| && s.ids[n] < |s.table|
  {
    if s.ids[n] == 0 then Side(s.ids[n := |s.table|], s.table + [x]) else s.(table := s.table[s.ids[n] := x])
  }

  lemma AddEmptyKeeps<T>(s: Side<T>)
    requires ValidSide(s)
    ensures ValidSide(AddEmpty(s)) && Entries(AddEmpty(s)) == Entries(s) + [None]
  {
  }

  lemma PutKeeps<T>(s: Side<T>, n: nat, x: T)
    requires ValidSide(s) && 0 < n < |s.ids|
    ensures ValidSide(Put(s, n, x)) && Entries(Put(s, n, x)) == Entries(s)[n := Some(x)]
  {
  }

  // Since s0 entries were only given to new nodes.
  ghost predicate Since<T>(s0: Side<T>, s: Side<T>) {
    && s0.ids <= s.ids && s0.table <= s.table
    && forall n | |s0.ids| <= n < |s.ids| :: s.ids[n] == 0 || |s0.table| <= s.ids[n]
  }

  lemma AddEmptySince<T>(s0: Side<T>, s: Side<T>)
    requires Since(s0, s)
    ensures Since(s0, AddEmpty(s))
  {
  }

  lemma PutSince<T>(s0: Side<T>, s: Side<T>, n: nat, x: T)
    requires ValidSide(s0) && ValidSide(s) && Since(s0, s) && |s0.ids| <= n < |s.ids|
    ensures Since(s0, Put(s, n, x))
  {
  }

  lemma SinceTransitive<T>(s0: Side<T>, s1: Side<T>, s2: Side<T>)
    requires Since(s0, s1) && Since(s1, s2)
    ensures Since(s0, s2)
  {
    forall n | |s0.ids| <= n < |s2.ids| ensures s2.ids[n] == 0 || |s0.table| <= s2.ids[n] {
      if n < |s1.ids| { assert s2.ids[n] == s1.ids[n]; }
    }
  }

  // Cutting both back to their old lengths restores all entries.
  lemma CutBack<T>(s0: Side<T>, s: Side<T>)
    requires Since(s0, s)
    ensures Side(s.ids[..|s0.ids|], s.table[..|s0.table|]) == s0
  {
  }
}
