// Character classes and small shared types. A source byte is modelled by a
// `char`; nothing below depends on how many values a byte can take.
module Chars {

  datatype Option<+T> = None | Some(value: T)

  // A range of offsets.
  datatype Range = Range(start: nat, end: nat)

  // A name as the tables know it, cut to their limit if there is one (preprocess/macro.go).
  function CutName(name: string, limit: nat): string {
    if limit > 0 && |name| > limit then name[..limit] else name
  }

  lemma Reassociate<T>(a: seq<T>, b: seq<T>, c: seq<T>)
    ensures (a + b) + c == a + (b + c)
  {
  }

  predicate PawnAlpha(c: char) {
    c == '_' || c == '@' || 'A' <= c <= 'Z' || 'a' <= c <= 'z'
  }

  predicate Digit(c: char) { '0' <= c <= '9' }

  predicate PawnAlphanum(c: char) { PawnAlpha(c) || Digit(c) }

  // The text w occurs in s at offset i.
  ghost predicate At(s: string, i: nat, w: string) {
    i + |w| <= |s| && s[i..i + |w|] == w
  }

  lemma AtOne(s: string, i: nat, c: char)
    ensures At(s, i, [c]) <==> i < |s| && s[i] == c
  {
    if i < |s| {
      assert s[i..i + 1] == [s[i]];
    }
  }

  lemma AtIndex(s: string, i: nat, w: string, k: nat)
    requires At(s, i, w) && k < |w|
    ensures i + k < |s| && s[i + k] == w[k]
  {
    assert s[i + k] == s[i..i + |w|][k];
  }

  lemma AtSplit(s: string, i: nat, a: string, b: string)
    requires At(s, i, a + b)
    ensures At(s, i, a) && At(s, i + |a|, b) && i + |a| + |b| <= |s|
  {
    assert s[i..i + |a|] == (a + b)[..|a|];
    assert s[i + |a|..i + |a| + |b|] == (a + b)[|a|..];
  }

  lemma AtJoin(s: string, i: nat, a: string, b: string)
    requires At(s, i, a) && At(s, i + |a|, b)
    ensures At(s, i, a + b) && i + |a| + |b| <= |s|
  {
    assert s[i..i + |a| + |b|] == s[i..i + |a|] + s[i + |a|..i + |a| + |b|];
  }
}
