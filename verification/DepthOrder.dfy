// Termination of the rescanning loop. The number of unprocessed tokens at each
// expansion depth, shallowest first, falls in the lexicographic order; there is
// no bound on the deeper counts, so the order is shown to be well-founded.
module DepthOrder {

  ghost predicate Less(w: seq<nat>, v: seq<nat>) {
    |w| == |v| && |v| > 0 && (w[0] < v[0] || (w[0] == v[0] && Less(w[1..], v[1..])))
  }

  // There is no infinite descent from v.
  least predicate Terminates(v: seq<nat>) {
    forall w :: Less(w, v) ==> Terminates(w)
  }

  lemma {:induction false} Descend(k: ORDINAL, v: seq<nat>, w: seq<nat>) returns (k': ORDINAL)
    requires Terminates#[k](v) && Less(w, v)
    ensures k' < k && Terminates#[k'](w)
    decreases k
  {
    if k.IsLimit {
      var smaller :| smaller < k && Terminates#[smaller](v);
      k' := Descend(smaller, v, w);
    } else {
      k' := k - 1;
    }
  }

  lemma {:induction false} ConsTerminates(k: ORDINAL, h: nat, t: seq<nat>)
    requires Terminates#[k](t)
    requires forall t' | |t'| == |t| :: Terminates(t')
    ensures Terminates([h] + t)
    decreases h, k
  {
    forall w | Less(w, [h] + t) ensures Terminates(w) {
      assert w == [w[0]] + w[1..];
      if w[0] < h {
        var k' :| Terminates#[k'](w[1..]);
        ConsTerminates(k', w[0], w[1..]);
      } else {
        assert ([h] + t)[1..] == t;
        var k' := Descend(k, t, w[1..]);
        ConsTerminates(k', h, w[1..]);
      }
    }
  }

  lemma {:induction false} AllTerminate(v: seq<nat>)
    ensures Terminates(v)
    decreases |v|
  {
    if v == [] {
      assert forall w :: !Less(w, v);
    } else {
      forall t: seq<nat> | |t| == |v| - 1 ensures Terminates(t) {
        AllTerminate(t);
      }
      assert Terminates(v[1..]);
      var k :| Terminates#[k](v[1..]);
      ConsTerminates(k, v[0], v[1..]);
      assert v == [v[0]] + v[1..];
    }
  }

  // A vector that is no larger up to position d and smaller at d is less.
  lemma {:induction false} SmallerAt(w: seq<nat>, v: seq<nat>, d: nat)
    requires |w| == |v| && d < |v| && w[d] < v[d]
    requires forall k | 0 <= k < d :: w[k] <= v[k]
    ensures Less(w, v)
    decreases d
  {
    if w[0] == v[0] {
      SmallerAt(w[1..], v[1..], d - 1);
    }
  }
}
