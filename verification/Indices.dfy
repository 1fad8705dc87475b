/** Lists of places in a sequence. */
module Indices {

  /** Places below `n`, each once and in order. */
  ghost predicate Increasing(ks: seq<nat>, n: nat) {
    (forall i :: 0 <= i < |ks| ==> ks[i] < n) && forall i, j :: 0 <= i < j < |ks| ==> ks[i] < ks[j]
  }

  /** The places moved up by `m`. */
  function MovedUp(ks: seq<nat>, m: nat): (moved: seq<nat>)
    ensures |moved| == |ks| && forall i :: 0 <= i < |ks| ==> moved[i] == ks[i] + m
  {
    seq(|ks|, i requires 0 <= i < |ks| => ks[i] + m)
  }

  lemma MovedUpHas(ks: seq<nat>, m: nat, k: nat)
    ensures k in MovedUp(ks, m) <==> k >= m && k - m in ks
  {
    if k >= m && k - m in ks {
      var i :| 0 <= i < |ks| && ks[i] == k - m;
      assert MovedUp(ks, m)[i] == k;
    }
  }

  lemma FirstIn(ks: seq<nat>)
    ensures ks != [] ==> exists k: nat :: k in ks
  {
    assert ks != [] ==> ks[0] in ks;
  }

  /** Such a list is fixed by which places are in it. */
  lemma {:induction false} SameIndices(a: seq<nat>, b: seq<nat>, n: nat)
    requires Increasing(a, n) && Increasing(b, n) && forall k: nat :: k in a <==> k in b
    ensures a == b
    decreases |a|
  {
    if a == [] {
      FirstIn(b);
    } else {
      var p, q := |a| - 1, |b| - 1;
      assert a[p] in b && b[q] in a;
      forall k: nat
        ensures k in a[..p] <==> k in b[..q]
      {
        assert k in a <==> k in b;
        assert k in a[..p] <==> k in a && k != a[p];
        assert k in b[..q] <==> k in b && k != b[q];
      }
      SameIndices(a[..p], b[..q], n);
    }
  }
}
