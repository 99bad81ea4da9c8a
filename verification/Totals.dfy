/** Sums over the entries of a table, used to count references and reservations. */
module Totals {

  function Total(xs: seq<nat>): nat {
    if xs == [] then 0 else Total(xs[..|xs| - 1]) + xs[|xs| - 1]
  }

  /** Replacing one entry changes the total by exactly the difference. */
  lemma {:induction false} TotalUpdate(xs: seq<nat>, i: nat, v: nat)
    requires i < |xs|
    ensures Total(xs[i := v]) + xs[i] == Total(xs) + v
  {
    var last := |xs| - 1;
    if i == last {
      assert xs[i := v][..last] == xs[..last];
    } else {
      TotalUpdate(xs[..last], i, v);
      assert xs[i := v][..last] == xs[..last][i := v];
    }
  }

  lemma {:induction false} TotalZero(xs: seq<nat>)
    ensures Total(xs) == 0 <==> forall i :: 0 <= i < |xs| ==> xs[i] == 0
  {
    if xs != [] {
      TotalZero(xs[..|xs| - 1]);
      assert forall i :: 0 <= i < |xs| - 1 ==> xs[i] == xs[..|xs| - 1][i];
    }
  }

  /** Entry by entry domination carries over to the totals. */
  lemma {:induction false} TotalBound(xs: seq<nat>, ys: seq<nat>, k: nat)
    requires |xs| == |ys| && forall i :: 0 <= i < |xs| ==> xs[i] <= k * ys[i]
    ensures Total(xs) <= k * Total(ys)
  {
    if xs != [] {
      var last := |xs| - 1;
      TotalBound(xs[..last], ys[..last], k);
      assert k * Total(ys) == k * Total(ys[..last]) + k * ys[last];
    }
  }
}
