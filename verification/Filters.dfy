/** Lists that keep some elements of another list, in its order. */
module Filters {

  /** `ys` are the elements of `xs` at the positions `ks`, in order. */
  ghost predicate Picks<T(!new)>(xs: seq<T>, ks: seq<nat>, ys: seq<T>) {
    && |ks| == |ys|
    && (forall i :: 0 <= i < |ks| ==> ks[i] < |xs| && ys[i] == xs[ks[i]])
    && forall i, j :: 0 <= i < j < |ks| ==> ks[i] < ks[j]
  }

  /** One element more, kept or not. */
  lemma PicksStep<T(!new)>(xs: seq<T>, ks: seq<nat>, ys: seq<T>, keep: bool, more: seq<T>) returns (ms: seq<nat>)
    requires xs != [] && Picks(xs[..|xs| - 1], ks, ys)
    requires more == ys + if keep then [xs[|xs| - 1]] else []
    ensures Picks(xs, ms, more)
    ensures forall j: nat :: j in ms <==> j in ks || (keep && j == |xs| - 1)
    ensures forall j: nat :: j in ks ==> j < |xs| - 1
  {
    ms := ks + if keep then [|xs| - 1] else [];
  }
}
