/** Weighted sums over sequences, and the exchange of summation order that the
    packing bounds and the usage-conservation law both rest on. */
module Sums {

  /** The total weight of `xs`. */
  function Sum<T>(w: T -> int, xs: seq<T>): int {
    if xs == [] then 0 else Sum(w, xs[..|xs| - 1]) + w(xs[|xs| - 1])
  }

  /** The total weight of the elements of `xs` whose key is `k`. */
  function Tally<T, K(==)>(w: T -> int, xs: seq<T>, ks: seq<K>, k: K): int
    requires |xs| == |ks|
  {
    if xs == [] then 0
    else
      var n := |xs| - 1;
      Tally(w, xs[..n], ks[..n], k) + if ks[n] == k then w(xs[n]) else 0
  }

  /** The total weight of the elements of `xs` whose key is listed in `keys`. */
  function SumWhere<T, K(==)>(w: T -> int, xs: seq<T>, ks: seq<K>, keys: seq<K>): int
    requires |xs| == |ks|
  {
    if xs == [] then 0
    else
      var n := |xs| - 1;
      SumWhere(w, xs[..n], ks[..n], keys) + if ks[n] in keys then w(xs[n]) else 0
  }

  /** The tallies of all `keys`, added up. */
  function TallyOver<T, K(==)>(w: T -> int, xs: seq<T>, ks: seq<K>, keys: seq<K>): int
    requires |xs| == |ks|
  {
    if keys == [] then 0
    else TallyOver(w, xs, ks, keys[..|keys| - 1]) + Tally(w, xs, ks, keys[|keys| - 1])
  }

  ghost predicate Distinct<K>(keys: seq<K>) {
    forall i, j :: 0 <= i < j < |keys| ==> keys[i] != keys[j]
  }

  ghost predicate NonNegative<T(!new)>(w: T -> int) {
    forall x :: w(x) >= 0
  }

  lemma {:induction false} TallyOverSnoc<T, K>(w: T -> int, xs: seq<T>, ks: seq<K>, keys: seq<K>)
    requires |xs| == |ks| > 0 && Distinct(keys)
    ensures TallyOver(w, xs, ks, keys)
         == TallyOver(w, xs[..|xs| - 1], ks[..|xs| - 1], keys)
            + if ks[|xs| - 1] in keys then w(xs[|xs| - 1]) else 0
  {
    if keys == [] {
    } else {
      var front, last := keys[..|keys| - 1], keys[|keys| - 1];
      TallyOverSnoc(w, xs, ks, front);
      assert keys == front + [last];
    }
  }

  /** Adding up per key or per element gives the same total. */
  lemma {:induction false} Exchange<T, K>(w: T -> int, xs: seq<T>, ks: seq<K>, keys: seq<K>)
    requires |xs| == |ks| && Distinct(keys)
    ensures TallyOver(w, xs, ks, keys) == SumWhere(w, xs, ks, keys)
  {
    if xs == [] {
      TallyOverEmpty(w, xs, ks, keys);
    } else {
      TallyOverSnoc(w, xs, ks, keys);
      Exchange(w, xs[..|xs| - 1], ks[..|xs| - 1], keys);
    }
  }

  lemma {:induction false} TallyOverEmpty<T, K>(w: T -> int, xs: seq<T>, ks: seq<K>, keys: seq<K>)
    requires xs == [] && ks == []
    ensures TallyOver(w, xs, ks, keys) == 0
  {
    if keys == [] {
    } else {
      TallyOverEmpty(w, xs, ks, keys[..|keys| - 1]);
    }
  }

  lemma {:induction false} SumWhereAll<T, K>(w: T -> int, xs: seq<T>, ks: seq<K>, keys: seq<K>)
    requires |xs| == |ks|
    requires forall i :: 0 <= i < |ks| ==> ks[i] in keys
    ensures SumWhere(w, xs, ks, keys) == Sum(w, xs)
  {
    if xs == [] {
    } else {
      SumWhereAll(w, xs[..|xs| - 1], ks[..|xs| - 1], keys);
    }
  }

  lemma Reassociate<T>(a: seq<T>, b: seq<T>, x: T)
    ensures a + (b + [x]) == a + b + [x]
  {
  }

  lemma SumTake<T>(w: T -> int, xs: seq<T>, i: nat)
    requires i < |xs|
    ensures Sum(w, xs[..i + 1]) == Sum(w, xs[..i]) + w(xs[i])
  {
    assert xs[..i + 1][..i] == xs[..i];
  }

  lemma {:induction false} SumConcat<T>(w: T -> int, xs: seq<T>, ys: seq<T>)
    ensures Sum(w, xs + ys) == Sum(w, xs) + Sum(w, ys)
  {
    if ys == [] {
      assert xs + ys == xs;
    } else {
      SumConcat(w, xs, ys[..|ys| - 1]);
      assert (xs + ys)[..|xs + ys| - 1] == xs + ys[..|ys| - 1];
    }
  }

  /** One summand taken out of the middle. */
  lemma SumAround<T>(w: T -> int, xs: seq<T>, i: nat)
    requires i < |xs|
    ensures Sum(w, xs) == Sum(w, xs[..i] + xs[i + 1..]) + w(xs[i])
  {
    SumConcat(w, xs[..i], xs[i + 1..]);
    SumConcat(w, xs[..i + 1], xs[i + 1..]);
    SumTake(w, xs, i);
    assert xs == xs[..i + 1] + xs[i + 1..];
  }

  /** The order of the summands does not matter. */
  lemma {:induction false} SumPermuted<T>(w: T -> int, xs: seq<T>, ys: seq<T>)
    requires multiset(xs) == multiset(ys)
    ensures Sum(w, xs) == Sum(w, ys)
    decreases |xs|
  {
    if xs == [] {
      NoElements(ys);
    } else {
      var n := |xs| - 1;
      var rest, i := WithoutOne(xs, ys);
      SumPermuted(w, xs[..n], rest);
      SumAround(w, ys, i);
    }
  }

  lemma NoElements<T>(ys: seq<T>)
    requires multiset(ys) == multiset{}
    ensures ys == []
  {
    assert |multiset(ys)| == |ys|;
  }

  lemma WithoutOne<T>(xs: seq<T>, ys: seq<T>) returns (rest: seq<T>, i: nat)
    requires xs != [] && multiset(xs) == multiset(ys)
    ensures i < |ys| && ys[i] == xs[|xs| - 1] && rest == ys[..i] + ys[i + 1..]
    ensures multiset(xs[..|xs| - 1]) == multiset(rest)
  {
    var x := xs[|xs| - 1];
    assert xs == xs[..|xs| - 1] + [x];
    assert x in multiset(ys);
    i :| 0 <= i < |ys| && ys[i] == x;
    rest := ys[..i] + ys[i + 1..];
    MultisetAround(ys, i);
    MultisetSnoc(xs[..|xs| - 1], x);
    CancelOne(multiset(xs[..|xs| - 1]), multiset(rest), x);
  }

  lemma MultisetAround<T>(ys: seq<T>, i: nat)
    requires i < |ys|
    ensures multiset(ys) == multiset(ys[..i] + ys[i + 1..]) + multiset{ys[i]}
  {
    assert ys == ys[..i] + [ys[i]] + ys[i + 1..];
  }

  lemma MultisetSnoc<T>(xs: seq<T>, x: T)
    ensures multiset(xs + [x]) == multiset(xs) + multiset{x}
  {
  }

  lemma CancelOne<T>(a: multiset<T>, b: multiset<T>, x: T)
    requires a + multiset{x} == b + multiset{x}
    ensures a == b
  {
    assert a == (a + multiset{x}) - multiset{x};
    assert b == (b + multiset{x}) - multiset{x};
  }

  lemma {:induction false} TallyAbsent<T, K>(w: T -> int, xs: seq<T>, ks: seq<K>, k: K)
    requires |xs| == |ks| && k !in ks
    ensures Tally(w, xs, ks, k) == 0
  {
    if xs == [] {
    } else {
      assert ks[|xs| - 1] != k;
      TallyAbsent(w, xs[..|xs| - 1], ks[..|xs| - 1], k);
    }
  }

  lemma {:induction false} TallyNonNegative<T(!new), K>(w: T -> int, xs: seq<T>, ks: seq<K>, k: K)
    requires |xs| == |ks| && NonNegative(w)
    ensures Tally(w, xs, ks, k) >= 0
  {
    if xs == [] {
    } else {
      TallyNonNegative(w, xs[..|xs| - 1], ks[..|xs| - 1], k);
    }
  }

  lemma {:induction false} SumNonNegative<T(!new)>(w: T -> int, xs: seq<T>)
    requires NonNegative(w)
    ensures Sum(w, xs) >= 0
  {
    if xs == [] {
    } else {
      SumNonNegative(w, xs[..|xs| - 1]);
    }
  }

  lemma CancelFactor(a: int, b: int, unit: int)
    requires unit > 0 && a * unit < b * unit
    ensures a < b
  {
    assert (b - a) * unit > 0;
  }

  /** The numbers below `m`, as keys. */
  function Below(m: nat): (keys: seq<nat>)
    ensures |keys| == m && forall i :: 0 <= i < m ==> keys[i] == i
  {
    seq(m, i => i)
  }

  lemma BelowFacts(m: nat)
    ensures Distinct(Below(m))
    ensures forall i: nat :: i in Below(m) <==> i < m
    ensures m > 0 ==> Below(m)[..m - 1] == Below(m - 1) && Below(m)[m - 1] == m - 1
  {
    forall i: nat | i < m
      ensures i in Below(m)
    {
      assert Below(m)[i] == i;
    }
  }

  /** When every element sits in one of `m` bins, the bins' tallies add up to the whole. */
  lemma BinsTotal<T>(w: T -> int, xs: seq<T>, ks: seq<nat>, m: nat)
    requires |xs| == |ks| && forall i :: 0 <= i < |ks| ==> ks[i] < m
    ensures TallyOver(w, xs, ks, Below(m)) == Sum(w, xs)
  {
    BelowFacts(m);
    Exchange(w, xs, ks, Below(m));
    SumWhereAll(w, xs, ks, Below(m));
  }

  /** If every bin holds at most `bound`, `m` bins hold at most `m * bound`. */
  lemma {:induction false} BinsAtMost<T>(w: T -> int, xs: seq<T>, ks: seq<nat>, m: nat, bound: int)
    requires |xs| == |ks|
    requires forall b: nat :: b < m ==> Tally(w, xs, ks, b) <= bound
    ensures TallyOver(w, xs, ks, Below(m)) <= m * bound
  {
    if m == 0 {
    } else {
      BelowFacts(m);
      BinsAtMost(w, xs, ks, m - 1, bound);
      assert m * bound == (m - 1) * bound + bound;
    }
  }

  /** If every bin holds at least `bound`, `m` bins hold at least `m * bound`. */
  lemma {:induction false} BinsAtLeast<T>(w: T -> int, xs: seq<T>, ks: seq<nat>, m: nat, bound: int)
    requires |xs| == |ks|
    requires forall b: nat :: b < m ==> Tally(w, xs, ks, b) >= bound
    ensures TallyOver(w, xs, ks, Below(m)) >= m * bound
  {
    if m == 0 {
    } else {
      BelowFacts(m);
      BinsAtLeast(w, xs, ks, m - 1, bound);
      assert m * bound == (m - 1) * bound + bound;
    }
  }

  /** The total over `m` bins of at most `bound` each. */
  lemma TotalAtMost<T>(w: T -> int, xs: seq<T>, ks: seq<nat>, m: nat, bound: int)
    requires |xs| == |ks| && forall i :: 0 <= i < |ks| ==> ks[i] < m
    requires forall b: nat :: b < m ==> Tally(w, xs, ks, b) <= bound
    ensures Sum(w, xs) <= m * bound
  {
    BinsTotal(w, xs, ks, m);
    BinsAtMost(w, xs, ks, m, bound);
  }

  /** The total over `m + 1` bins of which all but the last hold at least `bound`. */
  lemma TotalAtLeast<T>(w: T -> int, xs: seq<T>, ks: seq<nat>, m: nat, bound: int)
    requires |xs| == |ks| && forall i :: 0 <= i < |ks| ==> ks[i] <= m
    requires forall b: nat :: b < m ==> Tally(w, xs, ks, b) >= bound
    ensures Sum(w, xs) >= m * bound + Tally(w, xs, ks, m)
  {
    BinsTotal(w, xs, ks, m + 1);
    BinsAtLeast(w, xs, ks, m, bound);
    BelowFacts(m + 1);
  }
}
