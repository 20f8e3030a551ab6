/** The sharper bound for pods taken in decreasing order along one dominant
    dimension: the number of nodes is within three halves of the best, plus one half. */
module Decreasing {
  import opened Cluster
  import opened Packing
  import opened Sums
  import opened AnyFit

  /** What fills bin `b` along one dimension. */
  function Load(size: PodInfo -> int, ps: seq<PodInfo>, bs: seq<nat>, b: nat): int
    requires |ps| == |bs|
  {
    Tally(size, ps, bs, b)
  }

  lemma LoadNonNegative(size: PodInfo -> int, ps: seq<PodInfo>, bs: seq<nat>, b: nat)
    requires |ps| == |bs| && NonNegative(size)
    ensures Load(size, ps, bs, b) >= 0
  {
    TallyNonNegative(size, ps, bs, b);
  }

  /** The one-dimensional shadow of `AnyFitTrace`. */
  ghost predicate LineTrace(size: PodInfo -> int, cap: int, ps: seq<PodInfo>, bs: seq<nat>, k: nat)
    requires |ps| == |bs|
  {
    if ps == [] then k == 0
    else
      var n := |ps| - 1;
      || (bs[n] < k && LineTrace(size, cap, ps[..n], bs[..n], k))
      || (bs[n] + 1 == k && LineTrace(size, cap, ps[..n], bs[..n], k - 1)
          && NoneHasRoom(size, cap, ps[..n], bs[..n], bs[n], ps[n]))
  }

  /** None of the first `k` bins could take `p` as well. */
  ghost predicate NoneHasRoom(size: PodInfo -> int, cap: int, ps: seq<PodInfo>, bs: seq<nat>, k: nat, p: PodInfo)
    requires |ps| == |bs|
  {
    forall i: nat :: i < k ==> Load(size, ps, bs, i) + size(p) > cap
  }

  ghost predicate LinePacks(size: PodInfo -> int, cap: int, ps: seq<PodInfo>, bs: seq<nat>, m: nat) {
    && |bs| == |ps|
    && (forall i :: 0 <= i < |bs| ==> bs[i] < m)
    && forall b: nat :: b < m ==> Load(size, ps, bs, b) <= cap
  }

  ghost predicate Descending(size: PodInfo -> int, ps: seq<PodInfo>) {
    forall i, j :: 0 <= i < j < |ps| ==> size(ps[i]) >= size(ps[j])
  }

  lemma {:induction false} LineKeys(size: PodInfo -> int, cap: int, ps: seq<PodInfo>, bs: seq<nat>, k: nat)
    requires |ps| == |bs| && LineTrace(size, cap, ps, bs, k)
    ensures forall i :: 0 <= i < |bs| ==> bs[i] < k
    ensures k == 0 <==> ps == []
  {
    if ps == [] {
    } else {
      var n := |ps| - 1;
      if bs[n] < k && LineTrace(size, cap, ps[..n], bs[..n], k) {
        LineKeys(size, cap, ps[..n], bs[..n], k);
      } else {
        LineKeys(size, cap, ps[..n], bs[..n], k - 1);
      }
    }
  }

  /** A pod counts double when even the smallest pod, of size `s`, could not
      share a node with it. */
  function Weight(size: PodInfo -> int, cap: int, s: int): PodInfo -> int {
    (p: PodInfo) => if size(p) + s > cap then 2 else 1
  }

  /** A bin with no room for a pod of size `s` weighs at least two. */
  lemma {:induction false} FullBinWeighsTwo(size: PodInfo -> int, cap: int, s: int, ps: seq<PodInfo>, bs: seq<nat>,
                                            b: nat)
    requires |ps| == |bs| && s <= cap && NonNegative(size)
    ensures var w := Load(Weight(size, cap, s), ps, bs, b);
            var l := Load(size, ps, bs, b);
            w >= 2 || (w == 1 && l + s <= cap) || (w == 0 && l == 0)
  {
    if ps == [] {
    } else {
      var n := |ps| - 1;
      FullBinWeighsTwo(size, cap, s, ps[..n], bs[..n], b);
    }
  }

  /** A bin that holds only pods larger than a third weighs at most two. */
  lemma {:induction false} PackedBinWeighsTwo(size: PodInfo -> int, cap: int, s: int, ps: seq<PodInfo>, bs: seq<nat>,
                                              b: nat)
    requires |ps| == |bs| && 3 * s > cap && s >= 0
    requires forall i :: 0 <= i < |ps| ==> size(ps[i]) >= s
    ensures var w := Load(Weight(size, cap, s), ps, bs, b);
            var l := Load(size, ps, bs, b);
            && (w <= 0 ==> w == 0 && l == 0) && (w == 1 ==> l >= s)
            && (w == 2 ==> l >= 2 * s || l + s > cap) && (w >= 3 ==> l > cap)
  {
    if ps == [] {
    } else {
      var n := |ps| - 1;
      PackedBinWeighsTwo(size, cap, s, ps[..n], bs[..n], b);
      assert size(ps[n]) >= s;
    }
  }

  /** When the last pod opens node `k` and is larger than a third of a node,
      no packing does with fewer than `k` nodes. */
  lemma LargeOpener(size: PodInfo -> int, cap: int, ps: seq<PodInfo>, bs: seq<nat>, k: nat, gs: seq<nat>, m: nat)
    requires |ps| == |bs| > 0 && k >= 1 && cap > 0 && NonNegative(size)
    requires forall i :: 0 <= i < |bs| ==> bs[i] < k
    requires bs[|ps| - 1] == k - 1
    requires NoneHasRoom(size, cap, ps[..|ps| - 1], bs[..|ps| - 1], k - 1, ps[|ps| - 1])
    requires Descending(size, ps) && 3 * size(ps[|ps| - 1]) > cap
    requires LinePacks(size, cap, ps, gs, m)
    ensures k <= m
  {
    var n := |ps| - 1;
    var s := size(ps[n]);
    var w := Weight(size, cap, s);
    assert Load(size, ps, gs, gs[n]) <= cap;
    ItemWithinLoad(size, ps, gs, n);
    forall b: nat | b < k - 1
      ensures Tally(w, ps, bs, b) >= 2
    {
      FullBinWeighsTwo(size, cap, s, ps[..n], bs[..n], b);
      assert Load(size, ps[..n], bs[..n], b) + s > cap;
      assert Load(w, ps[..n], bs[..n], b) >= 2;
    }
    LoadNonNegative(w, ps[..n], bs[..n], k - 1);
    assert Load(w, ps, bs, k - 1) >= 1;
    TotalAtLeast(w, ps, bs, k - 1, 2);
    forall b: nat | b < m
      ensures Tally(w, ps, gs, b) <= 2
    {
      PackedBinWeighsTwo(size, cap, s, ps, gs, b);
      assert Load(size, ps, gs, b) <= cap;
      assert Load(w, ps, gs, b) <= 2;
    }
    TotalAtMost(w, ps, gs, m, 2);
  }

  lemma {:induction false} ItemWithinLoad(size: PodInfo -> int, ps: seq<PodInfo>, bs: seq<nat>, i: nat)
    requires |ps| == |bs| && i < |ps| && NonNegative(size)
    ensures size(ps[i]) <= Load(size, ps, bs, bs[i])
  {
    var n := |ps| - 1;
    if i == n {
      TallyNonNegative(size, ps[..n], bs[..n], bs[i]);
    } else {
      ItemWithinLoad(size, ps[..n], bs[..n], i);
    }
  }

  /** When the last pod opens node `k` and is at most a third of a node, all
      other nodes are more than two thirds full. */
  lemma SmallOpener(size: PodInfo -> int, cap: int, ps: seq<PodInfo>, bs: seq<nat>, k: nat, gs: seq<nat>, m: nat)
    requires |ps| == |bs| > 0 && k >= 1 && cap > 0 && NonNegative(size)
    requires forall i :: 0 <= i < |bs| ==> bs[i] < k
    requires NoneHasRoom(size, cap, ps[..|ps| - 1], bs[..|ps| - 1], k - 1, ps[|ps| - 1])
    requires 3 * size(ps[|ps| - 1]) <= cap
    requires LinePacks(size, cap, ps, gs, m)
    ensures 2 * k <= 3 * m + 1
  {
    var n := |ps| - 1;
    var s := size(ps[n]);
    var triple := (p: PodInfo) => 3 * size(p);
    forall b: nat | b < k - 1
      ensures Tally(triple, ps, bs, b) >= 2 * cap + 1
    {
      assert Load(size, ps[..n], bs[..n], b) + s > cap;
      TallyTriple(size, triple, ps, bs, b);
    }
    LoadNonNegative(triple, ps, bs, k - 1);
    TotalAtLeast(triple, ps, bs, k - 1, 2 * cap + 1);
    forall b: nat | b < m
      ensures Tally(triple, ps, gs, b) <= 3 * cap
    {
      assert Load(size, ps, gs, b) <= cap;
      TallyTriple(size, triple, ps, gs, b);
    }
    TotalAtMost(triple, ps, gs, m, 3 * cap);
    assert gs[n] < m;
    TwoThirds(k, m, cap);
  }

  lemma {:induction false} TallyTriple(size: PodInfo -> int, triple: PodInfo -> int, ps: seq<PodInfo>, bs: seq<nat>,
                                       b: nat)
    requires |ps| == |bs| && forall p :: triple(p) == 3 * size(p)
    ensures Tally(triple, ps, bs, b) == 3 * Tally(size, ps, bs, b)
  {
    if ps == [] {
    } else {
      TallyTriple(size, triple, ps[..|ps| - 1], bs[..|ps| - 1], b);
    }
  }

  lemma TwoThirds(k: nat, m: nat, cap: int)
    requires k >= 1 && m >= 1 && cap > 0 && (k - 1) * (2 * cap + 1) <= m * (3 * cap)
    ensures 2 * k <= 3 * m + 1
  {
    if k >= 2 {
      assert (k - 1) * (2 * cap + 1) == (2 * (k - 1)) * cap + (k - 1);
      assert m * (3 * cap) == (3 * m) * cap;
      CancelFactor(2 * (k - 1), 3 * m, cap);
    }
  }

  lemma PackingPrefix(size: PodInfo -> int, cap: int, ps: seq<PodInfo>, gs: seq<nat>, m: nat)
    requires |ps| > 0 && NonNegative(size) && LinePacks(size, cap, ps, gs, m)
    ensures LinePacks(size, cap, ps[..|ps| - 1], gs[..|ps| - 1], m)
  {
    var n := |ps| - 1;
    forall b: nat | b < m
      ensures Load(size, ps[..n], gs[..n], b) <= cap
    {
      assert Load(size, ps, gs, b) <= cap;
    }
  }

  /** Pods in decreasing order, a new bin only when none has room: at most
      three halves of the bins of any packing, plus one half. */
  lemma {:induction false} ThreeHalves(size: PodInfo -> int, cap: int, ps: seq<PodInfo>, bs: seq<nat>, k: nat,
                                       gs: seq<nat>, m: nat)
    requires |ps| == |bs| && cap > 0 && NonNegative(size)
    requires LineTrace(size, cap, ps, bs, k) && Descending(size, ps)
    requires LinePacks(size, cap, ps, gs, m)
    ensures 2 * k <= 3 * m + 1
  {
    if ps == [] {
    } else {
      var n := |ps| - 1;
      LineKeys(size, cap, ps, bs, k);
      if bs[n] < k && LineTrace(size, cap, ps[..n], bs[..n], k) {
        PackingPrefix(size, cap, ps, gs, m);
        ThreeHalves(size, cap, ps[..n], bs[..n], k, gs[..n], m);
      } else if 3 * size(ps[n]) > cap {
        LargeOpener(size, cap, ps, bs, k, gs, m);
      } else {
        SmallOpener(size, cap, ps, bs, k, gs, m);
      }
    }
  }

  // ------------------------------------------------ dominance by one dimension

  /** The pod's share of CPU is at least its share of memory. */
  predicate CpuDominated(t: Template, p: PodInfo) {
    p.mem * t.cpu <= p.cpu * t.mem
  }

  predicate MemDominated(t: Template, p: PodInfo) {
    p.cpu * t.mem <= p.mem * t.cpu
  }

  lemma {:induction false} LoadsDominated(t: Template, ps: seq<PodInfo>, bs: seq<nat>, b: nat)
    requires |ps| == |bs|
    ensures (forall i :: 0 <= i < |ps| ==> CpuDominated(t, ps[i])) ==>
              MemIn(ps, bs, b) * t.cpu <= CpuIn(ps, bs, b) * t.mem
    ensures (forall i :: 0 <= i < |ps| ==> MemDominated(t, ps[i])) ==>
              CpuIn(ps, bs, b) * t.mem <= MemIn(ps, bs, b) * t.cpu
  {
    if ps == [] {
    } else {
      var n := |ps| - 1;
      LoadsDominated(t, ps[..n], bs[..n], b);
      var c, l := CpuIn(ps[..n], bs[..n], b), MemIn(ps[..n], bs[..n], b);
      assert (c + ps[n].cpu) * t.mem == c * t.mem + ps[n].cpu * t.mem;
      assert (l + ps[n].mem) * t.cpu == l * t.cpu + ps[n].mem * t.cpu;
    }
  }

  /** Within the dominant capacity, the other one cannot run out first. */
  lemma Dominates(used: int, other: int, cap: nat, otherCap: nat)
    requires cap > 0 && used <= cap && other * cap <= used * otherCap
    ensures other <= otherCap
  {
    assert used * otherCap <= cap * otherCap;
    assert (otherCap - other) * cap == cap * otherCap - other * cap >= 0;
  }

  /** A dominated pod that finds no room in a bin of such pods is short of the
      dominant resource. */
  lemma ShortOfDominant(t: Template, ps: seq<PodInfo>, bs: seq<nat>, i: nat, p: PodInfo)
    requires t.cpu > 0 && t.mem > 0 && |ps| == |bs| && !Room(t, ps, bs, i, p)
    ensures CpuDominated(t, p) && (forall l :: 0 <= l < |ps| ==> CpuDominated(t, ps[l])) ==>
              CpuIn(ps, bs, i) + p.cpu > t.cpu
    ensures MemDominated(t, p) && (forall l :: 0 <= l < |ps| ==> MemDominated(t, ps[l])) ==>
              MemIn(ps, bs, i) + p.mem > t.mem
  {
    LoadsDominated(t, ps, bs, i);
    DominantShort(CpuIn(ps, bs, i), MemIn(ps, bs, i), p.cpu, p.mem, t.cpu, t.mem);
    DominantShort(MemIn(ps, bs, i), CpuIn(ps, bs, i), p.mem, p.cpu, t.mem, t.cpu);
  }

  lemma DominantShort(used: int, other: int, more: nat, otherMore: nat, cap: nat, otherCap: nat)
    requires cap > 0 && (used + more > cap || other + otherMore > otherCap)
    ensures other * cap <= used * otherCap && otherMore * cap <= more * otherCap ==> used + more > cap
  {
    if other * cap <= used * otherCap && otherMore * cap <= more * otherCap && used + more <= cap {
      assert (other + otherMore) * cap == other * cap + otherMore * cap;
      assert (used + more) * otherCap == used * otherCap + more * otherCap;
      Dominates(used + more, other + otherMore, cap, otherCap);
    }
  }

  lemma {:induction false} CpuShadow(t: Template, ps: seq<PodInfo>, bs: seq<nat>, k: nat)
    requires t.cpu > 0 && t.mem > 0 && |ps| == |bs| && AnyFitTrace(t, ps, bs, k)
    requires forall i :: 0 <= i < |ps| ==> CpuDominated(t, ps[i])
    ensures LineTrace(CpuOf, t.cpu, ps, bs, k)
  {
    if ps == [] {
    } else {
      var n := |ps| - 1;
      if bs[n] < k && AnyFitTrace(t, ps[..n], bs[..n], k) {
        CpuShadow(t, ps[..n], bs[..n], k);
      } else {
        CpuShadow(t, ps[..n], bs[..n], k - 1);
        forall i: nat | i < bs[n]
          ensures Load(CpuOf, ps[..n], bs[..n], i) + CpuOf(ps[n]) > t.cpu
        {
          ShortOfDominant(t, ps[..n], bs[..n], i, ps[n]);
        }
      }
    }
  }

  lemma {:induction false} MemShadow(t: Template, ps: seq<PodInfo>, bs: seq<nat>, k: nat)
    requires t.cpu > 0 && t.mem > 0 && |ps| == |bs| && AnyFitTrace(t, ps, bs, k)
    requires forall i :: 0 <= i < |ps| ==> MemDominated(t, ps[i])
    ensures LineTrace(MemOf, t.mem, ps, bs, k)
  {
    if ps == [] {
    } else {
      var n := |ps| - 1;
      if bs[n] < k && AnyFitTrace(t, ps[..n], bs[..n], k) {
        MemShadow(t, ps[..n], bs[..n], k);
      } else {
        MemShadow(t, ps[..n], bs[..n], k - 1);
        forall i: nat | i < bs[n]
          ensures Load(MemOf, ps[..n], bs[..n], i) + MemOf(ps[n]) > t.mem
        {
          ShortOfDominant(t, ps[..n], bs[..n], i, ps[n]);
        }
      }
    }
  }

  /** The sort key, cleared of denominators: the larger of the pod's shares. */
  function Score(t: Template, p: PodInfo): int {
    if p.mem * t.cpu > p.cpu * t.mem then p.mem * t.cpu else p.cpu * t.mem
  }

  ghost predicate ByScore(t: Template, ps: seq<PodInfo>) {
    forall i, j :: 0 <= i < j < |ps| ==> Score(t, ps[i]) >= Score(t, ps[j])
  }

  /** The bound for pods sorted by score that one dimension dominates. */
  lemma DecreasingBound(t: Template, ps: seq<PodInfo>, bs: seq<nat>, k: nat, gs: seq<nat>, m: nat)
    requires t.cpu > 0 && t.mem > 0
    requires |ps| == |bs| && AnyFitTrace(t, ps, bs, k) && ByScore(t, ps)
    requires (forall i :: 0 <= i < |ps| ==> CpuDominated(t, ps[i]))
               || (forall i :: 0 <= i < |ps| ==> MemDominated(t, ps[i]))
    requires PacksInto(t, ps, gs, m)
    ensures 2 * k <= 3 * m + 1
  {
    forall b: nat | b < m
      ensures Load(CpuOf, ps, gs, b) <= t.cpu && Load(MemOf, ps, gs, b) <= t.mem
    {
      assert CpuIn(ps, gs, b) <= t.cpu;
    }
    if forall i :: 0 <= i < |ps| ==> CpuDominated(t, ps[i]) {
      CpuShadow(t, ps, bs, k);
      forall i, j | 0 <= i < j < |ps|
        ensures CpuOf(ps[i]) >= CpuOf(ps[j])
      {
        assert CpuDominated(t, ps[i]) && CpuDominated(t, ps[j]);
        Cancel(ps[i].cpu, ps[j].cpu, t.mem);
      }
      ThreeHalves(CpuOf, t.cpu, ps, bs, k, gs, m);
    } else {
      MemShadow(t, ps, bs, k);
      forall i, j | 0 <= i < j < |ps|
        ensures MemOf(ps[i]) >= MemOf(ps[j])
      {
        assert MemDominated(t, ps[i]) && MemDominated(t, ps[j]);
        Cancel(ps[i].mem, ps[j].mem, t.cpu);
      }
      ThreeHalves(MemOf, t.mem, ps, bs, k, gs, m);
    }
  }

  lemma Cancel(a: nat, b: nat, c: nat)
    requires c > 0 && a * c >= b * c
    ensures a >= b
  {
    assert (a - b) * c >= 0;
  }
}
