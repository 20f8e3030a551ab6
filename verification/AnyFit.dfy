/** How far the number of opened template nodes can be from the best possible.
    The bounds hold for every packing that opens a node only when a pod fits
    no open one, whichever of the open nodes it otherwise picks. */
module AnyFit {
  import opened Cluster
  import opened Packing
  import opened Sums

  /** The CPU of the pods in bin `b`. */
  function CpuIn(ps: seq<PodInfo>, bs: seq<nat>, b: nat): int
    requires |ps| == |bs|
  {
    Tally(CpuOf, ps, bs, b)
  }

  /** The memory of the pods in bin `b`. */
  function MemIn(ps: seq<PodInfo>, bs: seq<nat>, b: nat): int
    requires |ps| == |bs|
  {
    Tally(MemOf, ps, bs, b)
  }

  predicate Room(t: Template, ps: seq<PodInfo>, bs: seq<nat>, b: nat, p: PodInfo)
    requires |ps| == |bs|
  {
    && CpuIn(ps, bs, b) + p.cpu <= t.cpu
    && MemIn(ps, bs, b) + p.mem <= t.mem
  }

  /** `bs` puts the pods one by one into `k` equal nodes, each into one with
      room, and starts a new node only when no earlier one has room. */
  ghost predicate AnyFitTrace(t: Template, ps: seq<PodInfo>, bs: seq<nat>, k: nat)
    requires |ps| == |bs|
  {
    if ps == [] then k == 0
    else
      var n := |ps| - 1;
      && Room(t, ps[..n], bs[..n], bs[n], ps[n])
      && ((bs[n] < k && AnyFitTrace(t, ps[..n], bs[..n], k))
          || (bs[n] + 1 == k && AnyFitTrace(t, ps[..n], bs[..n], k - 1)
              && forall i: nat :: i < bs[n] ==> !Room(t, ps[..n], bs[..n], i, ps[n])))
  }

  /** Any way at all of putting the pods into `m` empty template nodes. */
  ghost predicate PacksInto(t: Template, ps: seq<PodInfo>, bs: seq<nat>, m: nat) {
    && |bs| == |ps|
    && (forall i :: 0 <= i < |bs| ==> bs[i] < m)
    && forall b: nat :: b < m ==> CpuIn(ps, bs, b) <= t.cpu && MemIn(ps, bs, b) <= t.mem
  }

  lemma {:induction false} TraceKeys(t: Template, ps: seq<PodInfo>, bs: seq<nat>, k: nat)
    requires |ps| == |bs| && AnyFitTrace(t, ps, bs, k)
    ensures forall i :: 0 <= i < |bs| ==> bs[i] < k
    ensures k == 0 <==> ps == []
    ensures CpuIn(ps, bs, k) == 0 && MemIn(ps, bs, k) == 0
  {
    if ps == [] {
    } else {
      var n := |ps| - 1;
      if bs[n] < k && AnyFitTrace(t, ps[..n], bs[..n], k) {
        TraceKeys(t, ps[..n], bs[..n], k);
      } else {
        TraceKeys(t, ps[..n], bs[..n], k - 1);
      }
      TallyAbsent(CpuOf, ps, bs, k);
      TallyAbsent(MemOf, ps, bs, k);
    }
  }

  /** The trace is itself a packing, so `k` nodes are always enough. */
  lemma {:induction false} TracePacks(t: Template, ps: seq<PodInfo>, bs: seq<nat>, k: nat)
    requires |ps| == |bs| && AnyFitTrace(t, ps, bs, k)
    ensures PacksInto(t, ps, bs, k)
  {
    TraceKeys(t, ps, bs, k);
    if ps == [] {
    } else {
      var n := |ps| - 1;
      if bs[n] < k && AnyFitTrace(t, ps[..n], bs[..n], k) {
        TracePacks(t, ps[..n], bs[..n], k);
      } else {
        TracePacks(t, ps[..n], bs[..n], k - 1);
        TraceKeys(t, ps[..n], bs[..n], k - 1);
      }
      forall b: nat | b < k
        ensures CpuIn(ps, bs, b) <= t.cpu && MemIn(ps, bs, b) <= t.mem
      {
        assert b < k - 1 || b == k - 1;
        assert bs[n] != b ==> CpuIn(ps, bs, b) == CpuIn(ps[..n], bs[..n], b);
        assert bs[n] != b ==> MemIn(ps, bs, b) == MemIn(ps[..n], bs[..n], b);
      }
    }
  }

  // ------------------------------------------------- the two-dimensional bound

  /** Milli-cores and bytes on one scale: a full node weighs 2 * cpu * mem. */
  function Volume(t: Template, cpu: int, mem: int): int {
    cpu * t.mem + mem * t.cpu
  }

  predicate Crowded(t: Template, cpu: int, mem: int) {
    cpu > t.cpu || mem > t.mem
  }

  /** No two opened nodes could have been one. */
  lemma {:induction false} PairsCrowded(t: Template, ps: seq<PodInfo>, bs: seq<nat>, k: nat, i: nat, j: nat)
    requires |ps| == |bs| && AnyFitTrace(t, ps, bs, k) && i < j < k
    ensures Crowded(t, CpuIn(ps, bs, i) + CpuIn(ps, bs, j),
                    MemIn(ps, bs, i) + MemIn(ps, bs, j))
  {
    var n := |ps| - 1;
    if bs[n] < k && AnyFitTrace(t, ps[..n], bs[..n], k) {
      PairsCrowded(t, ps[..n], bs[..n], k, i, j);
    } else if j < k - 1 {
      PairsCrowded(t, ps[..n], bs[..n], k - 1, i, j);
    } else {
      TraceKeys(t, ps[..n], bs[..n], k - 1);
      assert !Room(t, ps[..n], bs[..n], i, ps[n]);
    }
  }

  lemma SumLastTwo<T>(w: T -> int, xs: seq<T>)
    requires |xs| >= 2
    ensures Sum(w, xs) == Sum(w, xs[..|xs| - 2]) + w(xs[|xs| - 2]) + w(xs[|xs| - 1])
  {
    SumTake(w, xs, |xs| - 2);
    assert xs[..|xs| - 2 + 1] == xs[..|xs| - 1];
  }

  lemma TwoMore(n: int, bound: int)
    ensures n * bound == (n - 2) * bound + 2 * bound
  {
  }

  /** If any two of some weights exceed `bound`, all of them exceed half of
      `bound` each, on average. */
  lemma {:induction false} PairwiseHeavy<T>(w: T -> int, xs: seq<T>, bound: int)
    requires |xs| >= 2 && forall i, j :: 0 <= i < j < |xs| ==> w(xs[i]) + w(xs[j]) > bound
    ensures 2 * Sum(w, xs) > |xs| * bound
  {
    var n := |xs|;
    var front := xs[..n - 2];
    SumLastTwo(w, xs);
    assert w(xs[n - 2]) + w(xs[n - 1]) > bound;
    if n == 2 {
    } else if n == 3 {
      assert Sum(w, front) == w(xs[0]) by {
        assert front[..0] == [];
      }
      assert w(xs[0]) + w(xs[1]) > bound && w(xs[0]) + w(xs[2]) > bound;
    } else {
      PairwiseHeavy(w, front, bound);
      TwoMore(n, bound);
    }
  }

  function Same(x: int): int { x }

  function Volumes(t: Template, ps: seq<PodInfo>, bs: seq<nat>, k: nat): (ws: seq<int>)
    requires |ps| == |bs|
    ensures |ws| == k
  {
    seq(k, (b: nat) => Volume(t, CpuIn(ps, bs, b), MemIn(ps, bs, b)))
  }

  lemma {:induction false} VolumesTotal(t: Template, ps: seq<PodInfo>, bs: seq<nat>, k: nat)
    requires |ps| == |bs|
    ensures Sum(Same, Volumes(t, ps, bs, k))
         == Volume(t, TallyOver(CpuOf, ps, bs, Below(k)), TallyOver(MemOf, ps, bs, Below(k)))
  {
    BelowFacts(k);
    var ws := Volumes(t, ps, bs, k);
    if k == 0 {
    } else {
      VolumesTotal(t, ps, bs, k - 1);
      assert ws[..k - 1] == Volumes(t, ps, bs, k - 1);
      VolumeAdds(t, TallyOver(CpuOf, ps, bs, Below(k - 1)), TallyOver(MemOf, ps, bs, Below(k - 1)),
                 CpuIn(ps, bs, k - 1), MemIn(ps, bs, k - 1));
    }
  }

  lemma VolumeAdds(t: Template, c1: int, m1: int, c2: int, m2: int)
    ensures Volume(t, c1 + c2, m1 + m2) == Volume(t, c1, m1) + Volume(t, c2, m2)
  {
    assert (c1 + c2) * t.mem == c1 * t.mem + c2 * t.mem;
    assert (m1 + m2) * t.cpu == m1 * t.cpu + m2 * t.cpu;
  }

  /** More than `cap` of one dimension is more than `cap * other` of volume. */
  lemma OverSide(used: int, cap: int, other: int)
    requires used > cap && other > 0
    ensures used * other > cap * other
  {
    Positive(used - cap, other);
  }

  lemma Positive(a: int, b: int)
    requires a > 0 && b > 0
    ensures a * b > 0
  {
  }

  lemma NonNegativeProduct(a: int, b: int)
    requires a >= 0 && b >= 0
    ensures a * b >= 0
  {
  }

  lemma CrowdedVolume(t: Template, cpu: int, mem: int)
    requires t.cpu > 0 && t.mem > 0 && cpu >= 0 && mem >= 0 && Crowded(t, cpu, mem)
    ensures Volume(t, cpu, mem) > t.cpu * t.mem
  {
    NonNegativeProduct(cpu, t.mem);
    NonNegativeProduct(mem, t.cpu);
    if cpu > t.cpu {
      OverSide(cpu, t.cpu, t.mem);
    } else {
      OverSide(mem, t.mem, t.cpu);
    }
  }

  lemma LoadsNonNegative(ps: seq<PodInfo>, bs: seq<nat>, b: nat)
    requires |ps| == |bs|
    ensures CpuIn(ps, bs, b) >= 0 && MemIn(ps, bs, b) >= 0
  {
    TallyNonNegative(CpuOf, ps, bs, b);
    TallyNonNegative(MemOf, ps, bs, b);
  }

  /** From two nodes on, the nodes are more than a quarter full of volume. */
  lemma TwoDimensional(t: Template, ps: seq<PodInfo>, bs: seq<nat>, k: nat)
    requires t.cpu > 0 && t.mem > 0
    requires |ps| == |bs| && AnyFitTrace(t, ps, bs, k) && k >= 2
    ensures k * (t.cpu * t.mem) < 2 * Volume(t, Sum(CpuOf, ps), Sum(MemOf, ps))
  {
    var ws := Volumes(t, ps, bs, k);
    forall i: nat, j: nat | i < j < |ws|
      ensures ws[i] + ws[j] > t.cpu * t.mem
    {
      PairsCrowded(t, ps, bs, k, i, j);
      LoadsNonNegative(ps, bs, i);
      LoadsNonNegative(ps, bs, j);
      var ci, mi, cj, mj := CpuIn(ps, bs, i), MemIn(ps, bs, i), CpuIn(ps, bs, j), MemIn(ps, bs, j);
      VolumeAdds(t, ci, mi, cj, mj);
      CrowdedVolume(t, ci + cj, mi + mj);
    }
    PairwiseHeavy(Same, ws, t.cpu * t.mem);
    AllVolume(t, ps, bs, k);
  }

  lemma PackedVolume(t: Template, ps: seq<PodInfo>, gs: seq<nat>, m: nat)
    requires PacksInto(t, ps, gs, m)
    ensures Sum(CpuOf, ps) <= m * t.cpu && Sum(MemOf, ps) <= m * t.mem
    ensures Volume(t, Sum(CpuOf, ps), Sum(MemOf, ps)) <= 2 * (m * (t.cpu * t.mem))
  {
    forall b: nat | b < m
      ensures Tally(CpuOf, ps, gs, b) <= t.cpu && Tally(MemOf, ps, gs, b) <= t.mem
    {
      assert CpuIn(ps, gs, b) <= t.cpu && MemIn(ps, gs, b) <= t.mem;
    }
    BinsTotal(CpuOf, ps, gs, m);
    BinsAtMost(CpuOf, ps, gs, m, t.cpu);
    BinsTotal(MemOf, ps, gs, m);
    BinsAtMost(MemOf, ps, gs, m, t.mem);
    ScaleVolume(t, Sum(CpuOf, ps), Sum(MemOf, ps), m);
  }

  lemma ScaleVolume(t: Template, cpu: int, mem: int, m: nat)
    requires cpu <= m * t.cpu && mem <= m * t.mem
    ensures Volume(t, cpu, mem) <= 2 * (m * (t.cpu * t.mem))
  {
    assert cpu * t.mem <= (m * t.cpu) * t.mem == m * (t.cpu * t.mem);
    assert mem * t.cpu <= (m * t.mem) * t.cpu == m * (t.cpu * t.mem);
  }

  // ---------------------------------------------------------- small pods

  /** Every node but the last is nearly full in one dimension. */
  lemma {:induction false} SmallPodsFill(t: Template, ps: seq<PodInfo>, bs: seq<nat>, k: nat, m: nat, i: nat)
    requires |ps| == |bs| && AnyFitTrace(t, ps, bs, k) && i + 1 < k && m >= 1
    requires forall l :: 0 <= l < |ps| ==> m * ps[l].cpu <= t.cpu && m * ps[l].mem <= t.mem
    ensures m * CpuIn(ps, bs, i) > (m - 1) * t.cpu || m * MemIn(ps, bs, i) > (m - 1) * t.mem
  {
    var n := |ps| - 1;
    var p := ps[n];
    if bs[n] < k && AnyFitTrace(t, ps[..n], bs[..n], k) {
      SmallPodsFill(t, ps[..n], bs[..n], k, m, i);
      Grows(m, CpuIn(ps[..n], bs[..n], i), p.cpu);
      Grows(m, MemIn(ps[..n], bs[..n], i), p.mem);
    } else {
      assert !Room(t, ps[..n], bs[..n], i, p);
      if CpuIn(ps[..n], bs[..n], i) + p.cpu > t.cpu {
        ShareExceeded(m, CpuIn(ps[..n], bs[..n], i), p.cpu, t.cpu);
      } else {
        ShareExceeded(m, MemIn(ps[..n], bs[..n], i), p.mem, t.mem);
      }
    }
  }

  lemma Grows(m: nat, load: int, size: nat)
    ensures m * (load + size) >= m * load
  {
    assert m * (load + size) == m * load + m * size;
  }

  lemma ShareExceeded(m: nat, load: int, size: nat, cap: nat)
    requires m >= 1 && m * size <= cap && load + size > cap
    ensures m * load > (m - 1) * cap
  {
    assert m * (load + size - cap) >= 1;
    assert m * (load + size - cap) == m * load + m * size - m * cap;
    assert (m - 1) * cap == m * cap - cap;
  }

  lemma SmallPodsVolume(t: Template, ps: seq<PodInfo>, bs: seq<nat>, k: nat, m: nat, i: nat)
    requires t.cpu > 0 && t.mem > 0
    requires |ps| == |bs| && AnyFitTrace(t, ps, bs, k) && i + 1 < k && m >= 1
    requires forall l :: 0 <= l < |ps| ==> m * ps[l].cpu <= t.cpu && m * ps[l].mem <= t.mem
    ensures m * Volume(t, CpuIn(ps, bs, i), MemIn(ps, bs, i)) > (m - 1) * (t.cpu * t.mem)
  {
    SmallPodsFill(t, ps, bs, k, m, i);
    LoadsNonNegative(ps, bs, i);
    FilledVolume(t, CpuIn(ps, bs, i), MemIn(ps, bs, i), m);
  }

  lemma VolumeNonNegative(t: Template, cpu: int, mem: int)
    requires t.cpu > 0 && t.mem > 0 && cpu >= 0 && mem >= 0
    ensures Volume(t, cpu, mem) >= 0
  {
    NonNegativeProduct(cpu, t.mem);
    NonNegativeProduct(mem, t.cpu);
  }

  lemma SmallPodsVolumes(t: Template, ps: seq<PodInfo>, bs: seq<nat>, k: nat, m: nat)
    requires t.cpu > 0 && t.mem > 0
    requires |ps| == |bs| && AnyFitTrace(t, ps, bs, k) && k >= 2 && m >= 1
    requires forall l :: 0 <= l < |ps| ==> m * ps[l].cpu <= t.cpu && m * ps[l].mem <= t.mem
    ensures var ws := Volumes(t, ps, bs, k);
            ws[k - 1] >= 0 && forall i :: 0 <= i < k - 1 ==> m * ws[i] > (m - 1) * (t.cpu * t.mem)
  {
    var ws := Volumes(t, ps, bs, k);
    forall i: nat | i < k - 1
      ensures m * ws[i] > (m - 1) * (t.cpu * t.mem)
    {
      SmallPodsVolume(t, ps, bs, k, m, i);
    }
    LoadsNonNegative(ps, bs, k - 1);
    VolumeNonNegative(t, CpuIn(ps, bs, k - 1), MemIn(ps, bs, k - 1));
  }

  /** Pods of at most one m-th of a node leave at most that share unused in
      every node but the last. */
  lemma SmallPods(t: Template, ps: seq<PodInfo>, bs: seq<nat>, k: nat, m: nat)
    requires t.cpu > 0 && t.mem > 0
    requires |ps| == |bs| && AnyFitTrace(t, ps, bs, k) && k >= 2 && m >= 1
    requires forall l :: 0 <= l < |ps| ==> m * ps[l].cpu <= t.cpu && m * ps[l].mem <= t.mem
    ensures (k - 1) * ((m - 1) * (t.cpu * t.mem)) < m * Volume(t, Sum(CpuOf, ps), Sum(MemOf, ps))
  {
    var ws := Volumes(t, ps, bs, k);
    SmallPodsVolumes(t, ps, bs, k, m);
    AllAbove(ws[..k - 1], m, (m - 1) * (t.cpu * t.mem));
    AllVolume(t, ps, bs, k);
    assert Sum(Same, ws) == Sum(Same, ws[..k - 1]) + ws[k - 1];
    Grows(m, Sum(Same, ws[..k - 1]), ws[k - 1]);
  }

  /** The nodes' volumes add up to that of all the pods. */
  lemma AllVolume(t: Template, ps: seq<PodInfo>, bs: seq<nat>, k: nat)
    requires |ps| == |bs| && AnyFitTrace(t, ps, bs, k)
    ensures Sum(Same, Volumes(t, ps, bs, k)) == Volume(t, Sum(CpuOf, ps), Sum(MemOf, ps))
  {
    VolumesTotal(t, ps, bs, k);
    TraceKeys(t, ps, bs, k);
    BinsTotal(CpuOf, ps, bs, k);
    BinsTotal(MemOf, ps, bs, k);
  }

  lemma FilledVolume(t: Template, cpu: int, mem: int, m: nat)
    requires t.cpu > 0 && t.mem > 0 && cpu >= 0 && mem >= 0 && m >= 1
    requires m * cpu > (m - 1) * t.cpu || m * mem > (m - 1) * t.mem
    ensures m * Volume(t, cpu, mem) > (m - 1) * (t.cpu * t.mem)
  {
    assert m * Volume(t, cpu, mem) == m * cpu * t.mem + m * mem * t.cpu;
    assert m * cpu * t.mem >= 0 && m * mem * t.cpu >= 0;
    if m * cpu > (m - 1) * t.cpu {
      FilledSide(m * cpu, m - 1, t.cpu, t.mem);
    } else {
      FilledSide(m * mem, m - 1, t.mem, t.cpu);
    }
  }

  lemma FilledSide(used: int, shares: int, cap: nat, other: nat)
    requires used > shares * cap && other > 0
    ensures used * other > shares * (cap * other)
  {
    assert (used - shares * cap) * other > 0;
    assert (used - shares * cap) * other == used * other - shares * (cap * other);
  }

  lemma {:induction false} AllAbove(ws: seq<int>, m: nat, least: int)
    requires |ws| >= 1 && forall i :: 0 <= i < |ws| ==> m * ws[i] > least
    ensures m * Sum(Same, ws) > |ws| * least
  {
    var n := |ws| - 1;
    assert m * Sum(Same, ws) == m * Sum(Same, ws[..n]) + m * ws[n];
    if n == 0 {
      assert Sum(Same, ws[..0]) == 0;
    } else {
      AllAbove(ws[..n], m, least);
      assert |ws| * least == n * least + least;
    }
  }
}
