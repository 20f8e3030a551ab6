/** The bound that pairwise crowding alone gives: whichever open node a packing
    picks, if no two nodes could have been one, then fewer than three times the
    nodes of any other packing are in use. */
module Crowding {
  import opened Cluster
  import opened Packing
  import opened Sums
  import opened AnyFit

  datatype Bundle = Bundle(cpu: nat, mem: nat)

  function LoadCpu(l: Bundle): int { l.cpu }

  function LoadMem(l: Bundle): int { l.mem }

  predicate HeavyCpu(t: Template, a: Bundle, b: Bundle) { a.cpu + b.cpu > t.cpu }

  predicate HeavyMem(t: Template, a: Bundle, b: Bundle) { a.mem + b.mem > t.mem }

  /** Any two of the loads exceed a template in some dimension. */
  ghost predicate AllCrowded(t: Template, ls: seq<Bundle>) {
    forall i, j :: 0 <= i < j < |ls| ==> HeavyCpu(t, ls[i], ls[j]) || HeavyMem(t, ls[i], ls[j])
  }

  // ------------------------------------------------------------ taking loads away

  function Without(ls: seq<Bundle>, r: nat): seq<Bundle>
    requires r < |ls|
  {
    ls[..r] + ls[r + 1..]
  }

  /** Where load `i` is once another one is taken away. */
  function Shifted(i: nat, r: nat): nat
    requires i != r
  {
    if i < r then i else i - 1
  }

  lemma WithoutSum(w: Bundle -> int, ls: seq<Bundle>, r: nat)
    requires r < |ls|
    ensures Sum(w, ls) == Sum(w, Without(ls, r)) + w(ls[r])
  {
    SumAround(w, ls, r);
  }

  lemma WithoutCrowded(t: Template, ls: seq<Bundle>, r: nat)
    requires r < |ls| && AllCrowded(t, ls)
    ensures AllCrowded(t, Without(ls, r))
  {
    var rest := Without(ls, r);
    assert forall i :: 0 <= i < |rest| ==> rest[i] == ls[if i < r then i else i + 1];
  }

  /** One load is taken away, and two others stay at known places. */
  lemma WithoutOne(t: Template, ls: seq<Bundle>, r: nat, y: nat, z: nat) returns (rest: seq<Bundle>)
    requires r < |ls| && y < |ls| && z < |ls| && r != y && r != z && AllCrowded(t, ls)
    ensures |rest| == |ls| - 1 && AllCrowded(t, rest)
    ensures Shifted(y, r) < |rest| && Shifted(z, r) < |rest|
    ensures rest[Shifted(y, r)] == ls[y] && rest[Shifted(z, r)] == ls[z]
    ensures Sum(LoadCpu, ls) == Sum(LoadCpu, rest) + ls[r].cpu
    ensures Sum(LoadMem, ls) == Sum(LoadMem, rest) + ls[r].mem
  {
    rest := Without(ls, r);
    WithoutSum(LoadCpu, ls, r);
    WithoutSum(LoadMem, ls, r);
    WithoutCrowded(t, ls, r);
  }

  /** Three different loads can be taken away together. */
  lemma WithoutThree(t: Template, ls: seq<Bundle>, x: nat, y: nat, z: nat) returns (rest: seq<Bundle>)
    requires x < |ls| && y < |ls| && z < |ls| && x != y && y != z && x != z && AllCrowded(t, ls)
    ensures |rest| == |ls| - 3 && AllCrowded(t, rest)
    ensures Sum(LoadCpu, ls) == Sum(LoadCpu, rest) + ls[x].cpu + ls[y].cpu + ls[z].cpu
    ensures Sum(LoadMem, ls) == Sum(LoadMem, rest) + ls[x].mem + ls[y].mem + ls[z].mem
  {
    var a := WithoutOne(t, ls, x, y, z);
    rest := WithoutTwo(t, a, Shifted(y, x), Shifted(z, x));
  }

  lemma WithoutTwo(t: Template, ls: seq<Bundle>, y: nat, z: nat) returns (rest: seq<Bundle>)
    requires y < |ls| && z < |ls| && y != z && AllCrowded(t, ls)
    ensures |rest| == |ls| - 2 && AllCrowded(t, rest)
    ensures Sum(LoadCpu, ls) == Sum(LoadCpu, rest) + ls[y].cpu + ls[z].cpu
    ensures Sum(LoadMem, ls) == Sum(LoadMem, rest) + ls[y].mem + ls[z].mem
  {
    var a := WithoutOne(t, ls, y, z, z);
    var last := Shifted(z, y);
    rest := Without(a, last);
    WithoutSum(LoadCpu, a, last);
    WithoutSum(LoadMem, a, last);
    WithoutCrowded(t, a, last);
  }

  // ------------------------------------------------------------------ the triples

  predicate Overfull(t: Template, a: Bundle, b: Bundle, c: Bundle) {
    a.cpu + b.cpu + c.cpu > t.cpu && a.mem + b.mem + c.mem > t.mem
  }

  /** If some pair exceeds memory only and some pair CPU only, some three loads
      exceed both together. */
  lemma MixedTriple(t: Template, ls: seq<Bundle>, a: nat, b: nat, c: nat, d: nat) returns (x: nat, y: nat, z: nat)
    requires AllCrowded(t, ls) && a < b < |ls| && c < d < |ls|
    requires !HeavyCpu(t, ls[a], ls[b]) && !HeavyMem(t, ls[c], ls[d])
    ensures x < |ls| && y < |ls| && z < |ls| && x != y && y != z && x != z
    ensures Overfull(t, ls[x], ls[y], ls[z])
  {
    assert HeavyMem(t, ls[a], ls[b]) && HeavyCpu(t, ls[c], ls[d]);
    if a == c || b == c {
      x, y, z := a, b, d;
    } else if a == d || b == d {
      x, y, z := a, b, c;
    } else {
      assert HeavyCpu(t, ls[b], ls[c]) || HeavyMem(t, ls[b], ls[c]);
      if HeavyCpu(t, ls[b], ls[c]) {
        x, y, z := a, b, c;
      } else {
        x, y, z := b, c, d;
      }
    }
  }

  lemma OneSide(w: Bundle -> int, ls: seq<Bundle>, m: nat, cap: nat)
    requires m >= 1 && |ls| == 3 * m - 1 && forall i, j :: 0 <= i < j < |ls| ==> w(ls[i]) + w(ls[j]) > cap
    ensures Sum(w, ls) > m * cap
  {
    PairwiseHeavy(w, ls, cap);
    AtLeastTwice(m, cap);
  }

  lemma AtLeastTwice(m: nat, cap: nat)
    requires m >= 1
    ensures (3 * m - 1) * cap >= 2 * (m * cap)
  {
    NonNegativeProduct(m - 1, cap);
    assert (3 * m - 1) * cap == 2 * (m * cap) + (m - 1) * cap;
  }

  /** Any `3m - 1` pairwise crowded loads exceed `m` templates in some dimension. */
  lemma {:induction false} CrowdedTotals(t: Template, ls: seq<Bundle>, m: nat)
    requires t.cpu >= 0 && t.mem >= 0 && m >= 1 && |ls| == 3 * m - 1 && AllCrowded(t, ls)
    ensures Sum(LoadCpu, ls) > m * t.cpu || Sum(LoadMem, ls) > m * t.mem
    decreases m
  {
    if forall i, j :: 0 <= i < j < |ls| ==> HeavyCpu(t, ls[i], ls[j]) {
      OneSide(LoadCpu, ls, m, t.cpu);
    } else if forall i, j :: 0 <= i < j < |ls| ==> HeavyMem(t, ls[i], ls[j]) {
      OneSide(LoadMem, ls, m, t.mem);
    } else {
      var a, b :| 0 <= a < b < |ls| && !HeavyCpu(t, ls[a], ls[b]);
      var c, d :| 0 <= c < d < |ls| && !HeavyMem(t, ls[c], ls[d]);
      var x, y, z := MixedTriple(t, ls, a, b, c, d);
      var rest := WithoutThree(t, ls, x, y, z);
      CrowdedTotals(t, rest, m - 1);
      assert m * t.cpu == (m - 1) * t.cpu + t.cpu && m * t.mem == (m - 1) * t.mem + t.mem;
    }
  }

  // -------------------------------------------------------------------- the bound

  function Loads(ps: seq<PodInfo>, bs: seq<nat>, n: nat): (ls: seq<Bundle>)
    requires |ps| == |bs|
    ensures |ls| == n && forall b: nat :: b < n ==> ls[b].cpu == CpuIn(ps, bs, b) && ls[b].mem == MemIn(ps, bs, b)
  {
    if n == 0 then []
    else
      LoadsNonNegative(ps, bs, n - 1);
      Loads(ps, bs, n - 1) + [Bundle(CpuIn(ps, bs, n - 1), MemIn(ps, bs, n - 1))]
  }

  lemma {:induction false} LoadsTotal(ps: seq<PodInfo>, bs: seq<nat>, n: nat)
    requires |ps| == |bs|
    ensures Sum(LoadCpu, Loads(ps, bs, n)) == TallyOver(CpuOf, ps, bs, Below(n))
    ensures Sum(LoadMem, Loads(ps, bs, n)) == TallyOver(MemOf, ps, bs, Below(n))
  {
    BelowFacts(n);
    if n == 0 {
    } else {
      LoadsTotal(ps, bs, n - 1);
      assert Loads(ps, bs, n)[..n - 1] == Loads(ps, bs, n - 1);
    }
  }

  /** Fewer bins hold no more. */
  lemma {:induction false} SomeBins(ps: seq<PodInfo>, bs: seq<nat>, n: nat, k: nat)
    requires |ps| == |bs| && n <= k
    ensures TallyOver(CpuOf, ps, bs, Below(n)) <= TallyOver(CpuOf, ps, bs, Below(k))
    ensures TallyOver(MemOf, ps, bs, Below(n)) <= TallyOver(MemOf, ps, bs, Below(k))
    decreases k - n
  {
    if n == k {
    } else {
      BelowFacts(k);
      LoadsNonNegative(ps, bs, k - 1);
      SomeBins(ps, bs, n, k - 1);
    }
  }

  /** Pods that do not exceed `m` templates by volume open at most `3m - 2`. */
  lemma WithinVolume(t: Template, ps: seq<PodInfo>, bs: seq<nat>, k: nat, m: nat)
    requires |ps| == |bs| && AnyFitTrace(t, ps, bs, k) && m >= 1
    requires Sum(CpuOf, ps) <= m * t.cpu && Sum(MemOf, ps) <= m * t.mem
    ensures k <= 3 * m - 2
  {
    if k > 3 * m - 2 {
      var n := 3 * m - 1;
      var ls := Loads(ps, bs, n);
      forall i, j | 0 <= i < j < |ls|
        ensures HeavyCpu(t, ls[i], ls[j]) || HeavyMem(t, ls[i], ls[j])
      {
        PairsCrowded(t, ps, bs, k, i, j);
      }
      CrowdedTotals(t, ls, m);
      LoadsTotal(ps, bs, n);
      SomeBins(ps, bs, n, k);
      TraceKeys(t, ps, bs, k);
      BinsTotal(CpuOf, ps, bs, k);
      BinsTotal(MemOf, ps, bs, k);
    }
  }

  /** At most `3m - 2` nodes where any packing, the best one included, has `m`. */
  lemma WithinThreefold(t: Template, ps: seq<PodInfo>, bs: seq<nat>, k: nat, gs: seq<nat>, m: nat)
    requires |ps| == |bs| && AnyFitTrace(t, ps, bs, k) && k >= 1
    requires PacksInto(t, ps, gs, m)
    ensures k <= 3 * m - 2
  {
    TraceKeys(t, ps, bs, k);
    assert gs[0] < m;
    PackedVolume(t, ps, gs, m);
    WithinVolume(t, ps, bs, k, m);
  }
}
