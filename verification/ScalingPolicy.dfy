/** The threshold policy: how many nodes a deficit is worth, and which node
    may go when there is none. */
module ScalingPolicy {
  import opened Wrappers
  import opened Cluster
  import opened Packing
  import opened PackingBounds
  import opened Estimation
  import Sums
  import CS = ClusterState

  datatype ThresholdPolicy = ThresholdPolicy(
    cpuThreshold: int,
    memThreshold: int,
    lowWaterMarkPercent: real,
    maxNodes: int,
    minNodes: int,
    cooldown: int,
    nodeCPU: int,
    nodeMem: int)

  /** Half a CPU, 256 MiB, 20 per cent, at most 5 nodes, at least 1, 60 s. */
  const DEFAULT_POLICY := ThresholdPolicy(500, 256 * MIB, 20.0, 5, 1, 60 * SECOND, 2000, 4 * 1024 * MIB)

  datatype Decision = Decision(scaleUp: bool, scaleDown: bool, count: int, nodeName: string)

  const NO_OP := Decision(false, false, 0, "")

  // ----------------------------------------------------------------- scale up

  /** Division as the machine does it, towards zero. */
  function Quotient(a: int, b: int): int
    requires b != 0
  {
    var q := (if a < 0 then -a else a) / (if b < 0 then -b else b);
    if (a < 0) == (b < 0) then q else -q
  }

  function CeilDiv(a: int, b: int): int {
    if b == 0 then 0 else Quotient(a + b - 1, b)
  }

  /** For a non-negative amount it is the least number of shares that covers it. */
  lemma CeilDivCovers(a: int, b: int)
    requires a >= 0 && b > 0
    ensures var r := CeilDiv(a, b); r >= 0 && (r - 1) * b < a <= r * b
  {
    var n := a + b - 1;
    assert n == b * (n / b) + n % b;
    assert (n / b - 1) * b == b * (n / b) - b;
  }

  /** Without a share size there is nothing to divide by, and without an amount
      nothing to cover. */
  lemma CeilDivNothing(a: int, b: int)
    ensures b == 0 ==> CeilDiv(a, b) == 0
    ensures a <= 0 && b > 0 ==> CeilDiv(a, b) <= 0
  {
  }

  predicate Exceeds(p: ThresholdPolicy, d: ResourceDelta) {
    !d.IsZero() && (d.cpu > p.cpuThreshold || d.mem > p.memThreshold)
  }

  /** The nodes a deficit is worth by volume alone, before the node limit. */
  function Uncapped(p: ThresholdPolicy, d: ResourceDelta): int {
    var forCPU, forMem := CeilDiv(d.cpu, p.nodeCPU), CeilDiv(d.mem, p.nodeMem);
    var needed := if forMem > forCPU then forMem else forCPU;
    if needed < 1 then 1 else needed
  }

  /** The count of a scale-up decision, if there is one. */
  function ScaleUpCount(p: ThresholdPolicy, d: ResourceDelta, current: nat): Option<int> {
    if !Exceeds(p, d) || current >= p.maxNodes then None
    else Some(if Uncapped(p, d) > p.maxNodes - current then p.maxNodes - current else Uncapped(p, d))
  }

  /** The uncapped count covers the deficit in both dimensions. */
  lemma UncappedCovers(p: ThresholdPolicy, d: ResourceDelta)
    requires p.nodeCPU > 0 && p.nodeMem > 0 && d.cpu >= 0 && d.mem >= 0
    ensures var n := Uncapped(p, d); n >= 1 && d.cpu <= n * p.nodeCPU && d.mem <= n * p.nodeMem
  {
    CeilDivCovers(d.cpu, p.nodeCPU);
    CeilDivCovers(d.mem, p.nodeMem);
    MoreShares(CeilDiv(d.cpu, p.nodeCPU), Uncapped(p, d), p.nodeCPU);
    MoreShares(CeilDiv(d.mem, p.nodeMem), Uncapped(p, d), p.nodeMem);
  }

  lemma MoreShares(a: int, b: int, share: nat)
    requires a <= b
    ensures a * share <= b * share
  {
  }

  /** Fewer nodes than the uncapped count do not cover the deficit. */
  lemma FewerDoNotCover(p: ThresholdPolicy, d: ResourceDelta, n: int)
    requires p.nodeCPU > 0 && p.nodeMem > 0 && d.cpu >= 0 && d.mem >= 0
    requires 1 <= n < Uncapped(p, d)
    ensures d.cpu > n * p.nodeCPU || d.mem > n * p.nodeMem
  {
    CeilDivCovers(d.cpu, p.nodeCPU);
    CeilDivCovers(d.mem, p.nodeMem);
    if Uncapped(p, d) == CeilDiv(d.cpu, p.nodeCPU) {
      MoreShares(n, CeilDiv(d.cpu, p.nodeCPU) - 1, p.nodeCPU);
    } else {
      MoreShares(n, CeilDiv(d.mem, p.nodeMem) - 1, p.nodeMem);
    }
  }

  /** What the count is worth: it stays within the limit, and below it covers
      the deficit in both dimensions; one node less would not. */
  lemma CountExactly(p: ThresholdPolicy, d: ResourceDelta, current: nat)
    requires p.nodeCPU > 0 && p.nodeMem > 0 && d.cpu >= 0 && d.mem >= 0
    requires ScaleUpCount(p, d, current).Some?
    ensures var n := ScaleUpCount(p, d, current).value;
            && n >= 1 && current + n <= p.maxNodes
            && (current + n < p.maxNodes ==> d.cpu <= n * p.nodeCPU && d.mem <= n * p.nodeMem)
            && (n > 1 ==> d.cpu > (n - 1) * p.nodeCPU || d.mem > (n - 1) * p.nodeMem)
  {
    UncappedCovers(p, d);
    var n := ScaleUpCount(p, d, current).value;
    if n > 1 {
      FewerDoNotCover(p, d, n - 1);
    }
  }

  // --------------------------------------------------------------- scale down

  predicate Idle(n: NodeInfo, percent: real) {
    n.allocCPU != 0 && n.usedCPU as real / n.allocCPU as real * 100.0 < percent
  }

  /** All conditions for taking a node away. */
  predicate Removable(p: ThresholdPolicy, n: NodeInfo, critical: string -> bool, now: int) {
    Usable(n) && Idle(n, p.lowWaterMarkPercent) && !critical(n.name) && now - n.createdAt > p.cooldown
  }

  /** `i` is the first node that may go. */
  ghost predicate FirstRemovable(p: ThresholdPolicy, nodes: seq<NodeInfo>, critical: string -> bool, now: int, i: nat) {
    && i < |nodes| && Removable(p, nodes[i], critical, now)
    && forall j :: 0 <= j < i ==> !Removable(p, nodes[j], critical, now)
  }

  /** The same in the node's own fields. */
  lemma RemovableExactly(p: ThresholdPolicy, n: NodeInfo, critical: string -> bool, now: int)
    ensures Removable(p, n, critical, now) <==>
            && n.ready && !n.unschedulable && n.allocCPU != 0
            && n.usedCPU as real / n.allocCPU as real * 100.0 < p.lowWaterMarkPercent
            && !critical(n.name) && now - n.createdAt > p.cooldown
  {
  }

  method ScaleDownCandidate(p: ThresholdPolicy, nodes: seq<NodeInfo>, critical: string -> bool, now: int)
    returns (name: string)
    ensures forall i: nat :: FirstRemovable(p, nodes, critical, now, i) ==> name == nodes[i].name
    ensures (forall i :: 0 <= i < |nodes| ==> !Removable(p, nodes[i], critical, now)) ==> name == ""
    ensures name != "" ==> exists i: nat :: FirstRemovable(p, nodes, critical, now, i)
    ensures name != "" ==>
              exists n :: n in nodes && n.name == name && n.ready && !n.unschedulable && n.allocCPU != 0
                && n.usedCPU as real / n.allocCPU as real * 100.0 < p.lowWaterMarkPercent
                && !critical(n.name) && now - n.createdAt > p.cooldown
  {
    for k := 0 to |nodes|
      invariant forall j :: 0 <= j < k ==> !Removable(p, nodes[j], critical, now)
    {
      var n := nodes[k];
      if !n.ready || n.unschedulable {
        continue;
      }
      if n.allocCPU == 0 {
        continue;
      }
      if n.usedCPU as real / n.allocCPU as real * 100.0 >= p.lowWaterMarkPercent {
        continue;
      }
      if critical(n.name) {
        continue;
      }
      if now - n.createdAt <= p.cooldown {
        continue;
      }
      assert FirstRemovable(p, nodes, critical, now, k);
      RemovableExactly(p, n, critical, now);
      assert n in nodes;
      return n.name;
    }
    return "";
  }

  /** The policy's decision. It never goes both ways, never asks for more than
      the node limit leaves, and takes a node away only above the minimum. */
  method Evaluate(p: ThresholdPolicy, delta: ResourceDelta, state: CS.ClusterState, critical: string -> bool, now: int)
    returns (d: Decision)
    ensures d.scaleUp <==> Exceeds(p, delta) && |state.nodes| < p.maxNodes
    ensures d.scaleUp ==> !d.scaleDown && ScaleUpCount(p, delta, |state.nodes|) == Some(d.count)
    ensures d.scaleUp ==> d.count >= 1 && |state.nodes| + d.count <= p.maxNodes
    ensures d.scaleUp <==>
            && (delta.cpu > p.cpuThreshold || delta.mem > p.memThreshold)
            && !(delta.cpu == 0 && delta.mem == 0)
            && |state.nodes| < p.maxNodes
    ensures d.scaleUp && p.nodeCPU > 0 && p.nodeMem > 0 && delta.cpu >= 0 && delta.mem >= 0 ==>
              && (|state.nodes| + d.count < p.maxNodes ==>
                    delta.cpu <= d.count * p.nodeCPU && delta.mem <= d.count * p.nodeMem)
              && (d.count > 1 ==>
                    delta.cpu > (d.count - 1) * p.nodeCPU || delta.mem > (d.count - 1) * p.nodeMem)
    ensures !d.scaleUp && !d.scaleDown ==> d == NO_OP && d.count == 0 && d.nodeName == ""
    ensures d.scaleDown ==>
              && !d.scaleUp && d.count == 1 && !Exceeds(p, delta) && |state.nodes| > p.minNodes
              && (exists i: nat ::
                    FirstRemovable(p, state.nodes, critical, now, i) && d.nodeName == state.nodes[i].name)
              && exists n :: n in state.nodes && n.name == d.nodeName && n.ready && !n.unschedulable && n.allocCPU != 0
                   && n.usedCPU as real / n.allocCPU as real * 100.0 < p.lowWaterMarkPercent
                   && !critical(n.name) && now - n.createdAt > p.cooldown
    ensures !Exceeds(p, delta) && |state.nodes| > p.minNodes ==>
              forall i: nat ::
                FirstRemovable(p, state.nodes, critical, now, i) && state.nodes[i].name != "" ==> d.scaleDown
  {
    var nodes := state.GetNodes();
    var currentCount := |nodes|;
    if !delta.IsZero() && (delta.cpu > p.cpuThreshold || delta.mem > p.memThreshold) {
      if currentCount >= p.maxNodes {
        return NO_OP;
      }
      var nodesForCPU := CeilDiv(delta.cpu, p.nodeCPU);
      var nodesForMem := CeilDiv(delta.mem, p.nodeMem);
      var needed := nodesForCPU;
      if nodesForMem > needed {
        needed := nodesForMem;
      }
      if needed < 1 {
        needed := 1;
      }
      var headroom := p.maxNodes - currentCount;
      if needed > headroom {
        needed := headroom;
      }
      if p.nodeCPU > 0 && p.nodeMem > 0 && delta.cpu >= 0 && delta.mem >= 0 {
        CountExactly(p, delta, currentCount);
      }
      return Decision(true, false, needed, "");
    }
    if currentCount > p.minNodes {
      var candidate := ScaleDownCandidate(p, nodes, critical, now);
      if candidate != "" {
        return Decision(false, true, 1, candidate);
      }
    }
    return NO_OP;
  }

  // ------------------------------------------------- agreement with the estimate

  /** What the controller makes of the policy's count: no more than packing needs. */
  function Clamp(count: int, needed: nat): int { if needed < count then needed else count }

  predicate SameTemplate(p: ThresholdPolicy, t: Template) {
    t.cpu > 0 && t.mem > 0 && p.nodeCPU == t.cpu && p.nodeMem == t.mem
  }

  /** Volume counts no more nodes than packing needs. */
  lemma CeilWithin(d: int, k: nat, cap: nat)
    requires 0 <= d <= k * cap && cap > 0
    ensures CeilDiv(d, cap) <= k
  {
    CeilDivCovers(d, cap);
    Sums.CancelFactor(CeilDiv(d, cap) - 1, k, cap);
  }

  /** The policy counts by volume and the estimator by packing. With the same
      template the policy's count is never the larger, the estimate is below
      three times it, and cutting the count down to the estimate changes nothing. */
  lemma PolicyWithinEstimate(p: ThresholdPolicy, t: Template, nodes: seq<NodeInfo>, pods: seq<PodInfo>,
                             order: seq<PodInfo>)
    requires SameTemplate(p, t) && SortedOrder(t, pods, order)
    requires Exceeds(p, ReportOf(t, nodes, pods, order).delta)
    ensures var r := ReportOf(t, nodes, pods, order);
            && 1 <= Uncapped(p, r.delta) <= r.nodesNeeded <= 3 * Uncapped(p, r.delta) - 2
            && forall current: nat :: ScaleUpCount(p, r.delta, current).Some? ==>
                 1 <= ScaleUpCount(p, r.delta, current).value <= r.nodesNeeded
  {
    ReportFigures(t, nodes, pods, order);
    var r := ReportOf(t, nodes, pods, order);
    CeilWithin(r.delta.cpu, r.nodesNeeded, t.cpu);
    CeilWithin(r.delta.mem, r.nodesNeeded, t.mem);
    UncappedCovers(p, r.delta);
  }

  /** The figures of the shipped policy and template: half a CPU and 256 MiB,
      twenty per cent, between one and five nodes, sixty seconds, and nodes of
      two CPUs and four gibibytes. */
  lemma ShippedFigures()
    ensures DEFAULT_POLICY
         == ThresholdPolicy(500, 268435456, 20.0, 5, 1, 60_000_000_000, 2000, 4294967296)
    ensures DEFAULT_TEMPLATE
         == Template(2000, 4294967296, Some(map["node-role.kubernetes.io/worker" := ""]), [])
  {
  }

  /** The shipped configuration is such a pair: as delivered, the controller's
      cut never changes the policy's count. */
  lemma ShippedWithinEstimate(nodes: seq<NodeInfo>, pods: seq<PodInfo>, order: seq<PodInfo>)
    requires SortedOrder(DEFAULT_TEMPLATE, pods, order)
    requires Exceeds(DEFAULT_POLICY, ReportOf(DEFAULT_TEMPLATE, nodes, pods, order).delta)
    ensures var r := ReportOf(DEFAULT_TEMPLATE, nodes, pods, order);
            var d := ScaleUpCount(DEFAULT_POLICY, r.delta, |nodes|);
            && r.nodesNeeded <= 3 * Uncapped(DEFAULT_POLICY, r.delta) - 2
            && (d.Some? ==> Clamp(d.value, r.nodesNeeded) == d.value)
  {
    PolicyWithinEstimate(DEFAULT_POLICY, DEFAULT_TEMPLATE, nodes, pods, order);
  }

  /** The count a scale-up should have: it stays within the node limit and within
      what packing needs, no smaller count covers the deficit, and if it does not
      cover it either, one of the two limits has been reached. */
  ghost predicate RightCount(p: ThresholdPolicy, d: ResourceDelta, needed: nat, current: nat, count: int) {
    && 1 <= count <= needed && current + count <= p.maxNodes
    && (count < needed && current + count < p.maxNodes ==>
          d.cpu <= count * p.nodeCPU && d.mem <= count * p.nodeMem)
    && (count > 1 ==> d.cpu > (count - 1) * p.nodeCPU || d.mem > (count - 1) * p.nodeMem)
  }

  lemma ClampedCountRight(p: ThresholdPolicy, d: ResourceDelta, needed: nat, current: nat)
    requires p.nodeCPU > 0 && p.nodeMem > 0 && d.cpu >= 0 && d.mem >= 0 && needed >= 1
    requires ScaleUpCount(p, d, current).Some?
    ensures RightCount(p, d, needed, current, Clamp(ScaleUpCount(p, d, current).value, needed))
  {
    CountExactly(p, d, current);
    var n := Clamp(ScaleUpCount(p, d, current).value, needed);
    if n > 1 {
      FewerDoNotCover(p, d, n - 1);
    }
  }

  /** No other count is right. */
  lemma RightCountUnique(p: ThresholdPolicy, d: ResourceDelta, needed: nat, current: nat, a: int, b: int)
    requires p.nodeCPU > 0 && p.nodeMem > 0
    requires RightCount(p, d, needed, current, a) && RightCount(p, d, needed, current, b)
    ensures a == b
  {
    var low, high := if a < b then a else b, if a < b then b else a;
    if low < high {
      MoreShares(low, high - 1, p.nodeCPU);
      MoreShares(low, high - 1, p.nodeMem);
    }
  }
}
