/** The shared snapshot of the cluster. Each writer runs under the mutex, so
    each is one step from one view to the next. */
module ClusterState {
  import opened Cluster
  import opened Sums
  import opened ClusterView
  import opened Filters

  /** `after` are the nodes `before`, with the usage of the scheduled pods in
      place of the cached one, provided there are scheduled pods. */
  ghost predicate Refreshed(before: seq<NodeInfo>, scheduled: seq<PodInfo>, after: seq<NodeInfo>) {
    && |after| == |before|
    && (forall j :: 0 <= j < |before| ==> SameButUsage(after[j], before[j]))
    && if scheduled == [] then after == before
       else forall j :: 0 <= j < |before| ==>
              && after[j].usedCPU == Usage(CpuOf, scheduled, before[j].name)
              && after[j].usedMem == Usage(MemOf, scheduled, before[j].name)
  }

  class ClusterState {
    var pendingPods: seq<PodInfo>
    var scheduledPods: seq<PodInfo>
    var nodes: seq<NodeInfo>

    function Contents(): View
      reads this
    {
      View(pendingPods, scheduledPods, nodes)
    }

    constructor ()
      ensures Contents() == EMPTY
      ensures pendingPods == [] && scheduledPods == [] && nodes == []
    {
      pendingPods, scheduledPods, nodes := [], [], [];
    }

    method SetPendingPods(pods: seq<PodInfo>)
      modifies this
      ensures Contents() == Apply(old(Contents()), SetPending(pods))
      ensures pendingPods == pods && scheduledPods == old(scheduledPods) && nodes == old(nodes)
    {
      pendingPods := pods;
    }

    method SetScheduledPods(pods: seq<PodInfo>)
      modifies this
      ensures Contents() == Apply(old(Contents()), SetScheduled(pods))
      ensures pendingPods == old(pendingPods) && scheduledPods == pods && Refreshed(old(nodes), pods, nodes)
    {
      scheduledPods := pods;
      RecomputeNodeUsage();
    }

    method SetPods(pending: seq<PodInfo>, scheduled: seq<PodInfo>)
      modifies this
      ensures Contents() == Apply(old(Contents()), Op.SetPods(pending, scheduled))
      ensures pendingPods == pending && scheduledPods == scheduled && Refreshed(old(nodes), scheduled, nodes)
    {
      pendingPods := pending;
      scheduledPods := scheduled;
      RecomputeNodeUsage();
    }

    method SetNodes(newNodes: seq<NodeInfo>)
      modifies this
      ensures Contents() == Apply(old(Contents()), Op.SetNodes(newNodes))
      ensures pendingPods == old(pendingPods) && scheduledPods == old(scheduledPods)
      ensures Refreshed(newNodes, scheduledPods, nodes)
    {
      nodes := newNodes;
      if |scheduledPods| > 0 {
        RecomputeNodeUsage();
      }
    }

    /** Accumulates the requests per node name, then writes every node's usage. */
    method RecomputeNodeUsage()
      modifies this`nodes
      ensures Contents() == Recompute(old(Contents()))
      ensures Refreshed(old(nodes), scheduledPods, nodes)
    {
      if |scheduledPods| == 0 {
        return;
      }
      var cpuMap, memMap := AccumulateRequests(scheduledPods);
      var i := 0;
      while i < |nodes|
        invariant i <= |nodes| == |old(nodes)|
        invariant forall j :: 0 <= j < i ==> nodes[j] == WithUsage(old(nodes)[j], scheduledPods)
        invariant forall j :: i <= j < |nodes| ==> nodes[j] == old(nodes)[j]
      {
        var name := nodes[i].name;
        nodes := nodes[i := nodes[i].(usedCPU := if name in cpuMap then cpuMap[name] else 0)];
        nodes := nodes[i := nodes[i].(usedMem := if name in memMap then memMap[name] else 0)];
        i := i + 1;
      }
      assert nodes == AllWithUsage(old(nodes), scheduledPods);
    }

    method UpdateNode(node: NodeInfo)
      modifies this
      ensures Contents() == Apply(old(Contents()), Op.UpdateNode(node))
      ensures pendingPods == old(pendingPods) && scheduledPods == old(scheduledPods)
      ensures Updated(old(nodes), scheduledPods, node, nodes)
    {
      InsertOrReplace(node);
      if |scheduledPods| > 0 {
        RecomputeNodeUsage();
      }
      UpdateExactly(old(Contents()), node);
    }

    method InsertOrReplace(node: NodeInfo)
      modifies this`nodes
      ensures nodes == Put(old(nodes), node)
    {
      var found := false;
      var i := 0;
      while i < |nodes|
        invariant i <= |nodes| && !found && nodes == old(nodes)
        invariant forall j :: 0 <= j < i ==> nodes[j].name != node.name
      {
        if nodes[i].name == node.name {
          var updated := node;
          if updated.usedCPU == 0 && nodes[i].usedCPU != 0 {
            updated := updated.(usedCPU := nodes[i].usedCPU);
          }
          if updated.usedMem == 0 && nodes[i].usedMem != 0 {
            updated := updated.(usedMem := nodes[i].usedMem);
          }
          nodes := nodes[i := updated];
          found := true;
          break;
        }
        i := i + 1;
      }
      if !found {
        nodes := nodes + [node];
      }
    }

    method RemoveNode(name: string) returns (ghost ks: seq<nat>)
      modifies this
      ensures Contents() == Apply(old(Contents()), Op.RemoveNode(name))
      ensures pendingPods == old(pendingPods) && scheduledPods == old(scheduledPods)
      ensures Picks(old(nodes), ks, nodes)
      ensures forall j: nat :: j in ks <==> j < |old(nodes)| && old(nodes)[j].name != name
    {
      var filtered: seq<NodeInfo> := [];
      for i := 0 to |nodes|
        invariant nodes == old(nodes)
        invariant filtered == Without(nodes[..i], name)
      {
        assert nodes[..i + 1][..i] == nodes[..i];
        if nodes[i].name != name {
          filtered := filtered + [nodes[i]];
        }
      }
      assert nodes[..|nodes|] == nodes;
      nodes := filtered;
      ks := WithoutAre(old(nodes), name);
    }

    method GetNodes() returns (out: seq<NodeInfo>)
      ensures out == nodes
    {
      out := nodes;
    }

    method TotalUsedCPU() returns (total: int)
      ensures total == Sum(UsedCpuOf, nodes)
    {
      total := 0;
      for i := 0 to |nodes|
        invariant total == Sum(UsedCpuOf, nodes[..i])
      {
        SumTake(UsedCpuOf, nodes, i);
        total := total + nodes[i].usedCPU;
      }
      assert nodes[..|nodes|] == nodes;
    }

    method TotalUsedMemory() returns (total: int)
      ensures total == Sum(UsedMemOf, nodes)
    {
      total := 0;
      for i := 0 to |nodes|
        invariant total == Sum(UsedMemOf, nodes[..i])
      {
        SumTake(UsedMemOf, nodes, i);
        total := total + nodes[i].usedMem;
      }
      assert nodes[..|nodes|] == nodes;
    }
  }

  /** Per node name, the requests of the pods bound to it; pods without a node
      are left out. */
  method AccumulateRequests(pods: seq<PodInfo>) returns (cpuMap: map<string, int>, memMap: map<string, int>)
    ensures forall name :: (if name in cpuMap then cpuMap[name] else 0) == Usage(CpuOf, pods, name)
    ensures forall name :: (if name in memMap then memMap[name] else 0) == Usage(MemOf, pods, name)
  {
    cpuMap, memMap := map[], map[];
    assert pods[..0] == [] && NodeNames(pods[..0]) == [];
    for i := 0 to |pods|
      invariant cpuMap.Keys == memMap.Keys
      invariant forall name :: (if name in cpuMap then cpuMap[name] else 0) == Usage(CpuOf, pods[..i], name)
      invariant forall name :: (if name in memMap then memMap[name] else 0) == Usage(MemOf, pods[..i], name)
    {
      var p := pods[i];
      UsageTake(pods, i);
      if p.nodeName == "" {
        continue;
      }
      if p.nodeName !in cpuMap {
        cpuMap := cpuMap[p.nodeName := 0];
        memMap := memMap[p.nodeName := 0];
      }
      cpuMap := cpuMap[p.nodeName := cpuMap[p.nodeName] + p.cpu];
      memMap := memMap[p.nodeName := memMap[p.nodeName] + p.mem];
    }
    assert pods[..|pods|] == pods;
  }

  lemma UsageTake(pods: seq<PodInfo>, i: nat)
    requires i < |pods|
    ensures forall name :: Usage(CpuOf, pods[..i + 1], name)
                        == Usage(CpuOf, pods[..i], name)
                           + if name == pods[i].nodeName && name != "" then pods[i].cpu else 0
    ensures forall name :: Usage(MemOf, pods[..i + 1], name)
                        == Usage(MemOf, pods[..i], name)
                           + if name == pods[i].nodeName && name != "" then pods[i].mem else 0
  {
    assert pods[..i + 1] == pods[..i] + [pods[i]];
    forall name {
      UsageSnoc(pods[..i], pods[i], name);
    }
  }
}
