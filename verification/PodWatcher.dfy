/** The pod watcher: rebuilds the pending and the scheduled list from the
    informer's store and hands both to the shared state. */
module PodWatcher {
  import opened Wrappers
  import opened Cluster
  import opened PodResources
  import opened ClusterView
  import CS = ClusterState

  const PENDING := "Pending"
  const POD_SCHEDULED := "PodScheduled"

  datatype Affinity = Affinity(podAffinity: bool, podAntiAffinity: bool, nodeRequired: bool)

  datatype Condition = Condition(kind: string, reason: string, message: string)

  datatype Pod = Pod(
    name: string,
    namespace: string,
    phase: string,
    conditions: seq<Condition>,
    nodeName: string,
    spec: PodSpec,
    nodeSelector: map<string, string>,
    tolerations: seq<Toleration>,
    affinity: Option<Affinity>,
    topologySpread: nat)

  /** The store may hold objects of another type, which are skipped. */
  datatype StoreItem = PodItem(pod: Pod) | OtherItem

  /** What is unsupported about a pod, if anything: a topology spread comes
      before everything else, then the first of the three affinities. */
  ghost predicate IsUnsupported(pod: Pod, why: Option<Unsupported>) {
    var a := if pod.affinity.Some? then pod.affinity.value else Affinity(false, false, false);
    if pod.topologySpread > 0 then why == Some(TopologySpread)
    else match why
      case Some(PodAffinity) => a.podAffinity
      case Some(PodAntiAffinity) => a.podAntiAffinity && !a.podAffinity
      case Some(NodeRequired) => a.nodeRequired && !a.podAffinity && !a.podAntiAffinity
      case Some(TopologySpread) => false
      case None => !a.podAffinity && !a.podAntiAffinity && !a.nodeRequired
  }

  function UnsupportedOf(pod: Pod): (why: Option<Unsupported>)
    ensures IsUnsupported(pod, why)
  {
    if pod.topologySpread > 0 then Some(TopologySpread)
    else if pod.affinity.None? then None
    else if pod.affinity.value.podAffinity then Some(PodAffinity)
    else if pod.affinity.value.podAntiAffinity then Some(PodAntiAffinity)
    else if pod.affinity.value.nodeRequired then Some(NodeRequired)
    else None
  }

  ghost predicate IsFirstScheduled(conditions: seq<Condition>, i: nat, k: nat)
    requires k < |conditions|
  {
    conditions[k].kind == POD_SCHEDULED && forall j :: i <= j < k ==> conditions[j].kind != POD_SCHEDULED
  }

  /** The first condition from `i` on that tells whether the pod is scheduled,
      or one without reason and message. */
  function ScheduledFrom(conditions: seq<Condition>, i: nat): (c: Condition)
    requires i <= |conditions|
    ensures forall k :: i <= k < |conditions| && IsFirstScheduled(conditions, i, k) ==> c == conditions[k]
    ensures (forall j :: i <= j < |conditions| ==> conditions[j].kind != POD_SCHEDULED) ==> c == Condition("", "", "")
    decreases |conditions| - i
  {
    if i == |conditions| then Condition("", "", "")
    else if conditions[i].kind == POD_SCHEDULED then conditions[i]
    else ScheduledFrom(conditions, i + 1)
  }

  function InfoOf(pod: Pod): PodInfo {
    var c := ScheduledFrom(pod.conditions, 0);
    PodInfo(pod.name, pod.namespace, pod.nodeName, pod.phase, c.reason, c.message,
            Effective(pod.spec, CPU), Effective(pod.spec, MEMORY),
            pod.nodeSelector, pod.tolerations, UnsupportedOf(pod))
  }

  method PodToInfo(pod: Pod) returns (info: PodInfo)
    ensures info == InfoOf(pod)
    ensures info.name == pod.name && info.namespace == pod.namespace
    ensures info.nodeName == pod.nodeName && info.status == pod.phase
    ensures info.cpu == Effective(pod.spec, "cpu") && info.mem == Effective(pod.spec, "memory")
    ensures info.nodeSelector == pod.nodeSelector && info.tolerations == pod.tolerations
    ensures IsUnsupported(pod, info.unsupported)
    ensures info.unsupported.Some? <==>
            || pod.topologySpread > 0
            || (pod.affinity.Some? && (pod.affinity.value.podAffinity || pod.affinity.value.podAntiAffinity
                                       || pod.affinity.value.nodeRequired))
    ensures forall k :: 0 <= k < |pod.conditions| && IsFirstScheduled(pod.conditions, 0, k) ==>
              info.conditionReason == pod.conditions[k].reason && info.conditionMessage == pod.conditions[k].message
    ensures (forall k :: 0 <= k < |pod.conditions| ==> pod.conditions[k].kind != "PodScheduled") ==>
              info.conditionReason == "" && info.conditionMessage == ""
  {
    var cpu, mem := PodEffectiveRequests(pod.spec);
    var condReason, condMessage := ScheduledCondition(pod.conditions);
    var unsupported: Option<Unsupported> := None;
    if pod.affinity.Some? {
      if pod.affinity.value.podAffinity {
        unsupported := Some(PodAffinity);
      } else if pod.affinity.value.podAntiAffinity {
        unsupported := Some(PodAntiAffinity);
      } else if pod.affinity.value.nodeRequired {
        unsupported := Some(NodeRequired);
      }
    }
    if pod.topologySpread > 0 {
      unsupported := Some(TopologySpread);
    }
    info := PodInfo(pod.name, pod.namespace, pod.nodeName, pod.phase, condReason, condMessage,
                    cpu, mem, pod.nodeSelector, pod.tolerations, unsupported);
  }

  method ScheduledCondition(conditions: seq<Condition>) returns (reason: string, message: string)
    ensures reason == ScheduledFrom(conditions, 0).reason && message == ScheduledFrom(conditions, 0).message
  {
    for i := 0 to |conditions|
      invariant forall j :: 0 <= j < i ==> conditions[j].kind != POD_SCHEDULED
    {
      if conditions[i].kind == POD_SCHEDULED {
        return conditions[i].reason, conditions[i].message;
      }
    }
    return "", "";
  }

  predicate IsPending(item: StoreItem) { item.PodItem? && item.pod.phase == PENDING }

  predicate IsBound(item: StoreItem) {
    item.PodItem? && item.pod.nodeName != "" && !Terminal(item.pod.phase)
  }

  function PendingOf(items: seq<StoreItem>): seq<PodInfo> {
    if items == [] then []
    else
      var n := |items| - 1;
      PendingOf(items[..n]) + if IsPending(items[n]) then [InfoOf(items[n].pod)] else []
  }

  function ScheduledOf(items: seq<StoreItem>): seq<PodInfo> {
    if items == [] then []
    else
      var n := |items| - 1;
      ScheduledOf(items[..n]) + if IsBound(items[n]) then [InfoOf(items[n].pod)] else []
  }

  /** `infos` are what is kept of the pods at the positions `ks`, in order. */
  ghost predicate Handed(items: seq<StoreItem>, ks: seq<nat>, infos: seq<PodInfo>) {
    && |ks| == |infos|
    && (forall i :: 0 <= i < |ks| ==>
          ks[i] < |items| && items[ks[i]].PodItem? && infos[i] == InfoOf(items[ks[i]].pod))
    && forall i, j :: 0 <= i < j < |ks| ==> ks[i] < ks[j]
  }

  /** One item more, kept or not. */
  lemma HandedStep(items: seq<StoreItem>, ks: seq<nat>, infos: seq<PodInfo>, keep: bool, more: seq<PodInfo>)
    returns (ms: seq<nat>)
    requires items != [] && Handed(items[..|items| - 1], ks, infos) && (keep ==> items[|items| - 1].PodItem?)
    requires more == infos + if keep then [InfoOf(items[|items| - 1].pod)] else []
    ensures Handed(items, ms, more)
    ensures forall j: nat :: j in ms <==> j in ks || (keep && j == |items| - 1)
    ensures forall j: nat :: j in ks ==> j < |items| - 1
  {
    ms := ks + if keep then [|items| - 1] else [];
  }

  lemma {:induction false} PendingAre(items: seq<StoreItem>) returns (ks: seq<nat>)
    ensures Handed(items, ks, PendingOf(items))
    ensures forall j: nat :: j in ks <==>
              j < |items| && items[j].PodItem? && items[j].pod.phase == "Pending"
  {
    if items == [] {
      ks := [];
    } else {
      var n := |items| - 1;
      var before := PendingAre(items[..n]);
      ks := HandedStep(items, before, PendingOf(items[..n]), IsPending(items[n]), PendingOf(items));
    }
  }

  lemma {:induction false} ScheduledAre(items: seq<StoreItem>) returns (ks: seq<nat>)
    ensures Handed(items, ks, ScheduledOf(items))
    ensures forall j: nat :: j in ks <==>
              && j < |items| && items[j].PodItem? && items[j].pod.nodeName != ""
              && items[j].pod.phase != "Succeeded" && items[j].pod.phase != "Failed"
  {
    if items == [] {
      ks := [];
    } else {
      var n := |items| - 1;
      var before := ScheduledAre(items[..n]);
      ks := HandedStep(items, before, ScheduledOf(items[..n]), IsBound(items[n]), ScheduledOf(items));
    }
  }

  /** The pods that are pending and those that are bound and not finished, each
      once and in the order of the store. */
  method Sync(items: seq<StoreItem>, state: CS.ClusterState)
    returns (ghost pending: seq<nat>, ghost scheduled: seq<nat>)
    modifies state
    ensures state.Contents() == Apply(old(state.Contents()), SetPods(PendingOf(items), ScheduledOf(items)))
    ensures Handed(items, pending, state.pendingPods) && Handed(items, scheduled, state.scheduledPods)
    ensures forall j: nat :: j in pending <==> j < |items| && items[j].PodItem? && items[j].pod.phase == "Pending"
    ensures forall j: nat :: j in scheduled <==>
              && j < |items| && items[j].PodItem? && items[j].pod.nodeName != ""
              && items[j].pod.phase != "Succeeded" && items[j].pod.phase != "Failed"
  {
    var pendingPods, scheduledPods := [], [];
    for i := 0 to |items|
      invariant pendingPods == PendingOf(items[..i]) && scheduledPods == ScheduledOf(items[..i])
      invariant unchanged(state)
    {
      assert items[..i + 1][..i] == items[..i];
      if items[i].OtherItem? {
        continue;
      }
      var pod := items[i].pod;
      var info := PodToInfo(pod);
      if pod.phase == PENDING {
        pendingPods := pendingPods + [info];
      }
      if pod.nodeName != "" && pod.phase != SUCCEEDED && pod.phase != FAILED {
        scheduledPods := scheduledPods + [info];
      }
    }
    assert items[..|items|] == items;
    state.SetPods(pendingPods, scheduledPods);
    pending := PendingAre(items);
    scheduled := ScheduledAre(items);
  }

  /** The effective requests of the store's non-terminal pods on one node. */
  function StoreUsage(items: seq<StoreItem>, resource: string, node: string): int {
    if items == [] then 0
    else
      var n := |items| - 1;
      StoreUsage(items[..n], resource, node)
      + if IsBound(items[n]) && items[n].pod.nodeName == node then Effective(items[n].pod.spec, resource) else 0
  }

  lemma {:induction false} StoreUsageIs(items: seq<StoreItem>, node: string)
    ensures Usage(CpuOf, ScheduledOf(items), node) == StoreUsage(items, CPU, node)
    ensures Usage(MemOf, ScheduledOf(items), node) == StoreUsage(items, MEMORY, node)
  {
    if items == [] {
    } else {
      var n := |items| - 1;
      StoreUsageIs(items[..n], node);
      if IsBound(items[n]) {
        UsageSnoc(ScheduledOf(items[..n]), InfoOf(items[n].pod), node);
      } else {
        assert ScheduledOf(items) == ScheduledOf(items[..n]);
      }
    }
  }

  /** Right after a sync that finds a bound pod, every node's cached usage is
      the effective demand of the store's non-terminal pods bound to it. */
  lemma SyncedUsage(v: View, items: seq<StoreItem>)
    requires ScheduledOf(items) != []
    ensures var nodes := Apply(v, SetPods(PendingOf(items), ScheduledOf(items))).nodes;
            && |nodes| == |v.nodes|
            && forall i :: 0 <= i < |nodes| ==>
                 && nodes[i].usedCPU == StoreUsage(items, CPU, nodes[i].name)
                 && nodes[i].usedMem == StoreUsage(items, MEMORY, nodes[i].name)
  {
    forall i | 0 <= i < |v.nodes|
      ensures Usage(CpuOf, ScheduledOf(items), v.nodes[i].name) == StoreUsage(items, CPU, v.nodes[i].name)
      ensures Usage(MemOf, ScheduledOf(items), v.nodes[i].name) == StoreUsage(items, MEMORY, v.nodes[i].name)
    {
      StoreUsageIs(items, v.nodes[i].name);
    }
  }
}
