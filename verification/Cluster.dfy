/** The pod and node records that every other package reads. CPU is in
    milli-cores and memory in bytes. */
module Cluster {
  import opened Wrappers

  datatype Taint = Taint(key: string, value: string, effect: string)

  datatype Toleration = Toleration(key: string, operator: string, value: string, effect: string)

  /** A label map; `None` is the nil map, which answers no selector at all. */
  type Labels = Option<map<string, string>>

  /** The scheduling rules that are not supported. */
  datatype Unsupported = PodAffinity | PodAntiAffinity | NodeRequired | TopologySpread

  datatype PodInfo = PodInfo(
    name: string,
    namespace: string,
    nodeName: string,
    status: string,
    conditionReason: string,
    conditionMessage: string,
    cpu: nat,
    mem: nat,
    nodeSelector: map<string, string>,
    tolerations: seq<Toleration>,
    unsupported: Option<Unsupported>)

  datatype NodeInfo = NodeInfo(
    name: string,
    allocCPU: int,
    allocMem: int,
    usedCPU: int,
    usedMem: int,
    ready: bool,
    unschedulable: bool,
    createdAt: int,
    labels: Labels,
    taints: seq<Taint>)

  /** Times are nanoseconds. */
  const SECOND: int := 1_000_000_000

  const SUCCEEDED := "Succeeded"
  const FAILED := "Failed"

  predicate Terminal(phase: string) { phase == SUCCEEDED || phase == FAILED }

  function NamesOf(nodes: seq<NodeInfo>): (names: seq<string>)
    ensures |names| == |nodes| && forall i :: 0 <= i < |nodes| ==> names[i] == nodes[i].name
  {
    seq(|nodes|, i requires 0 <= i < |nodes| => nodes[i].name)
  }

  function CpuOf(p: PodInfo): int { p.cpu }

  function MemOf(p: PodInfo): int { p.mem }

  const NO_SCHEDULE := "NoSchedule"
  const NO_EXECUTE := "NoExecute"
  const OP_EXISTS := "Exists"
  const OP_EQUAL := "Equal"

  /** An empty operator counts as Exists, and an empty key matches every key. */
  predicate Tolerates(tol: Toleration, taint: Taint) {
    if tol.key != "" && tol.key != taint.key then false
    else if tol.effect != "" && tol.effect != taint.effect then false
    else if tol.operator == OP_EXISTS || tol.operator == "" then true
    else if tol.operator == OP_EQUAL then tol.value == taint.value
    else false
  }

  /** Looking up a missing key of a non-nil label map yields the empty string. */
  function LabelValue(labels: map<string, string>, k: string): string {
    if k in labels then labels[k] else ""
  }

  predicate SelectorMatches(selector: map<string, string>, labels: Labels) {
    forall k :: k in selector ==> labels.Some? && LabelValue(labels.value, k) == selector[k]
  }

  predicate Blocking(taint: Taint) {
    taint.effect == NO_SCHEDULE || taint.effect == NO_EXECUTE
  }

  /** The scheduling rule: every selector entry matches and every blocking taint is tolerated. */
  predicate Admits(p: PodInfo, labels: Labels, taints: seq<Taint>) {
    && SelectorMatches(p.nodeSelector, labels)
    && forall i :: 0 <= i < |taints| && Blocking(taints[i]) ==>
         exists j :: 0 <= j < |p.tolerations| && Tolerates(p.tolerations[j], taints[i])
  }

  /** The scheduling rule in the fields themselves: a missing label reads as
      empty, a nil map matches no entry, and a taint that blocks needs a
      toleration of its key and effect whose operator is Exists or empty, or
      Equal with the same value. */
  lemma AdmitsExactly(p: PodInfo, labels: Labels, taints: seq<Taint>)
    ensures Admits(p, labels, taints) <==>
            && (forall k :: k in p.nodeSelector ==>
                  && labels.Some?
                  && p.nodeSelector[k] == if k in labels.value then labels.value[k] else "")
            && forall i :: 0 <= i < |taints| && taints[i].effect in {"NoSchedule", "NoExecute"} ==>
                 exists j :: 0 <= j < |p.tolerations|
                   && p.tolerations[j].key in {"", taints[i].key} && p.tolerations[j].effect in {"", taints[i].effect}
                   && (p.tolerations[j].operator in {"", "Exists"}
                       || (p.tolerations[j].operator == "Equal" && p.tolerations[j].value == taints[i].value))
  {
    forall i, j | 0 <= i < |taints| && 0 <= j < |p.tolerations|
      ensures Tolerates(p.tolerations[j], taints[i]) <==>
              && p.tolerations[j].key in {"", taints[i].key} && p.tolerations[j].effect in {"", taints[i].effect}
              && (p.tolerations[j].operator in {"", "Exists"}
                  || (p.tolerations[j].operator == "Equal" && p.tolerations[j].value == taints[i].value))
    {
    }
  }

  /** A taint of any other effect never matters. */
  lemma OtherEffectsIgnored(p: PodInfo, labels: Labels, taints: seq<Taint>, taint: Taint)
    requires taint.effect != "NoSchedule" && taint.effect != "NoExecute"
    ensures Admits(p, labels, taints + [taint]) <==> Admits(p, labels, taints)
  {
    forall i | 0 <= i < |taints + [taint]|
      ensures (taints + [taint])[i] == if i < |taints| then taints[i] else taint
    {
    }
    assert forall i :: 0 <= i < |taints| ==> (taints + [taint])[i] == taints[i];
  }

  method AnyTolerates(tolerations: seq<Toleration>, taint: Taint) returns (tolerated: bool)
    ensures tolerated <==> exists j :: 0 <= j < |tolerations| && Tolerates(tolerations[j], taint)
  {
    tolerated := false;
    for j := 0 to |tolerations|
      invariant !tolerated
      invariant forall l :: 0 <= l < j ==> !Tolerates(tolerations[l], taint)
    {
      if Tolerates(tolerations[j], taint) {
        tolerated := true;
        break;
      }
    }
  }

  /** The check as the estimator performs it: one pass over the selector
      entries, then one over the taints with a search of the tolerations. */
  method CanPodFitConstraints(p: PodInfo, labels: Labels, taints: seq<Taint>) returns (ok: bool)
    ensures ok <==> Admits(p, labels, taints)
    ensures ok <==>
            && (forall k :: k in p.nodeSelector ==>
                  && labels.Some?
                  && p.nodeSelector[k] == if k in labels.value then labels.value[k] else "")
            && forall i :: 0 <= i < |taints| && taints[i].effect in {"NoSchedule", "NoExecute"} ==>
                 exists j :: 0 <= j < |p.tolerations|
                   && p.tolerations[j].key in {"", taints[i].key} && p.tolerations[j].effect in {"", taints[i].effect}
                   && (p.tolerations[j].operator in {"", "Exists"}
                       || (p.tolerations[j].operator == "Equal" && p.tolerations[j].value == taints[i].value))
  {
    AdmitsExactly(p, labels, taints);
    var keys := p.nodeSelector.Keys;
    while keys != {}
      invariant keys <= p.nodeSelector.Keys
      invariant forall k :: k in p.nodeSelector && k !in keys ==>
                  labels.Some? && LabelValue(labels.value, k) == p.nodeSelector[k]
      decreases |keys|
    {
      var k :| k in keys;
      if labels.None? || LabelValue(labels.value, k) != p.nodeSelector[k] {
        return false;
      }
      keys := keys - {k};
    }
    for i := 0 to |taints|
      invariant forall t :: 0 <= t < i && Blocking(taints[t]) ==>
                  exists j :: 0 <= j < |p.tolerations| && Tolerates(p.tolerations[j], taints[t])
    {
      if !Blocking(taints[i]) {
        continue;
      }
      var tolerated := AnyTolerates(p.tolerations, taints[i]);
      if !tolerated {
        return false;
      }
    }
    return true;
  }
}
