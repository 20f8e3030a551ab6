/** Nodes and pods as the API server holds them, and what others may do to
    them while a node is being removed. */
module Api {
  import opened Wrappers
  import opened Cluster

  const MANAGED_BY := "autoscaler.kuber-scale/managed-by"
  const MANAGED_VALUE := "kuber-scale-autoscaler"
  const MIRROR := "kubernetes.io/config.mirror"
  const DAEMON_SET := "DaemonSet"
  const SYSTEM_NAMESPACE := "kube-system"
  const CLUSTER_CRITICAL := "system-cluster-critical"
  const NODE_CRITICAL := "system-node-critical"

  datatype ApiNode = ApiNode(unschedulable: bool, annotations: map<string, string>)

  /** `node` is None until the pod is bound. */
  datatype ApiPod = ApiPod(
    namespace: string,
    name: string,
    phase: string,
    annotations: map<string, string>,
    ownerKinds: seq<string>,
    priorityClass: string,
    node: Option<string>)

  /** Pods are identified by their unique id. */
  type Uid = nat

  /** What a request addresses a pod by. */
  datatype PodKey = PodKey(namespace: string, name: string)

  function KeyOf(pod: ApiPod): PodKey { PodKey(pod.namespace, pod.name) }

  predicate Bears(pods: map<Uid, ApiPod>, k: Uid, key: PodKey) { k in pods && KeyOf(pods[k]) == key }

  /** No two pods share a name in one namespace. */
  ghost predicate UniqueNames(pods: map<Uid, ApiPod>) {
    forall j, k :: j in pods && k in pods && KeyOf(pods[j]) == KeyOf(pods[k]) ==> j == k
  }

  datatype ApiState = ApiState(nodes: map<string, ApiNode>, pods: map<Uid, ApiPod>)

  // --------------------------------------------------------------- pod classes

  /** The drainer leaves finished, static and daemon-set pods alone. */
  predicate ShouldSkip(pod: ApiPod) {
    Terminal(pod.phase) || MIRROR in pod.annotations || DAEMON_SET in pod.ownerKinds
  }

  predicate Critical(pod: ApiPod) {
    pod.priorityClass == CLUSTER_CRITICAL || pod.priorityClass == NODE_CRITICAL
  }

  /** The idle check counts a pod as workload if none of its five excuses holds. */
  predicate IsWorkload(pod: ApiPod) {
    if Terminal(pod.phase) then false
    else if pod.namespace == SYSTEM_NAMESPACE then false
    else if DAEMON_SET in pod.ownerKinds then false
    else if MIRROR in pod.annotations then false
    else !Critical(pod)
  }

  /** What the drainer leaves alone, critical pods and system pods not among it. */
  lemma SkippedExactly(pod: ApiPod)
    ensures ShouldSkip(pod) <==>
            || pod.phase in {"Succeeded", "Failed"}
            || "kubernetes.io/config.mirror" in pod.annotations
            || "DaemonSet" in pod.ownerKinds
  {
  }

  /** What keeps a node from being idle. */
  lemma WorkloadExactly(pod: ApiPod)
    ensures IsWorkload(pod) <==>
            && pod.phase !in {"Succeeded", "Failed"}
            && pod.namespace != "kube-system"
            && "DaemonSet" !in pod.ownerKinds
            && "kubernetes.io/config.mirror" !in pod.annotations
            && pod.priorityClass !in {"system-cluster-critical", "system-node-critical"}
  {
  }

  predicate Managed(node: ApiNode) {
    MANAGED_BY in node.annotations && node.annotations[MANAGED_BY] == MANAGED_VALUE
  }

  predicate EvictableOn(st: ApiState, k: Uid, n: string) {
    k in st.pods && st.pods[k].node == Some(n) && !ShouldSkip(st.pods[k])
  }

  ghost predicate NoneEvictable(st: ApiState, n: string) {
    forall k :: k in st.pods ==> !EvictableOn(st, k, n)
  }

  /** The node cannot receive evictable pods: it is cordoned, or gone. */
  predicate Closed(st: ApiState, n: string) {
    n in st.nodes ==> st.nodes[n].unschedulable
  }

  ghost predicate HasWorkload(st: ApiState, n: string) {
    exists k :: k in st.pods && st.pods[k].node == Some(n) && IsWorkload(st.pods[k])
  }

  /** A node without workload has only system pods left to evict: the idle
      check and the drainer class the other pods alike. */
  lemma IdleLeavesSystemPods(st: ApiState, n: string)
    ensures !HasWorkload(st, n) <==>
            forall k :: EvictableOn(st, k, n) ==> st.pods[k].namespace == SYSTEM_NAMESPACE || Critical(st.pods[k])
  {
    forall k | k in st.pods && st.pods[k].node == Some(n)
      ensures IsWorkload(st.pods[k]) <==>
              EvictableOn(st, k, n) && st.pods[k].namespace != SYSTEM_NAMESPACE && !Critical(st.pods[k])
    {
    }
  }

  // ------------------------------------------------------------ the environment

  /** What the scheduler, the kubelets and other clients may do. */
  datatype Event =
    | Create(k: Uid, pod: ApiPod)
    | Bind(k: Uid, to: string)
    | Progress(k: Uid, phase: string)
    | Relabel(k: Uid, annotations: map<string, string>, ownerKinds: seq<string>)
    | Gone(k: Uid)
    | Cordon(m: string)
    | Annotate(m: string, annotations: map<string, string>)
    | NodeGone(m: string)
    | NodeJoins(m: string, node: ApiNode)

  /** A new pod takes a name that is free. While node `n` is being removed: evictable pods are bound to uncordoned
      nodes only, finished pods stay finished, no pod stops being static or a
      daemon-set's unless something else exempts it, nobody uncordons a node, takes
      its managed-by mark away, or lets another node join under the name `n`. */
  ghost predicate Enabled(n: string, st: ApiState, e: Event) {
    match e
    case Create(k, pod) =>
      && k !in st.pods && (forall j :: j in st.pods ==> KeyOf(st.pods[j]) != KeyOf(pod))
      && (pod.node.Some? && !ShouldSkip(pod) ==> OpenFor(st, pod.node.value))
    case Bind(k, to) =>
      k in st.pods && st.pods[k].node.None? && (!ShouldSkip(st.pods[k]) ==> OpenFor(st, to))
    case Progress(k, phase) => k in st.pods && (Terminal(st.pods[k].phase) ==> Terminal(phase))
    case Relabel(k, annotations, ownerKinds) =>
      k in st.pods
      && (ShouldSkip(st.pods[k]) ==> ShouldSkip(st.pods[k].(annotations := annotations, ownerKinds := ownerKinds)))
    case Gone(k) => k in st.pods
    case Cordon(m) => m in st.nodes
    case Annotate(m, annotations) =>
      m in st.nodes && (Managed(st.nodes[m]) ==> Managed(st.nodes[m].(annotations := annotations)))
    case NodeGone(m) => m in st.nodes
    case NodeJoins(m, node) => m !in st.nodes && m != n
  }

  predicate OpenFor(st: ApiState, m: string) {
    m in st.nodes && !st.nodes[m].unschedulable
  }

  function Happens(st: ApiState, e: Event): ApiState {
    match e
    case Create(k, pod) => st.(pods := st.pods[k := pod])
    case Bind(k, to) => if k in st.pods then st.(pods := st.pods[k := st.pods[k].(node := Some(to))]) else st
    case Progress(k, phase) => if k in st.pods then st.(pods := st.pods[k := st.pods[k].(phase := phase)]) else st
    case Relabel(k, annotations, ownerKinds) =>
      if k in st.pods
      then st.(pods := st.pods[k := st.pods[k].(annotations := annotations, ownerKinds := ownerKinds)])
      else st
    case Gone(k) => st.(pods := st.pods - {k})
    case Cordon(m) => if m in st.nodes then st.(nodes := st.nodes[m := st.nodes[m].(unschedulable := true)]) else st
    case Annotate(m, annotations) =>
      if m in st.nodes then st.(nodes := st.nodes[m := st.nodes[m].(annotations := annotations)]) else st
    case NodeGone(m) => st.(nodes := st.nodes - {m})
    case NodeJoins(m, node) => st.(nodes := st.nodes[m := node])
  }

  /** `b` is reached from `a` by any number of such events. */
  ghost predicate Evolves(n: string, a: ApiState, events: seq<Event>, b: ApiState)
    decreases |events|
  {
    if events == [] then a == b
    else Enabled(n, a, events[0]) && Evolves(n, Happens(a, events[0]), events[1..], b)
  }

  /** What the removal of node `n` may rely on between two of its calls. */
  ghost predicate Rely(n: string, a: ApiState, b: ApiState) {
    && (n in b.nodes ==>
          && n in a.nodes
          && (a.nodes[n].unschedulable ==> b.nodes[n].unschedulable)
          && (Managed(a.nodes[n]) ==> Managed(b.nodes[n])))
    && (Closed(a, n) ==> forall k :: EvictableOn(b, k, n) ==> EvictableOn(a, k, n))
    && (UniqueNames(a.pods) ==> UniqueNames(b.pods))
  }

  lemma OneEvent(n: string, st: ApiState, e: Event)
    requires Enabled(n, st, e)
    ensures Rely(n, st, Happens(st, e))
  {
  }

  /** The assumption on relabelling is needed: on a closed node it breaks what
      the removal relies on exactly when an exempted pod loses its exemption. */
  lemma RelabelRelyIff(n: string, st: ApiState, k: Uid, annotations: map<string, string>, ownerKinds: seq<string>)
    requires Closed(st, n) && k in st.pods && st.pods[k].node == Some(n)
    ensures Rely(n, st, Happens(st, Relabel(k, annotations, ownerKinds))) <==>
            (ShouldSkip(st.pods[k]) ==> ShouldSkip(st.pods[k].(annotations := annotations, ownerKinds := ownerKinds)))
  {
    var t := Happens(st, Relabel(k, annotations, ownerKinds));
    assert !EvictableOn(t, k, n) <==> ShouldSkip(st.pods[k].(annotations := annotations, ownerKinds := ownerKinds));
  }

  lemma RelyTransitive(n: string, a: ApiState, b: ApiState, c: ApiState)
    requires Rely(n, a, b) && Rely(n, b, c)
    ensures Rely(n, a, c)
  {
  }

  /** Whatever happens in between, in any number and order of events, the
      removal can rely on. */
  lemma {:induction false} EventsRely(n: string, a: ApiState, events: seq<Event>, b: ApiState)
    requires Evolves(n, a, events, b)
    ensures Rely(n, a, b)
    decreases |events|
  {
    if events == [] {
    } else {
      OneEvent(n, a, events[0]);
      EventsRely(n, Happens(a, events[0]), events[1..], b);
      RelyTransitive(n, a, Happens(a, events[0]), b);
    }
  }

  // ------------------------------------------------------------- names of pods

  /** A pod is still there under its name exactly if it was not deleted. */
  lemma {:induction false} StaysUnlessGone(n: string, a: ApiState, events: seq<Event>, b: ApiState, k: Uid)
    requires Evolves(n, a, events, b) && k in a.pods
    requires forall i :: 0 <= i < |events| ==> !(events[i].Create? && events[i].k == k)
    ensures Bears(b.pods, k, KeyOf(a.pods[k])) <==> Gone(k) !in events
    ensures Gone(k) in events ==> k !in b.pods
    decreases |events|
  {
    if events == [] {
    } else {
      var m := Happens(a, events[0]);
      assert events == [events[0]] + events[1..];
      if events[0] == Gone(k) {
        StaysAway(n, m, events[1..], b, k);
      } else {
        StaysUnlessGone(n, m, events[1..], b, k);
      }
    }
  }

  lemma {:induction false} StaysAway(n: string, a: ApiState, events: seq<Event>, b: ApiState, k: Uid)
    requires Evolves(n, a, events, b) && k !in a.pods
    requires forall i :: 0 <= i < |events| ==> !(events[i].Create? && events[i].k == k)
    ensures k !in b.pods
    decreases |events|
  {
    if events == [] {
    } else {
      StaysAway(n, Happens(a, events[0]), events[1..], b, k);
    }
  }

  /** An eviction reaches whichever pod bears the listed pod's name at that
      moment. It is the listed pod exactly if that one was not deleted since the
      list was made; unique ids are never given twice. */
  lemma EvictsListedIff(n: string, a: ApiState, events: seq<Event>, b: ApiState, k: Uid, hit: Uid)
    requires UniqueNames(a.pods) && Evolves(n, a, events, b) && k in a.pods
    requires forall i :: 0 <= i < |events| ==> !(events[i].Create? && events[i].k == k)
    requires Bears(b.pods, hit, KeyOf(a.pods[k]))
    ensures hit == k <==> Gone(k) !in events
  {
    StaysUnlessGone(n, a, events, b, k);
    EventsRely(n, a, events, b);
  }

  /** So a pod recreated under its old name on another node is hit there. */
  lemma NamesakeHit(n: string, a: ApiState, k: Uid, other: Uid, m: string)
    requires UniqueNames(a.pods) && k in a.pods && other !in a.pods && OpenFor(a, m)
    ensures var events := [Gone(k), Create(other, a.pods[k].(node := Some(m)))];
            var b := Happens(Happens(a, events[0]), events[1]);
            && Evolves(n, a, events, b)
            && Bears(b.pods, other, KeyOf(a.pods[k])) && b.pods[other].node == Some(m)
  {
    var events := [Gone(k), Create(other, a.pods[k].(node := Some(m)))];
    var c := Happens(a, events[0]);
    var b := Happens(c, events[1]);
    assert events[1..] == [events[1]] && events[1..][1..] == [];
    assert Evolves(n, b, [], b) && Evolves(n, c, events[1..], b);
  }
}
