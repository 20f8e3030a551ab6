/** The removal pipeline: cordon, evict, wait, check the mark, delete. Between
    any two of its API calls anything the environment may do can happen. */
module Lifecycle {
  import opened Wrappers
  import opened Cluster
  import opened Estimation
  import opened ScalingPolicy
  import opened Api
  import opened Filters
  import Sums

  /** What the pipeline has done to the outside world, in order; a deletion is
      recorded with the state in which it took place. */
  datatype Action = Deleted(name: string, before: ApiState) | HookRan(name: string) | ContainerRemoved(name: string)

  /** `DeleteFailed` is the one failure after which the node may be gone. */
  datatype Failure = ApiFailure | NotFound | PdbBlocked | TimedOut | Cancelled | NotManaged | DeleteFailed

  const POLL_INTERVAL := 5 * SECOND

  datatype EvictReply = Evicted | EvictNotFound | TooManyRequests | EvictFailed

  /** A request for the pod of some name takes away a pod of that name, or none. */
  ghost predicate RemovesBearer(before: map<Uid, ApiPod>, key: PodKey, after: map<Uid, ApiPod>) {
    after == before || exists k :: k in before && Bears(before, k, key) && after == before - {k}
  }

  /** A call that reports a failure may have taken effect all the same. */
  class ApiServer {
    var nodes: map<string, ApiNode>
    var pods: map<Uid, ApiPod>
    var clock: int
    /** The controller is shutting down. */
    var cancelled: bool
    ghost var log: seq<Action>
    /** The state each successful list call answered from. */
    ghost var listed: seq<ApiState>
    /** All list calls, the pods asked to be evicted, and the calls that failed. */
    ghost var listCalls: nat
    ghost var evictions: seq<PodKey>
    ghost var failed: nat

    function State(): ApiState
      reads this
    {
      ApiState(nodes, pods)
    }

    /** Time passes and other clients get their turn. Callers know no more than `Rely`, which
        `EventsRely` proves of every sequence of events. */
    method Interfere(n: string)
      modifies this`nodes, this`pods, this`clock, this`cancelled
      ensures Rely(n, old(State()), State()) && clock >= old(clock) && (old(cancelled) ==> cancelled)
    {
    }

    /** The same, until some time or the shutdown. */
    method Wait(n: string, until: int)
      modifies this`nodes, this`pods, this`clock, this`cancelled
      ensures Rely(n, old(State()), State()) && clock >= old(clock) && (old(cancelled) ==> cancelled)
      ensures cancelled || clock >= until
    {
      if !cancelled && clock < until {
        clock := until;
      }
    }

    method GetNode(name: string) returns (r: Result<ApiNode, Failure>)
      modifies this`failed
      ensures r.Ok? ==> name in nodes && r.value == nodes[name]
      ensures failed == old(failed) + if r.Ok? then 0 else 1
      ensures r.Err? ==> r.error == ApiFailure || (r.error == NotFound && name !in nodes)
    {
      if * {
        failed := failed + 1;
        return Err(ApiFailure);
      }
      if name !in nodes {
        failed := failed + 1;
        return Err(NotFound);
      }
      return Ok(nodes[name]);
    }

    method UpdateNode(name: string, node: ApiNode) returns (ok: bool)
      modifies this`nodes, this`failed
      ensures ok ==> name in old(nodes) && nodes == old(nodes)[name := node]
      ensures !ok ==> nodes == old(nodes) || (name in old(nodes) && nodes == old(nodes)[name := node])
      ensures failed == old(failed) + if ok then 0 else 1
    {
      var effective := *;
      if effective && name in nodes {
        nodes := nodes[name := node];
        ok := *;
      } else {
        ok := false;
      }
      failed := if ok then failed else failed + 1;
    }

    /** All pods bound to a node, in some order, each once. */
    method ListPods(name: string) returns (r: Result<seq<(Uid, ApiPod)>, Failure>)
      modifies this`listed, this`listCalls, this`failed
      ensures listed == if r.Ok? then old(listed) + [State()] else old(listed)
      ensures listCalls == old(listCalls) + 1 && failed == old(failed) + if r.Ok? then 0 else 1
      ensures r.Err? ==> r.error == ApiFailure
      ensures r.Ok? ==> forall k :: k in pods && pods[k].node == Some(name) <==>
                exists i :: 0 <= i < |r.value| && r.value[i].0 == k
      ensures r.Ok? ==> forall i :: 0 <= i < |r.value| ==> r.value[i].0 in pods && r.value[i].1 == pods[r.value[i].0]
      ensures r.Ok? ==> forall i, j :: 0 <= i < j < |r.value| ==> r.value[i].0 != r.value[j].0
    {
      listCalls := listCalls + 1;
      if * {
        failed := failed + 1;
        return Err(ApiFailure);
      }
      var bound := BoundTo(name);
      var all := pods;
      listed := listed + [State()];
      var items := seq(|bound|, i requires 0 <= i < |bound| && bound[i] in all => (bound[i], all[bound[i]]));
      assert forall i :: 0 <= i < |bound| ==> items[i].0 == bound[i];
      return Ok(items);
    }

    method BoundTo(name: string) returns (bound: seq<Uid>)
      ensures forall k :: k in bound <==> k in pods && pods[k].node == Some(name)
      ensures Sums.Distinct(bound)
    {
      bound := [];
      var keys := pods.Keys;
      while keys != {}
        invariant keys <= pods.Keys
        invariant forall k :: k in bound <==> k in pods && k !in keys && pods[k].node == Some(name)
        invariant Sums.Distinct(bound)
        decreases |keys|
      {
        var k :| k in keys;
        keys := keys - {k};
        if pods[k].node == Some(name) {
          assert k !in bound;
          bound := bound + [k];
        }
      }
    }

    /** An eviction that is granted may take effect now or later. It reaches the
        pod that bears the name at this moment. */
    method Evict(key: PodKey) returns (reply: EvictReply)
      modifies this`pods, this`evictions
      ensures RemovesBearer(old(pods), key, pods)
      ensures reply == TooManyRequests ==> pods == old(pods)
      ensures reply == EvictNotFound <==> forall k :: k in old(pods) ==> !Bears(old(pods), k, key)
      ensures evictions == old(evictions) + [key]
    {
      evictions := evictions + [key];
      var bearers := set k | k in pods && Bears(pods, k, key);
      if bearers == {} {
        assert forall k :: k in pods && Bears(pods, k, key) ==> k in bearers;
        return EvictNotFound;
      }
      var k :| k in bearers;
      if * {
        return TooManyRequests;
      }
      if * {
        pods := pods - {k};
      }
      if * {
        return EvictFailed;
      }
      return Evicted;
    }

    method DeleteNode(name: string) returns (ok: bool)
      modifies this`nodes, this`log, this`failed
      ensures failed == old(failed) + if ok then 0 else 1
      ensures ok ==>
                && name in old(nodes) && nodes == old(nodes) - {name}
                && log == old(log) + [Deleted(name, old(State()))]
      ensures !ok ==>
                || (nodes == old(nodes) && log == old(log))
                || (name in old(nodes) && nodes == old(nodes) - {name}
                    && log == old(log) + [Deleted(name, old(State()))])
    {
      var effective := *;
      if effective && name in nodes {
        log := log + [Deleted(name, State())];
        nodes := nodes - {name};
        ok := *;
      } else {
        ok := false;
      }
      failed := if ok then failed else failed + 1;
    }

    method Note(action: Action)
      modifies this`log
      ensures log == old(log) + [action]
    {
      log := log + [action];
    }
  }

  // ----------------------------------------------------------------- idle nodes

  /** What the idle check learned about a node: nothing, or its pods at some
      moment. */
  datatype Probe = NotAsked | ListFailed | Saw(st: ApiState)

  /** A look at a node without pods. */
  const SAW_NOTHING := Saw(ApiState(map[], map[]))

  ghost predicate FoundIdle(n: NodeInfo, probe: Probe, percent: real) {
    Usable(n) && Idle(n, percent) && probe.Saw? && !HasWorkload(probe.st, n.name)
  }

  ghost function IdleNodes(nodes: seq<NodeInfo>, probes: seq<Probe>, percent: real): seq<NodeInfo>
    requires |nodes| == |probes|
  {
    if nodes == [] then []
    else
      var n := |nodes| - 1;
      IdleNodes(nodes[..n], probes[..n], percent) + if FoundIdle(nodes[n], probes[n], percent) then [nodes[n]] else []
  }

  lemma {:induction false} IdleMembers(nodes: seq<NodeInfo>, probes: seq<Probe>, percent: real)
    requires |nodes| == |probes|
    ensures forall n :: n in IdleNodes(nodes, probes, percent) ==> n in nodes && Usable(n) && Idle(n, percent)
  {
    if nodes == [] {
    } else {
      IdleMembers(nodes[..|nodes| - 1], probes[..|nodes| - 1], percent);
    }
  }

  method NodeHasWorkloadPods(api: ApiServer, name: string) returns (r: Result<bool, Failure>)
    modifies api`listed, api`listCalls, api`failed
    ensures r.Ok? ==> (r.value <==> HasWorkload(api.State(), name))
    ensures r.Ok? ==>
              (r.value <==>
               exists k :: k in api.pods && api.pods[k].node == Some(name)
                 && api.pods[k].phase !in {"Succeeded", "Failed"} && api.pods[k].namespace != "kube-system"
                 && "DaemonSet" !in api.pods[k].ownerKinds
                 && "kubernetes.io/config.mirror" !in api.pods[k].annotations
                 && api.pods[k].priorityClass !in {"system-cluster-critical", "system-node-critical"})
    ensures r.Err? ==> api.failed > old(api.failed)
    ensures api.listed == if r.Ok? then old(api.listed) + [api.State()] else old(api.listed)
  {
    var listed := api.ListPods(name);
    if listed.Err? {
      return Err(listed.error);
    }
    var items := listed.value;
    for i := 0 to |items|
      invariant api.listed == old(api.listed) + [api.State()]
      invariant forall j :: 0 <= j < i ==> !IsWorkload(items[j].1)
    {
      var pod := items[i].1;
      if pod.phase == SUCCEEDED || pod.phase == FAILED {
        continue;
      }
      if pod.namespace == SYSTEM_NAMESPACE {
        continue;
      }
      if DAEMON_SET in pod.ownerKinds {
        continue;
      }
      if MIRROR in pod.annotations {
        continue;
      }
      if pod.priorityClass == CLUSTER_CRITICAL || pod.priorityClass == NODE_CRITICAL {
        continue;
      }
      assert items[i].0 in api.pods && api.pods[items[i].0].node == Some(name);
      return Ok(true);
    }
    return Ok(false);
  }

  /** A node is idle when it is ready, schedulable, under-used and was seen
      without a pod that is running, outside the system namespace, no
      daemon-set's, not static and not critical. */
  lemma FoundExactly(n: NodeInfo, probe: Probe, percent: real)
    ensures FoundIdle(n, probe, percent) <==>
            && n.ready && !n.unschedulable && n.allocCPU != 0
            && n.usedCPU as real / n.allocCPU as real * 100.0 < percent
            && probe.Saw?
            && forall k :: k in probe.st.pods && probe.st.pods[k].node == Some(n.name) ==>
                 || probe.st.pods[k].phase in {"Succeeded", "Failed"}
                 || probe.st.pods[k].namespace == "kube-system"
                 || "DaemonSet" in probe.st.pods[k].ownerKinds
                 || "kubernetes.io/config.mirror" in probe.st.pods[k].annotations
                 || probe.st.pods[k].priorityClass in {"system-cluster-critical", "system-node-critical"}
  {
  }

  lemma {:induction false} IdleAre(nodes: seq<NodeInfo>, probes: seq<Probe>, percent: real) returns (ks: seq<nat>)
    requires |nodes| == |probes|
    ensures Picks(nodes, ks, IdleNodes(nodes, probes, percent))
    ensures forall j: nat :: j in ks <==> j < |nodes| && FoundIdle(nodes[j], probes[j], percent)
  {
    if nodes == [] {
      ks := [];
    } else {
      var n := |nodes| - 1;
      var before := IdleAre(nodes[..n], probes[..n], percent);
      var found := FoundIdle(nodes[n], probes[n], percent);
      var idle := IdleNodes(nodes, probes, percent);
      ks := PicksStep(nodes, before, IdleNodes(nodes[..n], probes[..n], percent), found, idle);
    }
  }

  /** What the probes saw, in order. */
  ghost function Sightings(probes: seq<Probe>): seq<ApiState> {
    if probes == [] then []
    else
      var n := |probes| - 1;
      Sightings(probes[..n]) + if probes[n].Saw? then [probes[n].st] else []
  }

  /** Decides about one node, looking up its pods only if nothing else rules it out. */
  method ProbeNode(api: ApiServer, n: NodeInfo, percent: real) returns (found: bool, ghost probe: Probe)
    modifies api`nodes, api`pods, api`clock, api`cancelled, api`listed, api`listCalls, api`failed
    ensures probe.ListFailed? ==> api.failed > old(api.failed)
    ensures found <==> FoundIdle(n, probe, percent)
    ensures probe.NotAsked? <==> !(Usable(n) && Idle(n, percent))
    ensures api.listed == old(api.listed) + if probe.Saw? then [probe.st] else []
  {
    found, probe := false, NotAsked;
    if !n.ready || n.unschedulable {
      return;
    }
    if n.allocCPU == 0 {
      return;
    }
    if n.usedCPU as real / n.allocCPU as real * 100.0 >= percent {
      return;
    }
    api.Interfere(n.name);
    var hasWorkload := NodeHasWorkloadPods(api, n.name);
    if hasWorkload.Err? {
      probe := ListFailed;
      return;
    }
    probe := Saw(api.State());
    found := !hasWorkload.value;
  }

  /** Lists the idle nodes in order; the pods of each are looked up at its own
      moment, once and not at all for nodes ruled out before. */
  method FindIdleNodes(api: ApiServer, nodes: seq<NodeInfo>, percent: real)
    returns (idle: seq<NodeInfo>, ghost probes: seq<Probe>, ghost ks: seq<nat>)
    modifies api`nodes, api`pods, api`clock, api`cancelled, api`listed, api`listCalls, api`failed
    ensures |probes| == |nodes| && idle == IdleNodes(nodes, probes, percent)
    ensures Picks(nodes, ks, idle)
    ensures forall j: nat :: j in ks <==>
              && j < |nodes| && nodes[j].ready && !nodes[j].unschedulable && nodes[j].allocCPU != 0
              && nodes[j].usedCPU as real / nodes[j].allocCPU as real * 100.0 < percent
              && probes[j].Saw?
              && forall k :: k in probes[j].st.pods && probes[j].st.pods[k].node == Some(nodes[j].name) ==>
                   || probes[j].st.pods[k].phase in {"Succeeded", "Failed"}
                   || probes[j].st.pods[k].namespace == "kube-system"
                   || "DaemonSet" in probes[j].st.pods[k].ownerKinds
                   || "kubernetes.io/config.mirror" in probes[j].st.pods[k].annotations
                   || probes[j].st.pods[k].priorityClass in {"system-cluster-critical", "system-node-critical"}
    ensures api.listed == old(api.listed) + Sightings(probes)
    ensures forall i :: 0 <= i < |nodes| ==> (probes[i].NotAsked? <==> !(Usable(nodes[i]) && Idle(nodes[i], percent)))
  {
    idle, probes := [], [];
    for i := 0 to |nodes|
      invariant |probes| == i && idle == IdleNodes(nodes[..i], probes, percent)
      invariant api.listed == old(api.listed) + Sightings(probes)
      invariant forall j :: 0 <= j < i ==> (probes[j].NotAsked? <==> !(Usable(nodes[j]) && Idle(nodes[j], percent)))
    {
      assert nodes[..i + 1][..i] == nodes[..i];
      var found, probe := ProbeNode(api, nodes[i], percent);
      assert (probes + [probe])[..i] == probes;
      probes := probes + [probe];
      if found {
        idle := idle + [nodes[i]];
      }
    }
    assert nodes[..|nodes|] == nodes;
    ks := IdleAre(nodes, probes, percent);
    forall j: nat | j < |nodes| {
      FoundExactly(nodes[j], probes[j], percent);
    }
  }

  // ------------------------------------------------------------------ the drain

  /** Reads the node and writes it back unschedulable. Only a failed call
      makes it fail. */
  method CordonNode(api: ApiServer, n: string) returns (r: Result<(), Failure>)
    modifies api`nodes, api`pods, api`clock, api`cancelled, api`failed
    ensures r.Ok? ==> n in api.nodes && api.nodes[n].unschedulable
    ensures r.Err? ==> api.failed > old(api.failed) && (r.error == ApiFailure || r.error == NotFound)
    ensures api.clock >= old(api.clock)
    ensures api.failed >= old(api.failed)
  {
    var got := api.GetNode(n);
    if got.Err? {
      return Err(got.error);
    }
    if got.value.unschedulable {
      return Ok(());
    }
    var node := got.value.(unschedulable := true);
    api.Interfere(n);
    var ok := api.UpdateNode(n, node);
    return if ok then Ok(()) else Err(ApiFailure);
  }

  /** Addresses the pod by its name. A name that is gone counts as evicted; a
      disruption budget and any other refusal are told apart. */
  method EvictPod(api: ApiServer, pod: ApiPod) returns (r: Result<(), Failure>, ghost reply: EvictReply)
    modifies api`pods, api`evictions
    ensures forall n :: Rely(n, old(api.State()), api.State())
    ensures RemovesBearer(old(api.pods), KeyOf(pod), api.pods)
    ensures api.evictions == old(api.evictions) + [KeyOf(pod)]
    ensures (forall k :: k in old(api.pods) ==> !Bears(old(api.pods), k, KeyOf(pod))) ==>
              r.Ok? && api.pods == old(api.pods)
    ensures r.Err? ==> (r.error == PdbBlocked && api.pods == old(api.pods)) || r.error == ApiFailure
    ensures r.Ok? <==> reply == Evicted || reply == EvictNotFound
    ensures r == Err(PdbBlocked) <==> reply == TooManyRequests
  {
    var answer := api.Evict(KeyOf(pod));
    reply := answer;
    match answer
    case Evicted => r := Ok(());
    case EvictNotFound => r := Ok(());
    case TooManyRequests => r := Err(PdbBlocked);
    case EvictFailed => r := Err(ApiFailure);
  }

  /** How many of the listed pods still have to go. */
  method CountRemaining(items: seq<(Uid, ApiPod)>) returns (remaining: nat)
    ensures remaining == 0 <==> forall i :: 0 <= i < |items| ==> ShouldSkip(items[i].1)
  {
    remaining := 0;
    for i := 0 to |items|
      invariant remaining == 0 <==> forall j :: 0 <= j < i ==> ShouldSkip(items[j].1)
    {
      if !ShouldSkip(items[i].1) {
        remaining := remaining + 1;
      }
    }
  }

  /** Polls at once, and then once per interval at most, until nothing evictable
      is left or the drain times out; a failing list call is tried again. It
      gives up only when the time is over or the controller shuts down, and only
      if no poll found the node drained. */
  method WaitForPodsGone(api: ApiServer, n: string, timeout: nat) returns (r: Result<(), Failure>)
    modifies api`nodes, api`pods, api`clock, api`cancelled, api`listed, api`listCalls, api`failed
    ensures old(Closed(api.State(), n)) ==> Closed(api.State(), n)
    ensures r.Ok? ==> NoneEvictable(api.State(), n) && |api.listed| > |old(api.listed)|
    ensures r.Ok? ==> forall k :: k in api.pods && api.pods[k].node == Some(n) ==>
              || api.pods[k].phase in {"Succeeded", "Failed"}
              || "kubernetes.io/config.mirror" in api.pods[k].annotations || "DaemonSet" in api.pods[k].ownerKinds
    ensures r.Err? ==> GaveUp(r.error, old(api.clock) + timeout, api.clock, api.cancelled)
    ensures api.listCalls > old(api.listCalls) && (api.listCalls - old(api.listCalls) - 1) * 5_000_000_000 <= timeout
    ensures api.failed >= old(api.failed) && api.clock >= old(api.clock)
    ensures |api.listed| >= |old(api.listed)| && api.listed[..|old(api.listed)|] == old(api.listed)
    ensures r.Err? ==> forall i :: |old(api.listed)| <= i < |api.listed| ==> !NoneEvictable(api.listed[i], n)
  {
    var deadline, tick := api.clock + timeout, api.clock;
    while true
      invariant old(Closed(api.State(), n)) ==> Closed(api.State(), n)
      invariant deadline == old(api.clock) + timeout && old(api.clock) <= tick <= deadline && api.clock >= tick
      invariant tick == old(api.clock) + (api.listCalls - old(api.listCalls)) * POLL_INTERVAL
      invariant api.listCalls >= old(api.listCalls) && api.failed >= old(api.failed)
      invariant |api.listed| >= |old(api.listed)| && api.listed[..|old(api.listed)|] == old(api.listed)
      invariant forall i :: |old(api.listed)| <= i < |api.listed| ==> !NoneEvictable(api.listed[i], n)
      decreases deadline - tick
    {
      var drained := PollOnce(api, n);
      if drained {
        return Ok(());
      }
      tick := tick + POLL_INTERVAL;
      api.Wait(n, tick);
      if api.clock >= deadline {
        return Err(TimedOut);
      }
      if api.cancelled {
        return Err(Cancelled);
      }
    }
  }

  /** The two reasons for ending the wait early. */
  predicate GaveUp(error: Failure, deadline: int, now: int, cancelled: bool) {
    (error == TimedOut && now >= deadline) || (error == Cancelled && cancelled)
  }

  /** One look at the node's pods; a failing call tells nothing. */
  method PollOnce(api: ApiServer, n: string) returns (drained: bool)
    modifies api`nodes, api`pods, api`clock, api`cancelled, api`listed, api`listCalls, api`failed
    ensures old(Closed(api.State(), n)) ==> Closed(api.State(), n)
    ensures api.listCalls == old(api.listCalls) + 1
    ensures api.failed >= old(api.failed) && api.clock >= old(api.clock)
    ensures api.listed == old(api.listed) || api.listed == old(api.listed) + [api.State()]
    ensures drained <==> api.listed == old(api.listed) + [api.State()] && NoneEvictable(api.State(), n)
  {
    api.Interfere(n);
    var listed := api.ListPods(n);
    if listed.Err? {
      return false;
    }
    var remaining := CountRemaining(listed.value);
    ListedDecides(api.State(), n, listed.value);
    return remaining == 0;
  }

  /** A list of the node's pods tells whether anything evictable is there. */
  lemma ListedDecides(st: ApiState, n: string, items: seq<(Uid, ApiPod)>)
    requires forall k :: k in st.pods && st.pods[k].node == Some(n) <==> exists i :: 0 <= i < |items| && items[i].0 == k
    requires forall i :: 0 <= i < |items| ==> items[i].0 in st.pods && items[i].1 == st.pods[items[i].0]
    ensures NoneEvictable(st, n) <==> forall i :: 0 <= i < |items| ==> ShouldSkip(items[i].1)
    ensures forall k :: EvictableOn(st, k, n) <==>
              exists i :: 0 <= i < |items| && items[i].0 == k && !ShouldSkip(items[i].1)
  {
    forall k
      ensures EvictableOn(st, k, n) <==> exists i :: 0 <= i < |items| && items[i].0 == k && !ShouldSkip(items[i].1)
    {
      if EvictableOn(st, k, n) {
        var i :| 0 <= i < |items| && items[i].0 == k;
        assert !ShouldSkip(items[i].1);
      }
    }
    forall i | 0 <= i < |items| && !ShouldSkip(items[i].1)
      ensures EvictableOn(st, items[i].0, n)
    {
    }
  }

  /** The names of the listed pods that are not skipped, in order. */
  function ToEvict(items: seq<(Uid, ApiPod)>): seq<PodKey> {
    if items == [] then []
    else
      var n := |items| - 1;
      ToEvict(items[..n]) + if ShouldSkip(items[n].1) then [] else [KeyOf(items[n].1)]
  }

  lemma {:induction false} ToEvictMembers(items: seq<(Uid, ApiPod)>)
    ensures forall key :: key in ToEvict(items) <==>
              exists i :: 0 <= i < |items| && KeyOf(items[i].1) == key && !ShouldSkip(items[i].1)
  {
    if items == [] {
    } else {
      var n := |items| - 1;
      ToEvictMembers(items[..n]);
      assert items == items[..n] + [items[n]];
    }
  }

  lemma {:induction false} ToEvictOnce(items: seq<(Uid, ApiPod)>)
    requires forall i, j :: 0 <= i < j < |items| ==> KeyOf(items[i].1) != KeyOf(items[j].1)
    ensures Sums.Distinct(ToEvict(items))
  {
    if items == [] {
    } else {
      var n := |items| - 1;
      ToEvictOnce(items[..n]);
      ToEvictMembers(items[..n]);
      var front := ToEvict(items[..n]);
      forall i | 0 <= i < |front|
        ensures front[i] != KeyOf(items[n].1)
      {
        assert front[i] in front;
      }
    }
  }

  /** The names asked for are those of the evictable pods of the state listed. */
  lemma {:induction false} AskedAreEvictable(st: ApiState, n: string, items: seq<(Uid, ApiPod)>)
    requires forall k :: k in st.pods && st.pods[k].node == Some(n) <==> exists i :: 0 <= i < |items| && items[i].0 == k
    requires forall i :: 0 <= i < |items| ==> items[i].0 in st.pods && items[i].1 == st.pods[items[i].0]
    requires forall i, j :: 0 <= i < j < |items| ==> items[i].0 != items[j].0
    ensures forall key :: key in ToEvict(items) <==> exists k :: EvictableOn(st, k, n) && KeyOf(st.pods[k]) == key
    ensures UniqueNames(st.pods) ==> Sums.Distinct(ToEvict(items))
  {
    ListedDecides(st, n, items);
    ToEvictMembers(items);
    forall key
      ensures key in ToEvict(items) <==> exists k :: EvictableOn(st, k, n) && KeyOf(st.pods[k]) == key
    {
      if key in ToEvict(items) {
        var i :| 0 <= i < |items| && KeyOf(items[i].1) == key && !ShouldSkip(items[i].1);
        assert EvictableOn(st, items[i].0, n);
      }
    }
    if UniqueNames(st.pods) {
      forall i, j | 0 <= i < j < |items|
        ensures KeyOf(items[i].1) != KeyOf(items[j].1)
      {
        assert items[i].0 != items[j].0;
      }
      ToEvictOnce(items);
    }
  }

  /** The evictable pods of a state, by name, in their own fields: critical pods
      and those of the system namespace are among them. */
  lemma EvictableNames(st: ApiState, n: string, asked: seq<PodKey>)
    requires forall key :: key in asked <==> exists k :: EvictableOn(st, k, n) && KeyOf(st.pods[k]) == key
    ensures forall key :: key in asked <==>
              exists k :: k in st.pods && st.pods[k].node == Some(n)
                && PodKey(st.pods[k].namespace, st.pods[k].name) == key
                && st.pods[k].phase !in {"Succeeded", "Failed"}
                && "kubernetes.io/config.mirror" !in st.pods[k].annotations
                && "DaemonSet" !in st.pods[k].ownerKinds
  {
    forall k | k in st.pods && st.pods[k].node == Some(n) && !ShouldSkip(st.pods[k])
      ensures EvictableOn(st, k, n)
    {
    }
  }

  /** Sends one eviction for each listed pod that is not skipped, in order; one
      that is refused does not stop the rest. */
  method EvictAll(api: ApiServer, n: string, items: seq<(Uid, ApiPod)>)
    modifies api`nodes, api`pods, api`clock, api`cancelled, api`evictions
    ensures old(Closed(api.State(), n)) ==> Closed(api.State(), n)
    ensures api.evictions == old(api.evictions) + ToEvict(items)
    ensures api.clock >= old(api.clock)
  {
    for i := 0 to |items|
      invariant old(Closed(api.State(), n)) ==> Closed(api.State(), n)
      invariant api.evictions == old(api.evictions) + ToEvict(items[..i])
      invariant api.clock >= old(api.clock)
    {
      assert items[..i + 1][..i] == items[..i];
      if ShouldSkip(items[i].1) {
        continue;
      }
      api.Interfere(n);
      var evicted, reply := EvictPod(api, items[i].1);
    }
    assert items[..|items|] == items;
  }

  /** Asks once for the eviction of exactly the evictable pods it lists, then
      waits. */
  method Drain(api: ApiServer, n: string, timeout: nat) returns (r: Result<(), Failure>)
    modifies api`nodes, api`pods, api`clock, api`cancelled, api`listed, api`listCalls, api`evictions, api`failed
    ensures old(Closed(api.State(), n)) ==> Closed(api.State(), n)
    ensures r.Ok? ==> NoneEvictable(api.State(), n) && |api.listed| > |old(api.listed)|
    ensures r.Err? ==>
              || GaveUp(r.error, old(api.clock) + timeout, api.clock, api.cancelled)
              || (r.error == ApiFailure && api.failed > old(api.failed) && api.listed == old(api.listed))
    ensures api.failed >= old(api.failed) && api.clock >= old(api.clock)
    ensures |api.listed| == |old(api.listed)| ==> api.evictions == old(api.evictions)
    ensures |api.listed| != |old(api.listed)| ==>
              && |api.listed| > |old(api.listed)| && |api.evictions| >= |old(api.evictions)|
              && api.evictions[..|old(api.evictions)|] == old(api.evictions)
              && var asked := api.evictions[|old(api.evictions)|..];
                 var st := api.listed[|old(api.listed)|];
                 && (UniqueNames(st.pods) ==> Sums.Distinct(asked))
                 && (forall key :: key in asked <==> exists k :: EvictableOn(st, k, n) && KeyOf(st.pods[k]) == key)
                 && forall key :: key in asked <==>
                      exists k :: k in st.pods && st.pods[k].node == Some(n)
                        && PodKey(st.pods[k].namespace, st.pods[k].name) == key
                        && st.pods[k].phase !in {"Succeeded", "Failed"}
                        && "kubernetes.io/config.mirror" !in st.pods[k].annotations
                        && "DaemonSet" !in st.pods[k].ownerKinds
  {
    api.Interfere(n);
    var listed := api.ListPods(n);
    if listed.Err? {
      return Err(listed.error);
    }
    AskedAreEvictable(api.State(), n, listed.value);
    ghost var seen := api.listed;
    EvictAll(api, n, listed.value);
    assert api.evictions[|old(api.evictions)|..] == ToEvict(listed.value);
    r := WaitForPodsGone(api, n, timeout);
    assert api.listed[|old(api.listed)|] == seen[|old(api.listed)|];
    EvictableNames(api.listed[|old(api.listed)|], n, ToEvict(listed.value));
  }

  // ---------------------------------------------------------------- the removal

  /** All that a removal leaves in the outside world. */
  function Removal(n: string, st: ApiState, hasHook: bool): seq<Action> {
    [Deleted(n, st)] + (if hasHook then [HookRan(n)] else []) + [ContainerRemoved(n)]
  }

  /** A state in which deleting the node harms nobody. */
  ghost predicate SafeToDelete(n: string, st: ApiState) {
    n in st.nodes && st.nodes[n].unschedulable && Managed(st.nodes[n]) && NoneEvictable(st, n)
  }

  /** What an attempt to remove a node may leave: all of a removal if it
      succeeds; if not, nothing, except that a delete call reported as failed may
      have deleted the node. In either case that was safe. */
  ghost predicate Leaves(n: string, before: seq<Action>, r: Result<(), Failure>, after: seq<Action>, hasHook: bool) {
    if r.Ok? then exists st :: SafeToDelete(n, st) && after == before + Removal(n, st, hasHook)
    else
      || after == before
      || (r.error == DeleteFailed && exists st :: SafeToDelete(n, st) && after == before + [Deleted(n, st)])
  }

  /** Deletes the node object only if it carries the mark, then runs the hook.
      On a closed node without evictable pods the deletion is safe. */
  method Cleanup(api: ApiServer, n: string, hasHook: bool) returns (r: Result<(), Failure>, ghost st: ApiState)
    modifies api
    ensures r.Err? && r.error != DeleteFailed ==>
              && api.log == old(api.log)
              && (r.error == NotManaged
                    || (api.failed > old(api.failed) && (r.error == ApiFailure || r.error == NotFound)))
    ensures r == Err(NotManaged) ==> n in api.nodes && !Managed(api.nodes[n])
    ensures r == Err(DeleteFailed) ==>
              api.failed > old(api.failed) && (api.log == old(api.log) || api.log == old(api.log) + [Deleted(n, st)])
    ensures api.log != old(api.log) ==>
              && n in st.nodes && Managed(st.nodes[n])
              && (old(Closed(api.State(), n) && NoneEvictable(api.State(), n)) ==> SafeToDelete(n, st))
    ensures r.Ok? ==> api.log == old(api.log) + [Deleted(n, st)] + if hasHook then [HookRan(n)] else []
    ensures api.clock >= old(api.clock)
  {
    api.Interfere(n);
    st := api.State();
    var got := api.GetNode(n);
    if got.Err? {
      return Err(got.error), st;
    }
    if MANAGED_BY !in got.value.annotations || got.value.annotations[MANAGED_BY] != MANAGED_VALUE {
      return Err(NotManaged), st;
    }
    api.Interfere(n);
    st := api.State();
    var ok := api.DeleteNode(n);
    assert n in st.nodes && old(Closed(api.State(), n) && NoneEvictable(api.State(), n)) ==> SafeToDelete(n, st);
    if !ok {
      return Err(DeleteFailed), st;
    }
    if hasHook {
      api.Note(HookRan(n));
    }
    return Ok(()), st;
  }

  /** Removal is safe under every interleaving. The node is deleted at most
      once, reported or not, and only when it was cordoned, marked as ours and
      empty of evictable pods; the infrastructure goes only after a deletion
      that succeeded; and any error but a failed delete call means that the
      node was not deleted. */
  method RemoveNode(api: ApiServer, n: string, timeout: nat, hasHook: bool) returns (r: Result<(), Failure>)
    modifies api
    ensures Leaves(n, old(api.log), r, api.log, hasHook)
    ensures r.Ok? ==>
              exists st :: SafeToDelete(n, st)
                && api.log == old(api.log) + [Deleted(n, st)]
                             + (if hasHook then [HookRan(n)] else []) + [ContainerRemoved(n)]
    ensures r.Err? && r.error != DeleteFailed ==> api.log == old(api.log)
    ensures r.Err? ==>
              || r.error == TimedOut || r.error == Cancelled || r.error == NotManaged
              || api.failed > old(api.failed)
    ensures r == Err(Cancelled) ==> api.cancelled
    ensures forall i :: |old(api.log)| <= i < |api.log| && api.log[i].Deleted? ==>
              var st := api.log[i].before;
              && api.log[i].name == n && n in st.nodes && st.nodes[n].unschedulable
              && "autoscaler.kuber-scale/managed-by" in st.nodes[n].annotations
              && st.nodes[n].annotations["autoscaler.kuber-scale/managed-by"] == "kuber-scale-autoscaler"
              && forall k :: k in st.pods && st.pods[k].node == Some(n) ==>
                   || st.pods[k].phase in {"Succeeded", "Failed"}
                   || "kubernetes.io/config.mirror" in st.pods[k].annotations || "DaemonSet" in st.pods[k].ownerKinds
    ensures r == Err(TimedOut) ==> api.clock >= old(api.clock) + timeout
    ensures r == Err(NotManaged) ==> n in api.nodes && !Managed(api.nodes[n])
  {
    r := CordonNode(api, n);
    if r.Ok? {
      r := Drain(api, n, timeout);
      if r.Ok? {
        ghost var st;
        r, st := Cleanup(api, n, hasHook);
        if r.Ok? {
          assert |api.log| > |old(api.log)|;
          api.Note(ContainerRemoved(n));
          assert api.log == old(api.log) + Removal(n, st, hasHook);
        }
      }
    }
    DeletionsSafe(n, old(api.log), r, api.log, hasHook);
  }

  /** So every deletion, reported or not, happened in a safe state: the node was
      cordoned and carried the mark, and every pod on it was finished, static or
      a daemon-set's. */
  lemma DeletionsSafe(n: string, before: seq<Action>, r: Result<(), Failure>, after: seq<Action>, hasHook: bool)
    requires Leaves(n, before, r, after, hasHook)
    ensures before <= after
    ensures r.Ok? ==>
              exists st :: SafeToDelete(n, st)
                && after == before + [Deleted(n, st)] + (if hasHook then [HookRan(n)] else []) + [ContainerRemoved(n)]
    ensures forall i :: |before| <= i < |after| && after[i].Deleted? ==>
              i == |before| && SafeToDelete(n, after[i].before)
    ensures forall i :: |before| <= i < |after| && after[i].Deleted? ==>
              var st := after[i].before;
              && after[i].name == n && n in st.nodes && st.nodes[n].unschedulable
              && "autoscaler.kuber-scale/managed-by" in st.nodes[n].annotations
              && st.nodes[n].annotations["autoscaler.kuber-scale/managed-by"] == "kuber-scale-autoscaler"
              && forall k :: k in st.pods && st.pods[k].node == Some(n) ==>
                   || st.pods[k].phase in {"Succeeded", "Failed"}
                   || "kubernetes.io/config.mirror" in st.pods[k].annotations || "DaemonSet" in st.pods[k].ownerKinds
  {
    if r.Ok? {
      var st :| SafeToDelete(n, st) && after == before + Removal(n, st, hasHook);
      assert before + Removal(n, st, hasHook)
          == before + [Deleted(n, st)] + (if hasHook then [HookRan(n)] else []) + [ContainerRemoved(n)];
    }
    forall i | |before| <= i < |after| && after[i].Deleted?
      ensures i == |before| && after[i].name == n && SafeToDelete(n, after[i].before)
    {
    }
    forall i, k | |before| <= i < |after| && after[i].Deleted? && k in after[i].before.pods
                  && after[i].before.pods[k].node == Some(n)
      ensures ShouldSkip(after[i].before.pods[k])
    {
      assert !EvictableOn(after[i].before, k, n);
    }
  }
}
