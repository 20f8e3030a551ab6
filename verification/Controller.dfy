/** The controller as an object: its timestamps, the in-flight counter and the
    failure counter, and one reconcile iteration from detection to action. */
module Controller {
  import opened Wrappers
  import opened Cluster
  import opened Packing
  import opened Estimation
  import opened ScalingPolicy
  import opened ControllerSteps
  import opened Filters
  import Backoff
  import Estimator
  import Lifecycle
  import CS = ClusterState

  /** The zero time stamp, the start of year 1, counted like all times from 1970. */
  const ZERO_TIME: int := -62_135_596_800 * SECOND

  /** The node lists that the stages of one iteration read, each at its moment. */
  datatype Views = Views(estimate: seq<NodeInfo>, decide: seq<NodeInfo>, count: seq<NodeInfo>)

  class AutoscalerController {
    var reconciling: bool
    var lastScaleUp: int
    var lastScaleDown: int
    var inFlightProvisioning: int
    var scaleUpFailures: nat
    var scaleUpCooldown: int
    var scaleDownCooldown: int

    function Abs(): Ctl
      reads this
    {
      Ctl(lastScaleUp, lastScaleDown, inFlightProvisioning, scaleUpFailures)
    }

    function Cooling(): Cooldowns
      reads this
    {
      Cooldowns(scaleUpCooldown, scaleDownCooldown)
    }

    /** Nothing is counted yet, cooldowns are sixty seconds either way, and the
        zero time stamps let the first scale-up and the first scale-down through. */
    constructor ()
      ensures !reconciling && inFlightProvisioning == 0 && scaleUpFailures == 0
      ensures lastScaleUp == ZERO_TIME && lastScaleDown == ZERO_TIME
      ensures scaleUpCooldown == 60_000_000_000 && scaleDownCooldown == 60_000_000_000
      ensures forall now :: now >= 0 ==> !CoolingUp(Abs(), Cooling(), now) && !CoolingDown(Abs(), Cooling(), now)
    {
      reconciling := false;
      lastScaleUp, lastScaleDown := ZERO_TIME, ZERO_TIME;
      inFlightProvisioning, scaleUpFailures := 0, 0;
      scaleUpCooldown, scaleDownCooldown := 60 * SECOND, 60 * SECOND;
    }

    /** Provisions what is still missing. `outcome` says which CreateNode calls
        succeed; `from` and `to` are the times read before and after. */
    method HandleScaleUp(count: int, nodes: seq<NodeInfo>, from: int, outcome: nat -> bool, to: int)
      returns (attempts: nat)
      modifies this
      ensures Cooling() == old(Cooling()) && reconciling == old(reconciling)
      ensures attempts == BatchSize(old(Abs()), Cooling(), count, nodes, from)
      ensures Abs() == BatchEffect(old(Abs()), Cooling(), attempts, outcome, to)
      // how many calls
      ensures var missing := count - old(inFlightProvisioning) - |set i | 0 <= i < |nodes| && !nodes[i].ready|;
              attempts == if from - old(lastScaleUp) >= scaleUpCooldown && missing > 0 then missing else 0
      // what they leave behind
      ensures inFlightProvisioning == old(inFlightProvisioning) && lastScaleDown == old(lastScaleDown)
      ensures attempts == 0 ==> lastScaleUp == old(lastScaleUp) && scaleUpFailures == old(scaleUpFailures)
      ensures (exists i: nat :: i < attempts && outcome(i)) ==> lastScaleUp == to && scaleUpFailures == 0
      ensures attempts > 0 && (forall i: nat :: i < attempts ==> !outcome(i)) ==>
                && scaleUpFailures == old(scaleUpFailures) + attempts
                && lastScaleUp == to - scaleUpCooldown + Backoff.Pause(scaleUpFailures)
    {
      UnreadyExactly(nodes);
      attempts := 0;
      if from - lastScaleUp < scaleUpCooldown {
        return;
      }
      var unreadyCount := CountUnready(nodes);
      var alreadyProvisioning := inFlightProvisioning + unreadyCount;
      var toProvision := count - alreadyProvisioning;
      if toProvision <= 0 {
        return;
      }
      attempts := toProvision;
      RunBatch(attempts, outcome, to);
    }

    /** Reserves, makes the calls one by one, settles and gives back. */
    method RunBatch(toProvision: nat, outcome: nat -> bool, to: int)
      requires toProvision > 0
      modifies this
      ensures Cooling() == old(Cooling()) && reconciling == old(reconciling)
      ensures Abs() == BatchEffect(old(Abs()), Cooling(), toProvision, outcome, to)
      ensures inFlightProvisioning == old(inFlightProvisioning) && lastScaleDown == old(lastScaleDown)
      ensures (exists i: nat :: i < toProvision && outcome(i)) ==> lastScaleUp == to && scaleUpFailures == 0
      ensures (forall i: nat :: i < toProvision ==> !outcome(i)) ==>
                && scaleUpFailures == old(scaleUpFailures) + toProvision
                && lastScaleUp == to - scaleUpCooldown + Backoff.Pause(scaleUpFailures)
    {
      BatchInFields(Abs(), Cooling(), toProvision, outcome, to);
      inFlightProvisioning := inFlightProvisioning + toProvision;
      ghost var reserved := Abs();
      var successCount := 0;
      for i := 0 to toProvision
        invariant Cooling() == old(Cooling()) && reconciling == old(reconciling)
        invariant successCount == Successes(outcome, i)
        invariant Abs() == Attempts(reserved, outcome, i)
      {
        if outcome(i) {
          successCount := successCount + 1;
        } else {
          scaleUpFailures := scaleUpFailures + 1;
        }
      }
      if successCount > 0 {
        lastScaleUp := to;
        scaleUpFailures := 0;
      } else if scaleUpFailures > 0 {
        var backoffSeconds := Backoff.Wrap(5 * Backoff.ShiftedOne(scaleUpFailures - 1));
        if backoffSeconds > 60 {
          backoffSeconds := 60;
        }
        var backoff := Backoff.Wrap(backoffSeconds * SECOND);
        lastScaleUp := to + (-scaleUpCooldown + backoff);
      }
      inFlightProvisioning := inFlightProvisioning - toProvision;
    }

    /** What a batch leaves behind, field by field. */
    static lemma BatchInFields(c: Ctl, cd: Cooldowns, n: nat, outcome: nat -> bool, to: int)
      requires n > 0
      ensures var after := BatchEffect(c, cd, n, outcome, to);
              && after.inFlight == c.inFlight && after.lastDown == c.lastDown
              && ((exists i: nat :: i < n && outcome(i)) ==> after.lastUp == to && after.failures == 0)
              && ((forall i: nat :: i < n ==> !outcome(i)) ==>
                    && after.failures == c.failures + n
                    && after.lastUp == to - cd.up + Backoff.Pause(after.failures))
    {
      SuccessesExactly(outcome, n);
      AttemptsCount(Reserve(c, n), outcome, n);
    }

    method CountUnready(nodes: seq<NodeInfo>) returns (count: nat)
      ensures count == Unready(nodes)
    {
      count := 0;
      for i := 0 to |nodes|
        invariant count == Unready(nodes[..i])
      {
        assert nodes[..i + 1][..i] == nodes[..i];
        if !nodes[i].ready {
          count := count + 1;
        }
      }
      assert nodes[..|nodes|] == nodes;
    }

    /** Tries to remove a node, if and only if the cooldown is over; only a
        success restarts the cooldown, and only a failed call, a missing mark, a
        time-out or a shutdown stands in the way of one. */
    method HandleScaleDown(api: Lifecycle.ApiServer, name: string, from: int, to: int, timeout: nat, hasHook: bool)
      returns (r: Option<Result<(), Lifecycle.Failure>>)
      modifies this, api
      ensures Cooling() == old(Cooling()) && reconciling == old(reconciling)
      ensures r.None? <==> CoolingDown(old(Abs()), Cooling(), from)
      ensures r.None? <==> from - old(lastScaleDown) < scaleDownCooldown
      ensures lastScaleDown == (if r.Some? && r.value.Ok? then to else old(lastScaleDown))
      ensures lastScaleUp == old(lastScaleUp) && scaleUpFailures == old(scaleUpFailures)
      ensures inFlightProvisioning == old(inFlightProvisioning)
      ensures r.None? ==> api.log == old(api.log) && api.State() == old(api.State())
      ensures r.Some? ==> Lifecycle.Leaves(name, old(api.log), r.value, api.log, hasHook)
      ensures r.Some? && r.value.Err? ==>
                || r.value.error == Lifecycle.TimedOut || r.value.error == Lifecycle.Cancelled
                || r.value.error == Lifecycle.NotManaged || api.failed > old(api.failed)
      ensures Abs() == old(Abs()).(lastDown := if Removed(r) then to else old(lastScaleDown))
    {
      if from - lastScaleDown < scaleDownCooldown {
        return None;
      }
      var removal := Lifecycle.RemoveNode(api, name, timeout, hasHook);
      if removal.Ok? {
        lastScaleDown := to;
      }
      return Some(removal);
    }

    /** How many CreateNode calls follow from a report, the limits and the
        controller's state, given the node lists the policy and the handler see. */
    static function Wanted(p: ThresholdPolicy, c: Ctl, cd: Cooldowns, r: Report, views: Views, now: int): nat {
      var d := ScaleUpCount(p, r.delta, |views.decide|);
      if r.nodesNeeded == 0 || d.None? then 0 else BatchSize(c, cd, Clamp(d.value, r.nodesNeeded), views.count, now)
    }

    static lemma WantedBounded(p: ThresholdPolicy, c: Ctl, cd: Cooldowns, r: Report, views: Views, now: int)
      ensures c.inFlight >= 0 && Wanted(p, c, cd, r, views, now) > 0 ==>
                && |views.decide| + Wanted(p, c, cd, r, views, now) <= p.maxNodes
                && Wanted(p, c, cd, r, views, now) <= r.nodesNeeded
    {
    }

    /** What the number of CreateNode calls has to be: none while the cooldown is
        on, nothing is needed, no threshold is exceeded or the limit is reached;
        otherwise the right count less the nodes in flight and not ready yet. */
    static ghost predicate ScalesBy(p: ThresholdPolicy, r: Report, views: Views, cooling: bool, inFlight: int,
                                    attempts: nat)
    {
      var d := r.delta;
      var scales := !cooling && r.nodesNeeded > 0 && |views.decide| < p.maxNodes
                    && !(d.cpu == 0 && d.mem == 0) && (d.cpu > p.cpuThreshold || d.mem > p.memThreshold);
      && (!scales ==> attempts == 0)
      && (scales && p.nodeCPU > 0 && p.nodeMem > 0 && d.cpu >= 0 && d.mem >= 0 ==>
            exists count :: RightCount(p, d, r.nodesNeeded, |views.decide|, count)
              && var missing := count - inFlight - |set i | 0 <= i < |views.count| && !views.count[i].ready|;
                 attempts == if missing > 0 then missing else 0)
    }

    static lemma WantedExactly(p: ThresholdPolicy, c: Ctl, cd: Cooldowns, r: Report, views: Views, now: int)
      ensures ScalesBy(p, r, views, now - c.lastUp < cd.up, c.inFlight, Wanted(p, c, cd, r, views, now))
    {
      var d := ScaleUpCount(p, r.delta, |views.decide|);
      UnreadyExactly(views.count);
      if d.Some? && r.nodesNeeded > 0 && p.nodeCPU > 0 && p.nodeMem > 0 && r.delta.cpu >= 0 && r.delta.mem >= 0 {
        ClampedCountRight(p, r.delta, r.nodesNeeded, |views.decide|);
      }
    }

    /** The informers may write to the shared state at any moment. */
    method InformersRun(state: CS.ClusterState)
      modifies state
    {
    }

    /** Pods are waiting: provisions no more nodes than packing needs, nor than
        the node limit leaves. Each stage reads the nodes anew. */
    method ScaleUpFor(p: ThresholdPolicy, t: Template, state: CS.ClusterState, waiting: seq<PodInfo>,
                      critical: string -> bool, outcome: nat -> bool, now: int, end: int)
      returns (attempts: nat, ghost order: seq<PodInfo>, ghost views: Views)
      modifies this, state
      ensures Cooling() == old(Cooling()) && reconciling == old(reconciling) && SortedOrder(t, waiting, order)
      ensures attempts == Wanted(p, old(Abs()), Cooling(), ReportOf(t, views.estimate, waiting, order), views, now)
      ensures Abs() == BatchEffect(old(Abs()), Cooling(), attempts, outcome, end)
      ensures inFlightProvisioning == old(inFlightProvisioning)
      ensures attempts > 0 && inFlightProvisioning >= 0 ==>
                && |views.decide| + attempts <= p.maxNodes
                && attempts <= ReportOf(t, views.estimate, waiting, order).nodesNeeded
      ensures ScalesBy(p, ReportOf(t, views.estimate, waiting, order), views,
                       now - old(lastScaleUp) < scaleUpCooldown, old(inFlightProvisioning), attempts)
      ensures forall q :: multiset(order)[q]
                       == if q.unsupported.None? && (q.cpu > 0 || q.mem > 0) then multiset(waiting)[q] else 0
    {
      attempts := 0;
      InformersRun(state);
      var report, consumed, sorted, ks, os := Estimator.EstimateDetailed(t, state, waiting);
      order, views := sorted, Views(state.nodes, [], []);
      if report.nodesNeeded == 0 {
        WantedExactly(p, Abs(), Cooling(), report, views, now);
        return;
      }
      var count, seen := Decide(p, state, report, critical, now);
      views := views.(decide := seen);
      if count.None? {
        WantedExactly(p, Abs(), Cooling(), report, views, now);
        return;
      }
      InformersRun(state);
      var nodes := state.GetNodes();
      views := views.(count := nodes);
      ghost var before := Abs();
      attempts := HandleScaleUp(count.value, nodes, now, outcome, end);
      BatchKeepsInFlight(before, Cooling(), attempts, outcome, end);
      WantedBounded(p, before, Cooling(), report, views, now);
      WantedExactly(p, before, Cooling(), report, views, now);
    }

    /** The policy's count, cut down to what packing needs. */
    method Decide(p: ThresholdPolicy, state: CS.ClusterState, report: Report, critical: string -> bool, now: int)
      returns (count: Option<int>, ghost seen: seq<NodeInfo>)
      modifies state
      ensures var d := ScaleUpCount(p, report.delta, |seen|);
              count == if d.None? then None else Some(Clamp(d.value, report.nodesNeeded))
    {
      InformersRun(state);
      seen := state.nodes;
      var dec := Evaluate(p, report.delta, state, critical, now);
      if !dec.scaleUp {
        return None, seen;
      }
      count := Some(dec.count);
      if report.nodesNeeded < dec.count {
        count := Some(report.nodesNeeded);
      }
    }

    /** No pod is waiting: the first idle node, if there is one, is the one to
        go. */
    method ScaleDownIdle(percent: real, nodes: seq<NodeInfo>, api: Lifecycle.ApiServer, now: int, end: int,
                         timeout: nat, hasHook: bool)
      returns (picked: Option<string>, removal: Option<Result<(), Lifecycle.Failure>>,
          ghost probes: seq<Lifecycle.Probe>)
      modifies this, api
      ensures Cooling() == old(Cooling()) && reconciling == old(reconciling)
      ensures |probes| == |nodes| && picked == FirstName(Lifecycle.IdleNodes(nodes, probes, percent))
      ensures removal.Some? <==> picked.Some? && !CoolingDown(old(Abs()), Cooling(), now)
      ensures removal.Some? <==> picked.Some? && now - old(lastScaleDown) >= scaleDownCooldown
      ensures picked.None? <==> forall j :: 0 <= j < |nodes| ==> !Lifecycle.FoundIdle(nodes[j], probes[j], percent)
      ensures picked.Some? ==>
                exists j :: 0 <= j < |nodes| && nodes[j].name == picked.value
                  && Lifecycle.FoundIdle(nodes[j], probes[j], percent)
                  && forall i :: 0 <= i < j ==> !Lifecycle.FoundIdle(nodes[i], probes[i], percent)
      ensures removal.Some? ==> Lifecycle.Leaves(picked.value, old(api.log), removal.value, api.log, hasHook)
      ensures removal.None? ==> api.log == old(api.log)
      ensures Abs() == old(Abs()).(lastDown := if Removed(removal) then end else old(lastScaleDown))
    {
      picked, removal := None, None;
      var idle;
      ghost var ks;
      idle, probes, ks := Lifecycle.FindIdleNodes(api, nodes, percent);
      FirstIdle(nodes, probes, percent, ks, idle);
      if |idle| > 0 {
        picked := Some(idle[0].name);
        removal := HandleScaleDown(api, idle[0].name, now, end, timeout, hasHook);
      }
    }

    /** The first element kept is the first that may be kept. */
    static lemma FirstIdle(nodes: seq<NodeInfo>, probes: seq<Lifecycle.Probe>, percent: real, ks: seq<nat>,
                           idle: seq<NodeInfo>)
      requires |probes| == |nodes| && Picks(nodes, ks, idle)
      requires forall j: nat :: j in ks <==> j < |nodes| && Lifecycle.FoundIdle(nodes[j], probes[j], percent)
      ensures idle == [] <==> forall j :: 0 <= j < |nodes| ==> !Lifecycle.FoundIdle(nodes[j], probes[j], percent)
      ensures idle != [] ==>
                exists j :: 0 <= j < |nodes| && nodes[j] == idle[0]
                  && Lifecycle.FoundIdle(nodes[j], probes[j], percent)
                  && forall i :: 0 <= i < j ==> !Lifecycle.FoundIdle(nodes[i], probes[i], percent)
    {
      if idle != [] {
        var j := ks[0];
        assert j in ks;
        forall i: nat | i < j
          ensures i !in ks
        {
        }
      } else {
        assert ks == [];
      }
    }

    /** One tick. While another iteration holds the lock it does nothing.
        Otherwise pods that wait lead to a scale-up or to nothing, never to a
        removal, and the other way round. */
    method Reconcile(p: ThresholdPolicy, t: Template, percent: real, state: CS.ClusterState, api: Lifecycle.ApiServer,
                     isWaiting: PodInfo -> bool, critical: string -> bool, outcome: nat -> bool,
                     now: int, end: int, timeout: nat, hasHook: bool)
      returns (attempts: nat, picked: Option<string>, removal: Option<Result<(), Lifecycle.Failure>>,
               ghost order: seq<PodInfo>, ghost views: Views, ghost probes: seq<Lifecycle.Probe>)
      modifies this, state, api
      ensures reconciling == old(reconciling) && Cooling() == old(Cooling())
      ensures inFlightProvisioning == old(inFlightProvisioning)
      ensures old(reconciling) ==>
                && attempts == 0 && picked.None? && removal.None? && Abs() == old(Abs())
                && api.log == old(api.log) && api.State() == old(api.State())
      ensures var waiting := Waiting(old(state.pendingPods), isWaiting);
              !old(reconciling) && waiting != [] ==>
                && SortedOrder(t, waiting, order)
                && attempts == Wanted(p, old(Abs()), Cooling(), ReportOf(t, views.estimate, waiting, order), views, now)
                && Abs() == BatchEffect(old(Abs()), Cooling(), attempts, outcome, end)
                && picked.None? && removal.None? && api.log == old(api.log) && api.State() == old(api.State())
      // which pods decide, and which are packed
      ensures (exists q :: q in old(state.pendingPods) && isWaiting(q)) ==>
                picked.None? && removal.None? && api.log == old(api.log) && api.State() == old(api.State())
      ensures !(exists q :: q in old(state.pendingPods) && isWaiting(q)) ==> attempts == 0
      ensures !old(reconciling) && (exists q :: q in old(state.pendingPods) && isWaiting(q)) ==>
                forall q :: multiset(order)[q]
                         == if isWaiting(q) && q.unsupported.None? && (q.cpu > 0 || q.mem > 0)
                            then multiset(old(state.pendingPods))[q] else 0
      ensures !old(reconciling) && (exists q :: q in old(state.pendingPods) && isWaiting(q)) ==>
                var waiting := Waiting(old(state.pendingPods), isWaiting);
                ScalesBy(p, ReportOf(t, views.estimate, waiting, order), views,
                         now - old(lastScaleUp) < scaleUpCooldown, old(inFlightProvisioning), attempts)
      ensures !old(reconciling) && Waiting(old(state.pendingPods), isWaiting) == [] ==>
                && attempts == 0 && |probes| == |views.decide|
                && picked == FirstName(Lifecycle.IdleNodes(views.decide, probes, percent))
                && (removal.Some? <==> picked.Some? && !CoolingDown(old(Abs()), Cooling(), now))
                && Abs() == old(Abs()).(lastDown := if Removed(removal) then end else old(lastScaleDown))
      ensures attempts > 0 && inFlightProvisioning >= 0 ==>
                && |views.decide| + attempts <= p.maxNodes
                && var waiting := Waiting(old(state.pendingPods), isWaiting);
                   attempts <= ReportOf(t, views.estimate, waiting, order).nodesNeeded
      ensures removal.Some? ==>
                picked.Some? && Lifecycle.Leaves(picked.value, old(api.log), removal.value, api.log, hasHook)
      ensures removal.None? ==> api.log == old(api.log)
    {
      attempts, picked, removal, order, views, probes := 0, None, None, [], Views([], [], []), [];
      if reconciling {
        return;
      }
      reconciling := true;
      var waiting := Detect(state.pendingPods, isWaiting);
      WaitingAre(state.pendingPods, isWaiting);
      if |waiting| > 0 {
        attempts, order, views := ScaleUpFor(p, t, state, waiting, critical, outcome, now, end);
      } else {
        InformersRun(state);
        var nodes := state.GetNodes();
        views := views.(decide := nodes);
        picked, removal, probes := ScaleDownIdle(percent, nodes, api, now, end, timeout, hasHook);
      }
      reconciling := false;
    }

    method Detect(pending: seq<PodInfo>, isWaiting: PodInfo -> bool) returns (waiting: seq<PodInfo>)
      ensures waiting == Waiting(pending, isWaiting)
    {
      waiting := [];
      for i := 0 to |pending|
        invariant waiting == Waiting(pending[..i], isWaiting)
      {
        assert pending[..i + 1][..i] == pending[..i];
        if isWaiting(pending[i]) {
          waiting := waiting + [pending[i]];
        }
      }
      assert pending[..|pending|] == pending;
    }
  }

  function FirstName(nodes: seq<NodeInfo>): Option<string> {
    if nodes == [] then None else Some(nodes[0].name)
  }

  predicate Removed(removal: Option<Result<(), Lifecycle.Failure>>) { removal.Some? && removal.value.Ok? }

  /** The pods the detector reports, in order. */
  function Waiting(pending: seq<PodInfo>, isWaiting: PodInfo -> bool): seq<PodInfo> {
    if pending == [] then []
    else
      var n := |pending| - 1;
      Waiting(pending[..n], isWaiting) + if isWaiting(pending[n]) then [pending[n]] else []
  }

  lemma {:induction false} WaitingCount(pending: seq<PodInfo>, isWaiting: PodInfo -> bool, q: PodInfo)
    ensures multiset(Waiting(pending, isWaiting))[q] == if isWaiting(q) then multiset(pending)[q] else 0
  {
    if pending == [] {
    } else {
      var n := |pending| - 1;
      WaitingCount(pending[..n], isWaiting, q);
      assert pending == pending[..n] + [pending[n]];
    }
  }

  /** The detector reports each waiting pod as often as it is pending, and nothing
      exactly if none is waiting. */
  lemma WaitingAre(pending: seq<PodInfo>, isWaiting: PodInfo -> bool)
    ensures forall q :: multiset(Waiting(pending, isWaiting))[q] == if isWaiting(q) then multiset(pending)[q] else 0
    ensures Waiting(pending, isWaiting) != [] <==> exists q :: q in pending && isWaiting(q)
  {
    forall q: PodInfo
      ensures multiset(Waiting(pending, isWaiting))[q] == if isWaiting(q) then multiset(pending)[q] else 0
    {
      WaitingCount(pending, isWaiting, q);
    }
    var waiting := Waiting(pending, isWaiting);
    if waiting != [] {
      assert waiting[0] in multiset(waiting);
      assert waiting[0] in multiset(pending);
    }
    if q :| q in pending && isWaiting(q) {
      assert q in multiset(pending);
      assert q in multiset(waiting);
    }
  }
}
